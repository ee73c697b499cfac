/**
 The message protocol of the distributed exporter (dj/djprot.cc): sending,
 connections coming up and going down, and receiving, as an event-driven object
 that records what it does. Callbacks do not call back into it.
 */
module DjProt {
  import opened Common
  import opened Delegation

  datatype Message = Message(
    to: Key, taint: seq<Gcat>, glabel: seq<Gcat>, gclear: seq<Gcat>, dset: seq<Option<Signed>>, body: seq<nat>)

  datatype Code = DeliveryDone | DeliveryTimeout | DeliveryNoAddress | DeliveryLocalDelegation | DeliveryLocalErr

  /** A message on its way out, numbered in order of sending; `cb` says whether
      its status callback is still to be called. */
  datatype Client = Client(id: nat, m: Message, cb: bool)

  datatype Conn = Conn(id: nat, remote: Key)

  datatype AddrCert = AddrCert(fromTs: nat, untilTs: nat)

  /** What a transmission sees of its surroundings: the address cache, the clock
      and which messages the marshaller can encode. */
  datatype Env = Env(addrs: map<Key, AddrCert>, now: int, encodes: Message -> bool)

  datatype Fired = Fired(id: nat, code: Code)
  datatype Write = Write(conn: Conn, id: nat, m: Message)
  datatype Delivery = Delivery(m: Message, src: Key)

  /** Where a submitted message has ended up; `Sent` points into the writes. */
  datatype Fate = Refused | Local | Queued | Sent(w: nat) | Dropped
  datatype Submitted = Submitted(m: Message, dset: seq<Option<Signed>>, fate: Fate)

  const TIME_SKEW := 5
  const TWO32 := 0x1_0000_0000

  /** Time stamps are 32-bit unsigned and the skew is applied in that width. */
  predicate Current(c: AddrCert, now: int) {
    (c.fromTs - TIME_SKEW) % TWO32 <= now <= (c.untilTs + TIME_SKEW) % TWO32
  }

  /** What the test means for 32-bit stamps: the time lies in the span of the certificate, five
      seconds wider at either end; but five seconds before the first seconds there are is taken
      for the far future, and five seconds after the last for the distant past. */
  lemma CurrentMeans(c: AddrCert, now: int)
    requires c.fromTs < 0x1_0000_0000 && c.untilTs < 0x1_0000_0000
    ensures Current(c, now) <==>
      && (if c.fromTs >= 5 then c.fromTs <= now + 5 else c.fromTs + 0x1_0000_0000 <= now + 5)
      && (if c.untilTs < 0x1_0000_0000 - 5 then now <= c.untilTs + 5 else now + 0x1_0000_0000 <= c.untilTs + 5)
  {
  }

  /** The newest connection to a key. */
  function FindConn(conns: seq<Conn>, k: Key): (r: Option<Conn>)
    ensures r.Some? ==> r.value in conns && r.value.remote == k
    ensures r.None? <==> forall i :: 0 <= i < |conns| ==> conns[i].remote != k
  {
    if conns == [] then None
    else if conns[0].remote == k then Some(conns[0])
    else FindConn(conns[1..], k)
  }

  /** The newest connections come first, and no newer one leads there. */
  lemma {:induction false} FindConnNewest(conns: seq<Conn>, k: Key, i: nat)
    requires i < |conns| && conns[i].remote == k && forall j :: 0 <= j < i ==> conns[j].remote != k
    ensures FindConn(conns, k) == Some(conns[i])
  {
    if i > 0 { FindConnNewest(conns[1..], k, i - 1); }
  }

  /** Every secrecy category of the message's taint lets `m.to` see it. */
  ghost predicate MaySend(me: Key, m: Message, dset: seq<Option<Signed>>) {
    m.to == me || forall i :: 0 <= i < |m.taint| && !m.taint[i].integrity ==> SpeaksFor(m.to, m.taint[i], Accepted(dset))
  }

  ghost predicate AllSpeakFor(src: Key, cats: seq<Gcat>, ds: set<Delegates>) {
    forall i :: 0 <= i < |cats| ==> SpeaksFor(src, cats[i], ds)
  }

  /** `src` owns every integrity category, grant and clearance the message carries. */
  ghost predicate MayReceive(me: Key, m: Message, src: Key) {
    src != me ==>
      && (forall i :: 0 <= i < |m.taint| && m.taint[i].integrity ==> SpeaksFor(src, m.taint[i], Accepted(m.dset)))
      && AllSpeakFor(src, m.glabel, Accepted(m.dset))
      && AllSpeakFor(src, m.gclear, Accepted(m.dset))
  }

  lemma SearchUnderSet(k: Key, g: Gcat, dm: seq<Entry>, dset: seq<Option<Signed>>)
    requires ValidMap(dm) && Dels(dm) <= Accepted(dset)
    requires SignaturesIdentify(dset) ==> Dels(dm) == Accepted(dset)
    ensures KeySpeaksFor(k, g, dm, |dm|) ==> SpeaksFor(k, g, Accepted(dset))
    ensures SignaturesIdentify(dset) ==> (KeySpeaksFor(k, g, dm, |dm|) <==> SpeaksFor(k, g, Accepted(dset)))
  {
    SearchExact(k, g, dm);
    if KeySpeaksFor(k, g, dm, |dm|) { MoreDelegations(k, g, Dels(dm), Accepted(dset)); }
  }

  /** The part of a label check that goes through one list of categories; `skip`
      says which kind the check passes over. */
  method CheckAll(k: Key, cats: seq<Gcat>, skipIntegrity: bool, skipSecrecy: bool, dm: DelegationMap, ghost dset: seq<Option<Signed>>)
    returns (ok: bool)
    requires dm.Valid() && Dels(dm.ents) <= Accepted(dset)
    requires SignaturesIdentify(dset) ==> Dels(dm.ents) == Accepted(dset)
    ensures ok ==> forall i :: 0 <= i < |cats| && !(if cats[i].integrity then skipIntegrity else skipSecrecy) ==>
      SpeaksFor(k, cats[i], Accepted(dset))
    ensures SignaturesIdentify(dset) && !ok ==>
      exists i :: 0 <= i < |cats| && !(if cats[i].integrity then skipIntegrity else skipSecrecy) && !SpeaksFor(k, cats[i], Accepted(dset))
  {
    hide SpeaksFor, KeySpeaksFor, Accepted, Dels, ValidMap, SignaturesIdentify;
    var i := 0;
    while i < |cats|
      invariant 0 <= i <= |cats|
      invariant forall j :: 0 <= j < i && !(if cats[j].integrity then skipIntegrity else skipSecrecy) ==>
        SpeaksFor(k, cats[j], Accepted(dset))
    {
      if !(if cats[i].integrity then skipIntegrity else skipSecrecy) {
        SearchUnderSet(k, cats[i], dm.ents, dset);
        if !KeySpeaksFor(k, cats[i], dm.ents, dm.size) { return false; }
      }
      i := i + 1;
    }
    return true;
  }

  /** `labelcheck_send`: sound always, and exact when signatures identify statements. */
  method LabelcheckSend(me: Key, m: Message, dset: seq<Option<Signed>>) returns (ok: bool)
    ensures ok ==> MaySend(me, m, dset)
    ensures m.to == me ==> ok
    ensures SignaturesIdentify(dset) ==> (ok <==> MaySend(me, m, dset))
  {
    hide SpeaksFor, Accepted, Dels, SignaturesIdentify;
    if m.to == me { return true; }
    var dm := FromSet(dset);
    ok := CheckAll(m.to, m.taint, true, false, dm, dset);
  }

  /** `labelcheck_recv` */
  method LabelcheckRecv(me: Key, m: Message, src: Key) returns (ok: bool)
    ensures ok ==> MayReceive(me, m, src)
    ensures src == me ==> ok
    ensures SignaturesIdentify(m.dset) ==> (ok <==> MayReceive(me, m, src))
  {
    hide SpeaksFor, Accepted, Dels, SignaturesIdentify;
    if src == me { return true; }
    var dm := FromSet(m.dset);
    ok := CheckAll(src, m.taint, false, true, dm, m.dset);
    if !ok { return; }
    ok := CheckAll(src, m.glabel, false, false, dm, m.dset);
    if !ok { return; }
    ok := CheckAll(src, m.gclear, false, false, dm, m.dset);
  }

  // --- Transmission ---

  datatype Route = ToSelf | Over(conn: Conn) | Unencodable | NoAddress | Connect

  /** What `clnt_transmit` does with a message. */
  function RouteOf(m: Message, me: Key, conns: seq<Conn>, env: Env): Route {
    if m.to == me then ToSelf
    else if FindConn(conns, m.to).Some? then
      (if env.encodes(m) then Over(FindConn(conns, m.to).value) else Unencodable)
    else if m.to !in env.addrs || !Current(env.addrs[m.to], env.now) then NoAddress
    else Connect
  }

  function CodeOf(r: Route): Code {
    match r
    case ToSelf => DeliveryDone
    case Over(_) => DeliveryDone
    case Unencodable => DeliveryLocalErr
    case NoAddress => DeliveryNoAddress
    case Connect => DeliveryDone
  }

  function FateOf(r: Route, writes: nat): Fate {
    match r
    case ToSelf => Local
    case Over(_) => Sent(writes)
    case Unencodable => Refused
    case NoAddress => Refused
    case Connect => Queued
  }

  // --- The record of a run ---

  /** Every callback has fired exactly once, in order of sending, and reported
      success exactly when the message was not refused. */
  ghost predicate FiredOnce(fired: seq<Fired>, log: seq<Submitted>) {
    && |fired| == |log|
    && (forall i :: 0 <= i < |log| ==> fired[i].id == i)
    && (forall i :: 0 <= i < |log| ==> (fired[i].code == DeliveryDone <==> log[i].fate != Refused))
  }

  /** What was not refused may go where it is addressed, and stays here exactly
      when it is addressed here. */
  ghost predicate Checked(log: seq<Submitted>, me: Key) {
    forall i :: 0 <= i < |log| && log[i].fate != Refused ==>
      MaySend(me, log[i].m, log[i].dset) && (log[i].fate == Local <==> log[i].m.to == me)
  }

  /** The queue holds each queued message once and nothing else, callbacks called. */
  ghost predicate QueueMatches(clnt: seq<Client>, log: seq<Submitted>) {
    && (forall i :: 0 <= i < |clnt| ==> clnt[i].id < |log| && InQueue(clnt[i], log[clnt[i].id]))
    && (forall i, j :: 0 <= i < j < |clnt| ==> clnt[i].id != clnt[j].id)
    && (forall id :: 0 <= id < |log| && log[id].fate == Queued ==> exists i :: 0 <= i < |clnt| && clnt[i].id == id)
  }

  ghost predicate InQueue(c: Client, s: Submitted) {
    !c.cb && c.m == s.m && s.fate == Queued
  }

  /** The writes are the sent messages, each once, each to a connection of its destination. */
  ghost predicate WritesMatch(written: seq<Write>, log: seq<Submitted>) {
    && (forall i :: 0 <= i < |written| ==> written[i].id < |log| && log[written[i].id].fate == Sent(i))
    && (forall id :: 0 <= id < |log| && log[id].fate.Sent? ==>
      log[id].fate.w < |written| && WrittenAs(written[log[id].fate.w], id, log[id].m))
  }

  ghost predicate WrittenAs(w: Write, id: nat, m: Message) {
    w.id == id && w.m == m && w.conn.remote == m.to
  }

  ghost predicate DeliveriesChecked(delivered: seq<Delivery>, me: Key) {
    forall i :: 0 <= i < |delivered| ==> delivered[i].m.to == me && MayReceive(me, delivered[i].m, delivered[i].src)
  }

  function Removed(clnt: seq<Client>, k: nat): seq<Client>
    requires k < |clnt|
  {
    clnt[..k] + clnt[k + 1..]
  }

  /** The log once the message with a number has met another fate. */
  function Met(log: seq<Submitted>, id: nat, f: Fate): seq<Submitted>
    requires id < |log|
  {
    log[id := log[id].(fate := f)]
  }

  datatype Submission = Submission(m: Message, dset: seq<Option<Signed>>)

  /** What was submitted, whatever became of it. */
  ghost function Submissions(log: seq<Submitted>): seq<Submission> {
    seq(|log|, i requires 0 <= i < |log| => Submission(log[i].m, log[i].dset))
  }

  lemma SubmissionsMet(log: seq<Submitted>, id: nat, f: Fate)
    requires id < |log|
    ensures Submissions(Met(log, id, f)) == Submissions(log)
  {
  }

  lemma SubmissionsAdded(log: seq<Submitted>, s: Submitted)
    ensures Submissions(log + [s]) == Submissions(log) + [Submission(s.m, s.dset)]
  {
  }

  lemma SameLength(log: seq<Submitted>, log': seq<Submitted>)
    requires Submissions(log) == Submissions(log')
    ensures |log| == |log'|
  {
    assert |Submissions(log)| == |log| && |Submissions(log')| == |log'|;
  }

  lemma QueueRemoved(clnt: seq<Client>, k: nat, log: seq<Submitted>, f: Fate)
    requires QueueMatches(clnt, log) && k < |clnt| && f != Queued
    ensures QueueMatches(Removed(clnt, k), Met(log, clnt[k].id, f))
  {
    var c, g := Removed(clnt, k), Met(log, clnt[k].id, f);
    assert forall i :: 0 <= i < |c| ==> c[i] == clnt[if i < k then i else i + 1];
    hide Removed;
    forall id | 0 <= id < |g| && g[id].fate == Queued
      ensures exists i :: 0 <= i < |c| && c[i].id == id
    {
      StillQueued(clnt, k, c, log, id);
    }
  }

  lemma StillQueued(clnt: seq<Client>, k: nat, c: seq<Client>, log: seq<Submitted>, id: nat)
    requires QueueMatches(clnt, log) && k < |clnt| && |c| == |clnt| - 1
    requires forall i :: 0 <= i < |c| ==> c[i] == clnt[if i < k then i else i + 1]
    requires id < |log| && log[id].fate == Queued && id != clnt[k].id
    ensures exists i :: 0 <= i < |c| && c[i].id == id
  {
    var i :| 0 <= i < |clnt| && clnt[i].id == id;
    assert c[if i < k then i else i - 1].id == id;
  }

  lemma QueueAdded(clnt: seq<Client>, c: Client, log: seq<Submitted>, s: Submitted)
    requires QueueMatches(clnt, log) && c.id == |log| && InQueue(c, s)
    ensures QueueMatches(clnt + [c], log + [s])
  {
    var d, g := clnt + [c], log + [s];
    forall id | 0 <= id < |g| && g[id].fate == Queued
      ensures exists i :: 0 <= i < |d| && d[i].id == id
    {
      if id < |log| {
        var i :| 0 <= i < |clnt| && clnt[i].id == id;
        assert d[i].id == id;
      } else {
        assert d[|clnt|].id == id;
      }
    }
  }

  lemma QueueKept(clnt: seq<Client>, log: seq<Submitted>, s: Submitted)
    requires QueueMatches(clnt, log) && s.fate != Queued
    ensures QueueMatches(clnt, log + [s])
  {
  }

  lemma SentLater(written: seq<Write>, w: Write, log: seq<Submitted>)
    requires WritesMatch(written, log) && w.id < |log| && !log[w.id].fate.Sent? && WrittenAs(w, w.id, log[w.id].m)
    ensures WritesMatch(written + [w], Met(log, w.id, Sent(|written|)))
  {
  }

  /** The writes that a connection coming up makes for the clients in a queue. */
  function WritesFor(clnt: seq<Client>, conn: Conn, encodes: Message -> bool): seq<Write> {
    if clnt == [] then []
    else
      var c := clnt[|clnt| - 1];
      WritesFor(clnt[..|clnt| - 1], conn, encodes) +
      if c.m.to == conn.remote && encodes(c.m) then [Write(conn, c.id, c.m)] else []
  }

  /** The clients that do not wait for a key. */
  function NotFor(clnt: seq<Client>, k: Key): (r: seq<Client>)
    ensures forall i :: 0 <= i < |r| ==> r[i].m.to != k
  {
    if clnt == [] then []
    else
      var c := clnt[|clnt| - 1];
      NotFor(clnt[..|clnt| - 1], k) + if c.m.to != k then [c] else []
  }

  /** One more submission keeps the record. */
  lemma SubmittedSafely(log: seq<Submitted>, fired: seq<Fired>, written: seq<Write>, clnt: seq<Client>, s: Submitted, me: Key, r: Route, ok: bool)
    requires FiredOnce(fired, log) && Checked(log, me) && QueueMatches(clnt, log) && WritesMatch(written, log)
    requires s.fate == if ok then FateOf(r, |written|) else Refused
    requires ok ==> MaySend(me, s.m, s.dset)
    requires r == ToSelf <==> s.m.to == me
    requires r.Over? ==> r.conn.remote == s.m.to
    ensures FiredOnce(fired + [Fired(|log|, if ok then CodeOf(r) else DeliveryLocalDelegation)], log + [s])
    ensures Checked(log + [s], me)
    ensures QueueMatches(clnt + (if ok && r == Connect then [Client(|log|, s.m, false)] else []), log + [s])
    ensures WritesMatch(written + (if ok && r.Over? then [Write(r.conn, |log|, s.m)] else []), log + [s])
  {
    hide MaySend;
    if ok && r == Connect {
      QueueAdded(clnt, Client(|log|, s.m, false), log, s);
    } else {
      QueueKept(clnt, log, s);
      assert clnt + [] == clnt;
    }
  }

  function Without(conns: seq<Conn>, conn: Conn): seq<Conn> {
    if conns == [] then []
    else if conns[0] == conn then conns[1..]
    else [conns[0]] + Without(conns[1..], conn)
  }

  /** A connection is taken out, if it is there, and the others keep their order. */
  ghost predicate OneLess(conns: seq<Conn>, conn: Conn, conns': seq<Conn>) {
    if conn in conns then
      exists i :: 0 <= i < |conns| && conns[i] == conn && conn !in conns[..i] && conns' == conns[..i] + conns[i + 1..]
    else conns' == conns
  }

  lemma {:induction false} WithoutIsOneLess(conns: seq<Conn>, conn: Conn)
    ensures OneLess(conns, conn, Without(conns, conn))
  {
    if conns != [] {
      var tail := conns[1..];
      assert conns == [conns[0]] + tail;
      if conns[0] == conn {
        assert tail == conns[..0] + conns[0 + 1..];
      } else {
        WithoutIsOneLess(tail, conn);
        if conn in tail {
          var i :| 0 <= i < |tail| && tail[i] == conn && conn !in tail[..i] && Without(tail, conn) == tail[..i] + tail[i + 1..];
          OneLessBehind(conns, conn, i);
        }
      }
    }
  }

  lemma OneLessBehind(conns: seq<Conn>, conn: Conn, i: nat)
    requires conns != [] && conns[0] != conn && i < |conns| - 1 && conns[i + 1] == conn && conn !in conns[1..][..i]
    ensures OneLess(conns, conn, [conns[0]] + (conns[1..][..i] + conns[1..][i + 1..]))
  {
    var k := i + 1;
    assert conns[..k] == [conns[0]] + conns[1..][..i];
    assert conns[k + 1..] == conns[1..][i + 1..];
    assert [conns[0]] + (conns[1..][..i] + conns[1..][i + 1..]) == conns[..k] + conns[k + 1..];
  }

  /** The connections, in no order. */
  ghost function Ups(conns: seq<Conn>): multiset<Conn> { multiset(conns) }

  lemma OneLessUp(conns: seq<Conn>, conn: Conn, conns': seq<Conn>)
    requires OneLess(conns, conn, conns')
    ensures Ups(conns') == Ups(conns) - multiset{conn}
  {
    if conn in conns {
      var i :| 0 <= i < |conns| && conns[i] == conn && conn !in conns[..i] && conns' == conns[..i] + conns[i + 1..];
      UpsTaken(conns, i);
    } else {
      assert conn !in multiset(conns);
    }
  }

  lemma UpsTaken(conns: seq<Conn>, i: nat)
    requires i < |conns|
    ensures Ups(conns[..i] + conns[i + 1..]) == Ups(conns) - multiset{conns[i]}
  {
    var a, b := conns[..i], conns[i + 1..];
    assert conns == a + ([conns[i]] + b);
    assert multiset(conns) == multiset(a) + (multiset{conns[i]} + multiset(b));
  }

  lemma OneLessIn(conns: seq<Conn>, conn: Conn, conns': seq<Conn>)
    requires OneLess(conns, conn, conns')
    ensures forall c :: c in conns' ==> c in conns
  {
  }

  lemma OneMoreUp(conns: seq<Conn>, conn: Conn)
    ensures Ups([conn] + conns) == Ups(conns) + multiset{conn}
  {
  }

  lemma UpIsThere(conns: seq<Conn>, conn: Conn)
    ensures conn in conns <==> conn in Ups(conns)
  {
  }

  /** How a walk over the queue, dropping a key's clients, takes its next step. */
  lemma NextClient(was: seq<Client>, j: nat, remote: Key, clnt: seq<Client>, k: nat)
    requires j <= |was| && k == |NotFor(was[..j], remote)| && k < |clnt|
    requires clnt == NotFor(was[..j], remote) + was[j..]
    ensures j < |was| && clnt[k] == was[j] && was[..j + 1][..j] == was[..j]
    ensures clnt[k].m.to == remote ==> Removed(clnt, k) == NotFor(was[..j + 1], remote) + was[j + 1..]
    ensures clnt[k].m.to == remote ==> |NotFor(was[..j + 1], remote)| == k
    ensures clnt[k].m.to != remote ==> clnt == NotFor(was[..j + 1], remote) + was[j + 1..]
    ensures clnt[k].m.to != remote ==> |NotFor(was[..j + 1], remote)| == k + 1
  {
  }

  /** A queued message that is dropped, or sent to a connection of its
      destination, keeps the record; its callback says nothing more. */
  lemma SettledSafely(log: seq<Submitted>, fired: seq<Fired>, clnt: seq<Client>, k: nat, me: Key, f: Fate)
    requires FiredOnce(fired, log) && Checked(log, me) && QueueMatches(clnt, log) && k < |clnt|
    requires f == Dropped || f.Sent?
    ensures clnt[k].id < |log|
    ensures var g := Met(log, clnt[k].id, f);
      FiredOnce(fired, g) && Checked(g, me) && QueueMatches(Removed(clnt, k), g)
    ensures !clnt[k].cb && log[clnt[k].id].fate == Queued && clnt[k].m == log[clnt[k].id].m
    ensures clnt[k].m.to != me
  {
    hide MaySend;
    QueueRemoved(clnt, k, log, f);
  }

  lemma DroppedSafely(written: seq<Write>, log: seq<Submitted>, id: nat)
    requires WritesMatch(written, log) && id < |log| && log[id].fate == Queued
    ensures WritesMatch(written, Met(log, id, Dropped))
  {
  }

  // --- The order of messages to one destination ---

  ghost predicate Rising(clnt: seq<Client>, n: nat) {
    && (forall i, j :: 0 <= i < j < |clnt| ==> clnt[i].id < clnt[j].id)
    && (forall i :: 0 <= i < |clnt| ==> clnt[i].id < n)
  }

  /** Messages to one destination are written in the order of sending. */
  ghost predicate WrittenInOrder(written: seq<Write>) {
    forall i, j :: 0 <= i < j < |written| && written[i].m.to == written[j].m.to ==> written[i].id < written[j].id
  }

  /** A message waits behind those to its destination that were written. */
  ghost predicate Behind(clnt: seq<Client>, written: seq<Write>) {
    forall i, j :: 0 <= i < |written| && 0 <= j < |clnt| && written[i].m.to == clnt[j].m.to ==> written[i].id < clnt[j].id
  }

  ghost predicate AllBelow(written: seq<Write>, n: nat) {
    forall i :: 0 <= i < |written| ==> written[i].id < n
  }

  /** A message waits only while there is no connection to its destination. */
  ghost predicate NoneMissed(clnt: seq<Client>, conns: seq<Conn>) {
    forall i :: 0 <= i < |clnt| ==> FindConn(conns, clnt[i].m.to) == None
  }

  ghost predicate Orderly(clnt: seq<Client>, written: seq<Write>, conns: seq<Conn>, n: nat) {
    Rising(clnt, n) && WrittenInOrder(written) && Behind(clnt, written) && AllBelow(written, n) && NoneMissed(clnt, conns)
  }

  lemma OrderlySend(clnt: seq<Client>, written: seq<Write>, conns: seq<Conn>, n: nat, m: Message, r: Route)
    requires Orderly(clnt, written, conns, n)
    requires r == Connect ==> FindConn(conns, m.to) == None
    requires r.Over? ==> FindConn(conns, m.to).Some?
    ensures Orderly(clnt + (if r == Connect then [Client(n, m, false)] else []),
                    written + (if r.Over? then [Write(r.conn, n, m)] else []), conns, n + 1)
  {
    hide FindConn;
  }

  /** What is left of a queue is a part of it, in order. */
  lemma {:induction false} NotForPart(clnt: seq<Client>, k: Key, n: nat)
    requires Rising(clnt, n)
    ensures Rising(NotFor(clnt, k), n)
    ensures forall i :: 0 <= i < |NotFor(clnt, k)| ==> NotFor(clnt, k)[i] in clnt && NotFor(clnt, k)[i].m.to != k
  {
    if clnt != [] { NotForPart(clnt[..|clnt| - 1], k, clnt[|clnt| - 1].id); }
  }

  lemma {:induction false} WritesForPart(clnt: seq<Client>, conn: Conn, encodes: Message -> bool, n: nat)
    requires Rising(clnt, n)
    ensures var ws := WritesFor(clnt, conn, encodes);
      && WrittenInOrder(ws) && AllBelow(ws, n)
      && forall i :: 0 <= i < |ws| ==> ws[i].m.to == conn.remote && exists j :: 0 <= j < |clnt| && clnt[j].id == ws[i].id && clnt[j].m == ws[i].m
  {
    if clnt != [] {
      var front, c := clnt[..|clnt| - 1], clnt[|clnt| - 1];
      WritesForPart(front, conn, encodes, c.id);
      var ws := WritesFor(clnt, conn, encodes);
      forall i | 0 <= i < |ws|
        ensures ws[i].m.to == conn.remote && exists j :: 0 <= j < |clnt| && clnt[j].id == ws[i].id && clnt[j].m == ws[i].m
      {
        if i < |WritesFor(front, conn, encodes)| {
          var j :| 0 <= j < |front| && front[j].id == ws[i].id && front[j].m == ws[i].m;
          assert clnt[j] == front[j];
        } else {
          assert clnt[|clnt| - 1].id == ws[i].id;
        }
      }
    }
  }

  lemma OrderlyLost(clnt: seq<Client>, written: seq<Write>, conns: seq<Conn>, conns': seq<Conn>, n: nat, k: Key)
    requires Orderly(clnt, written, conns, n) && forall c :: c in conns' ==> c in conns
    ensures Orderly(NotFor(clnt, k), written, conns', n)
  {
    NotForPart(clnt, k, n);
    FewerConns(clnt, conns, conns');
    hide FindConn, NotFor;
  }

  lemma FewerConns(clnt: seq<Client>, conns: seq<Conn>, conns': seq<Conn>)
    requires NoneMissed(clnt, conns) && forall c :: c in conns' ==> c in conns
    ensures forall c :: c in clnt ==> FindConn(conns', c.m.to) == None
  {
  }

  lemma OrderlyReady(clnt: seq<Client>, written: seq<Write>, conns: seq<Conn>, n: nat, conn: Conn, encodes: Message -> bool)
    requires Orderly(clnt, written, conns, n)
    ensures Orderly(NotFor(clnt, conn.remote), written + WritesFor(clnt, conn, encodes), [conn] + conns, n)
  {
    NotForPart(clnt, conn.remote, n);
    WritesForPart(clnt, conn, encodes, n);
    OneConnMore(clnt, conns, conn);
    hide FindConn, NotFor, WritesFor;
    var ws := WritesFor(clnt, conn, encodes);
    forall i, j | 0 <= i < |written| && 0 <= j < |ws| && written[i].m.to == ws[j].m.to
      ensures written[i].id < ws[j].id
    {
      var k :| 0 <= k < |clnt| && clnt[k].id == ws[j].id && clnt[k].m == ws[j].m;
      assert written[i].m.to == clnt[k].m.to;
    }
  }

  lemma OneConnMore(clnt: seq<Client>, conns: seq<Conn>, conn: Conn)
    requires NoneMissed(clnt, conns)
    ensures forall c :: c in clnt && c.m.to != conn.remote ==> FindConn([conn] + conns, c.m.to) == None
  {
    assert ([conn] + conns)[1..] == conns;
  }

  class Exporter {
    const me: Key
    var clnt: seq<Client>
    var conns: seq<Conn>
    var backend: bool
    var sent: nat

    ghost var log: seq<Submitted>
    ghost var fired: seq<Fired>
    ghost var written: seq<Write>
    ghost var delivered: seq<Delivery>

    /** What every run keeps. */
    ghost predicate Valid()
      reads this
    {
      && sent == |log| && FiredOnce(fired, log) && Checked(log, me)
      && QueueMatches(clnt, log) && WritesMatch(written, log) && DeliveriesChecked(delivered, me)
    }

    ghost predicate InTurn()
      reads this
    {
      Orderly(clnt, written, conns, |log|)
    }

    constructor (k: Key)
      ensures Valid() && InTurn() && me == k && log == [] && conns == [] && !backend
    {
      me, clnt, conns, backend, sent := k, [], [], false, 0;
      log, fired, written, delivered := [], [], [], [];
    }

    /** `clnt_done`: reports to a client that still listens, and drops it. */
    method ClntDone(k: nat, code: Code)
      requires k < |clnt|
      modifies `clnt, `fired
      ensures clnt == Removed(old(clnt), k)
      ensures fired == old(fired) + if old(clnt)[k].cb then [Fired(old(clnt)[k].id, code)] else []
    {
      if clnt[k].cb { fired := fired + [Fired(clnt[k].id, code)]; }
      clnt := clnt[..k] + clnt[k + 1..];
    }

    /** `process_msg`: delivers a message for this host from a sender that passes the checks. */
    method ProcessMsg(m: Message, src: Key)
      requires DeliveriesChecked(delivered, me)
      modifies `delivered
      ensures DeliveriesChecked(delivered, me)
      ensures delivered == old(delivered) || delivered == old(delivered) + [Delivery(m, src)]
      ensures delivered != old(delivered) ==> m.to == me && backend && MayReceive(me, m, src)
      ensures m.to == me && backend && MayReceive(me, m, src) && (src == me || SignaturesIdentify(m.dset)) ==>
        delivered != old(delivered)
    {
      if m.to != me { return; }
      if !backend { return; }
      var ok := LabelcheckRecv(me, m, src);
      if !ok { return; }
      delivered := delivered + [Delivery(m, src)];
    }

    /** `clnt_transmit`. A client is only ever told to connect while it listens:
        its callback is called without looking. */
    method ClntTransmit(k: nat, env: Env)
      requires k < |clnt| && DeliveriesChecked(delivered, me)
      requires RouteOf(clnt[k].m, me, conns, env) == Connect ==> clnt[k].cb
      modifies `clnt, `fired, `written, `delivered
      ensures DeliveriesChecked(delivered, me)
      ensures var c, r := old(clnt)[k], RouteOf(old(clnt)[k].m, me, conns, env);
        && clnt == (if r == Connect then old(clnt)[k := c.(cb := false)] else Removed(old(clnt), k))
        && fired == old(fired) + (if c.cb then [Fired(c.id, CodeOf(r))] else [])
        && written == old(written) + (if r.Over? then [Write(r.conn, c.id, c.m)] else [])
        && delivered == old(delivered) + (if r == ToSelf && backend then [Delivery(c.m, me)] else [])
    {
      var c := clnt[k];
      if c.m.to == me {
        ProcessMsg(c.m, me);
        ClntDone(k, DeliveryDone);
        return;
      }
      var cxn := FindConn(conns, c.m.to);
      if cxn.Some? {
        if !env.encodes(c.m) {
          ClntDone(k, DeliveryLocalErr);
          return;
        }
        ClntDone(k, DeliveryDone);
        written := written + [Write(cxn.value, c.id, c.m)];
        return;
      }
      if c.m.to !in env.addrs || !Current(env.addrs[c.m.to], env.now) {
        ClntDone(k, DeliveryNoAddress);
        return;
      }
      fired := fired + [Fired(c.id, DeliveryDone)];
      clnt := clnt[k := c.(cb := false)];
    }

    /** `send`: the callback fires before it returns, and the message goes out, is
        queued or delivered only when its destination may see it. */
    method Send(m: Message, dset: seq<Option<Signed>>, env: Env) returns (ghost ok: bool)
      requires Valid()
      modifies this
      ensures Valid() && conns == old(conns) && backend == old(backend)
      ensures ok ==> MaySend(me, m, dset)
      ensures m.to == me ==> ok
      ensures SignaturesIdentify(dset) ==> (ok <==> MaySend(me, m, dset))
      ensures var r := RouteOf(m, me, conns, env);
        && log == old(log) + [Submitted(m, dset, if ok then FateOf(r, |old(written)|) else Refused)]
        && fired == old(fired) + [Fired(|old(log)|, if ok then CodeOf(r) else DeliveryLocalDelegation)]
        && clnt == old(clnt) + (if ok && r == Connect then [Client(|old(log)|, m, false)] else [])
        && written == old(written) + (if ok && r.Over? then [Write(r.conn, |old(log)|, m)] else [])
        && delivered == old(delivered) + (if ok && r == ToSelf && backend then [Delivery(m, me)] else [])
    {
      hide MaySend, MayReceive, SpeaksFor, Accepted, SignaturesIdentify, WritesMatch, Checked, QueueMatches, FiredOnce;
      ghost var r := RouteOf(m, me, conns, env);
      var n := |clnt|;
      clnt := clnt + [Client(sent, m, true)];
      sent := sent + 1;
      var may := LabelcheckSend(me, m, dset);
      ok := may;
      if may {
        ClntTransmit(n, env);
      } else {
        ClntDone(n, DeliveryLocalDelegation);
      }
      ghost var s := Submitted(m, dset, if ok then FateOf(r, |old(written)|) else Refused);
      assert clnt == old(clnt) + if ok && r == Connect then [Client(|old(log)|, m, false)] else [];
      assert written == old(written) + if ok && r.Over? then [Write(r.conn, |old(log)|, m)] else [];
      SubmittedSafely(old(log), old(fired), old(written), old(clnt), s, me, r, ok);
      log := log + [s];
    }

    /** `clnt_done` of a waiting client. */
    method Drop(k: nat)
      requires Valid() && k < |clnt|
      modifies `clnt, `fired, `log
      ensures Valid() && fired == old(fired) && clnt == Removed(old(clnt), k)
      ensures Submissions(log) == Submissions(old(log))
    {
      hide MaySend, MayReceive, WritesMatch, Checked, QueueMatches, FiredOnce, DeliveriesChecked, Submissions;
      ghost var id := clnt[k].id;
      SettledSafely(log, fired, clnt, k, me, Dropped);
      DroppedSafely(written, log, id);
      SubmissionsMet(log, id, Dropped);
      ClntDone(k, DeliveryTimeout);
      log := Met(log, id, Dropped);
      assert fired == old(fired);
    }

    /** `tcp_ready` with a connection that failed or went down: every client
        waiting for its key is dropped. */
    method Lost(conn: Conn, wasUp: bool)
      requires Valid()
      modifies this
      ensures Valid() && backend == old(backend)
      ensures if wasUp then OneLess(old(conns), conn, conns) else conns == old(conns)
      ensures clnt == NotFor(old(clnt), conn.remote)
      ensures fired == old(fired) && written == old(written) && delivered == old(delivered)
      ensures Submissions(log) == Submissions(old(log))
    {
      hide MaySend, MayReceive, WritesMatch, Checked, QueueMatches, FiredOnce, DeliveriesChecked, Submissions, OneLess;
      if wasUp {
        WithoutIsOneLess(conns, conn);
        conns := Without(conns, conn);
      }
      ghost var conns' := conns;
      var k := 0;
      ghost var j := 0;
      assert clnt[0..] == clnt;
      while k < |clnt|
        invariant Valid() && backend == old(backend)
        invariant conns == conns'
        invariant fired == old(fired) && written == old(written) && delivered == old(delivered)
        invariant Submissions(log) == Submissions(old(log))
        invariant 0 <= j <= |old(clnt)| && k == |NotFor(old(clnt)[..j], conn.remote)|
        invariant clnt == NotFor(old(clnt)[..j], conn.remote) + old(clnt)[j..]
        decreases |clnt| - k
      {
        NextClient(old(clnt), j, conn.remote, clnt, k);
        if clnt[k].m.to == conn.remote {
          Drop(k);
        } else {
          k := k + 1;
        }
        j := j + 1;
      }
      assert old(clnt)[..j] == old(clnt);
    }

    /** `tcp_ready` with a new connection: every client waiting for its key goes out
        over it, in order, or is dropped if it cannot be encoded. */
    method Ready(conn: Conn, env: Env)
      requires Valid()
      modifies this
      ensures Valid() && backend == old(backend)
      ensures conns == [conn] + old(conns)
      ensures clnt == NotFor(old(clnt), conn.remote)
      ensures written == old(written) + WritesFor(old(clnt), conn, env.encodes)
      ensures fired == old(fired) && delivered == old(delivered)
      ensures Submissions(log) == Submissions(old(log))
    {
      hide MaySend, MayReceive, WritesMatch, Checked, QueueMatches, FiredOnce, DeliveriesChecked, Submissions;
      conns := [conn] + conns;
      assert FindConn(conns, conn.remote) == Some(conn);
      var k := 0;
      ghost var j := 0;
      assert clnt[0..] == clnt;
      while k < |clnt|
        invariant Valid() && backend == old(backend) && conns == [conn] + old(conns)
        invariant fired == old(fired) && delivered == old(delivered) && Submissions(log) == Submissions(old(log))
        invariant 0 <= j <= |old(clnt)| && k == |NotFor(old(clnt)[..j], conn.remote)|
        invariant clnt == NotFor(old(clnt)[..j], conn.remote) + old(clnt)[j..]
        invariant written == old(written) + WritesFor(old(clnt)[..j], conn, env.encodes)
        decreases |clnt| - k
      {
        NextClient(old(clnt), j, conn.remote, clnt, k);
        if clnt[k].m.to == conn.remote {
          Flush(k, conn, env);
        } else {
          k := k + 1;
        }
        j := j + 1;
      }
      assert old(clnt)[..j] == old(clnt);
    }

    /** `clnt_transmit` of a waiting client whose connection has come up. */
    method Flush(k: nat, conn: Conn, env: Env)
      requires Valid() && k < |clnt| && FindConn(conns, clnt[k].m.to) == Some(conn)
      modifies this
      ensures Valid() && backend == old(backend) && conns == old(conns) && fired == old(fired) && delivered == old(delivered)
      ensures clnt == Removed(old(clnt), k)
      ensures var c := old(clnt)[k];
        written == old(written) + if env.encodes(c.m) then [Write(conn, c.id, c.m)] else []
      ensures Submissions(log) == Submissions(old(log))
    {
      hide MaySend, MayReceive, WritesMatch, Checked, QueueMatches, FiredOnce, DeliveriesChecked, Submissions;
      ghost var id := clnt[k].id;
      ghost var f := if env.encodes(clnt[k].m) then Sent(|written|) else Dropped;
      SettledSafely(log, fired, clnt, k, me, f);
      if env.encodes(clnt[k].m) {
        SentLater(written, Write(conn, id, clnt[k].m), log);
      } else {
        DroppedSafely(written, log, id);
      }
      SubmissionsMet(log, id, f);
      ClntTransmit(k, env);
      log := Met(log, id, f);
      assert fired == old(fired);
      assert f == Dropped ==> written == old(written);
    }
  }

  // --- Whole runs ---

  datatype Event =
    | EvSend(m: Message, dset: seq<Option<Signed>>, env: Env)
    | EvReceive(m: Message, sender: Key)
    | EvUp(conn: Conn, env: Env)
    | EvDown(conn: Conn)
    | EvCannotConnect(conn: Conn)
    | EvBackend

  /** What a run promises about everything it has done. */
  ghost predicate Honoured(me: Key, log: seq<Submitted>, fired: seq<Fired>, written: seq<Write>, delivered: seq<Delivery>) {
    && |fired| == |log|
    && (forall i :: 0 <= i < |fired| ==> fired[i].id == i)
    && (forall i, j :: 0 <= i < j < |written| ==> written[i].id != written[j].id)
    && (forall i :: 0 <= i < |written| ==> SafeWrite(me, written[i], log))
    && DeliveriesChecked(delivered, me)
  }

  /** A submitted message, written to its own destination, which may see it. */
  ghost predicate SafeWrite(me: Key, w: Write, log: seq<Submitted>) {
    && w.id < |log| && w.m == log[w.id].m && w.conn.remote == w.m.to != me
    && MaySend(me, w.m, log[w.id].dset)
  }

  lemma RecordHonours(me: Key, log: seq<Submitted>, fired: seq<Fired>, written: seq<Write>, delivered: seq<Delivery>)
    requires FiredOnce(fired, log) && Checked(log, me) && WritesMatch(written, log) && DeliveriesChecked(delivered, me)
    ensures Honoured(me, log, fired, written, delivered)
  {
  }

  /** The messages that a run is asked to send, in order. */
  ghost function Sends(events: seq<Event>): seq<Submission> {
    if events == [] then []
    else
      var e := events[|events| - 1];
      Sends(events[..|events| - 1]) + if e.EvSend? then [Submission(e.m, e.dset)] else []
  }

  /** The connections that are up after an event. */
  ghost function UpNow(up: multiset<Conn>, e: Event): multiset<Conn> {
    match e
    case EvUp(conn, _) => up + multiset{conn}
    case EvDown(conn) => up - multiset{conn}
    case _ => up
  }

  ghost function UpAfter(up: multiset<Conn>, events: seq<Event>): multiset<Conn> {
    if events == [] then up else UpNow(UpAfter(up, events[..|events| - 1]), events[|events| - 1])
  }

  lemma SendsUp(conns: seq<Conn>, m: Message, me: Key, env: Env, id: nat)
    ensures var r := RouteOf(m, me, conns, env); AllUp(Ups(conns), if r.Over? then [Write(r.conn, id, m)] else [])
  {
    var r := RouteOf(m, me, conns, env);
    if r.Over? { UpIsThere(conns, r.conn); }
  }

  lemma ReadyUp(clnt: seq<Client>, conns: seq<Conn>, conn: Conn, encodes: Message -> bool)
    ensures AllUp(Ups([conn] + conns), WritesFor(clnt, conn, encodes))
  {
    OneMoreUp(conns, conn);
    WritesForUp(clnt, conn, encodes);
    hide Ups;
  }

  /** Every write of a run was made at an event, in order, to a connection that was then up. */
  ghost predicate WrittenBy(up: multiset<Conn>, events: seq<Event>, ws: seq<Write>) {
    if events == [] then ws == []
    else exists n :: 0 <= n <= |ws| && WrittenBy(up, events[..|events| - 1], ws[..n]) && AllUp(UpAfter(up, events), ws[n..])
  }

  ghost predicate AllUp(up: multiset<Conn>, ws: seq<Write>) {
    forall i :: 0 <= i < |ws| ==> ws[i].conn in up
  }

  lemma OneEventWrites(up: multiset<Conn>, events: seq<Event>, e: Event, ws: seq<Write>, more: seq<Write>)
    requires WrittenBy(up, events, ws) && AllUp(UpNow(UpAfter(up, events), e), more)
    ensures WrittenBy(up, events + [e], ws + more)
    ensures UpAfter(up, events + [e]) == UpNow(UpAfter(up, events), e)
  {
    hide UpNow, AllUp;
    var longer, all := events + [e], ws + more;
    assert longer[..|longer| - 1] == events && longer[|longer| - 1] == e;
    assert all[..|ws|] == ws && all[|ws|..] == more;
  }

  lemma {:induction false} WritesForUp(clnt: seq<Client>, conn: Conn, encodes: Message -> bool)
    ensures forall i :: 0 <= i < |WritesFor(clnt, conn, encodes)| ==> WritesFor(clnt, conn, encodes)[i].conn == conn
  {
    if clnt != [] { WritesForUp(clnt[..|clnt| - 1], conn, encodes); }
  }

  /** What one event may deliver to the backend: a message from outside, if its sender
      passes the checks, or a message of this host to itself. Checks on a message whose
      signatures identify its statements let everything through that they should. */
  ghost predicate Delivers(me: Key, up: bool, e: Event, ds: seq<Delivery>) {
    match e
    case EvReceive(m, sender) =>
      && (ds == [] || ds == [Delivery(m, sender)])
      && (ds != [] ==> m.to == me && up && MayReceive(me, m, sender))
      && (m.to == me && up && MayReceive(me, m, sender) && (sender == me || SignaturesIdentify(m.dset)) ==> ds != [])
    case EvSend(m, _, _) => ds == if m.to == me && up then [Delivery(m, me)] else []
    case _ => ds == []
  }

  ghost predicate BackendUp(up: bool, events: seq<Event>) {
    up || exists i :: 0 <= i < |events| && events[i].EvBackend?
  }

  /** The deliveries of a run are those of its events, in order. */
  ghost predicate DeliveredBy(me: Key, up: bool, events: seq<Event>, ds: seq<Delivery>) {
    if events == [] then ds == []
    else
      var front := events[..|events| - 1];
      exists n :: 0 <= n <= |ds| && DeliveredBy(me, up, front, ds[..n])
        && Delivers(me, BackendUp(up, front), events[|events| - 1], ds[n..])
  }

  lemma OneEventMore(me: Key, up: bool, events: seq<Event>, e: Event, ds: seq<Delivery>, more: seq<Delivery>)
    requires DeliveredBy(me, up, events, ds) && Delivers(me, BackendUp(up, events), e, more)
    ensures DeliveredBy(me, up, events + [e], ds + more)
    ensures BackendUp(up, events + [e]) <==> BackendUp(up, events) || e.EvBackend?
    ensures Sends(events + [e]) == Sends(events) + Sends([e])
  {
    hide Delivers;
    var longer, all := events + [e], ds + more;
    assert longer[..|longer| - 1] == events && longer[|longer| - 1] == e;
    assert all[..|ds|] == ds && all[|ds|..] == more;
    assert [e][..0] == [];
    assert e.EvBackend? ==> longer[|events|].EvBackend?;
    assert forall i :: 0 <= i < |events| ==> longer[i] == events[i];
  }

  /** One event. */
  method Handle(x: Exporter, e: Event)
    requires x.Valid()
    modifies x
    ensures x.Valid() && (x.backend <==> old(x.backend) || e.EvBackend?)
    ensures Submissions(x.log) == Submissions(old(x.log)) + Sends([e])
    ensures old(x.written) <= x.written && old(x.fired) <= x.fired && old(x.delivered) <= x.delivered
    ensures Delivers(x.me, old(x.backend), e, x.delivered[|old(x.delivered)|..])
    ensures old(x.InTurn()) ==> x.InTurn()
    ensures Ups(x.conns) == UpNow(Ups(old(x.conns)), e)
    ensures AllUp(Ups(x.conns), x.written[|old(x.written)|..])
  {
    hide MaySend, MayReceive, WritesMatch, Checked, QueueMatches, FiredOnce, DeliveriesChecked, Submissions, SignaturesIdentify, Orderly, OneLess,
      Ups, WritesFor, NotFor, FindConn, Current;
    assert [e][..0] == [];
    ghost var clnt, written, conns, n, turn := x.clnt, x.written, x.conns, |x.log|, x.InTurn();
    match e
    case EvSend(m, dset, env) =>
      ghost var ok := x.Send(m, dset, env);
      SubmissionsAdded(old(x.log), x.log[|old(x.log)|]);
      SendsUp(conns, m, x.me, env, n);
      if turn { OrderlySend(clnt, written, conns, n, m, if ok then RouteOf(m, x.me, conns, env) else NoAddress); }
    case EvReceive(m, sender) => x.ProcessMsg(m, sender);
    case EvUp(conn, env) =>
      x.Ready(conn, env);
      SameLength(old(x.log), x.log);
      if turn { OrderlyReady(clnt, written, conns, n, conn, env.encodes); }
      OneMoreUp(conns, conn);
      ReadyUp(clnt, conns, conn, env.encodes);
      assert x.written[|written|..] == WritesFor(clnt, conn, env.encodes);
    case EvDown(conn) =>
      x.Lost(conn, true);
      OneLessUp(conns, conn, x.conns);
      OneLessIn(conns, conn, x.conns);
      SameLength(old(x.log), x.log);
      if turn { OrderlyLost(clnt, written, conns, x.conns, n, conn.remote); }
    case EvCannotConnect(conn) =>
      x.Lost(conn, false);
      SameLength(old(x.log), x.log);
      if turn { OrderlyLost(clnt, written, conns, x.conns, n, conn.remote); }
    case EvBackend => x.backend := true;
  }

  /** Any sequence of sends, receptions and connection events, in any order. */
  method Run(x: Exporter, events: seq<Event>)
    requires x.Valid()
    modifies x
    ensures x.Valid()
    ensures Honoured(x.me, x.log, x.fired, x.written, x.delivered)
    ensures Submissions(x.log) == Submissions(old(x.log)) + Sends(events)
    ensures old(x.written) <= x.written && old(x.delivered) <= x.delivered && old(x.fired) <= x.fired
    ensures DeliveredBy(x.me, old(x.backend), events, x.delivered[|old(x.delivered)|..])
    ensures old(x.InTurn()) ==> x.InTurn()
    ensures Ups(x.conns) == UpAfter(Ups(old(x.conns)), events)
    ensures WrittenBy(Ups(old(x.conns)), events, x.written[|old(x.written)|..])
  {
    hide MaySend, MayReceive, WritesMatch, Checked, QueueMatches, FiredOnce, DeliveriesChecked, Submissions, Sends,
      DeliveredBy, Delivers, BackendUp, Orderly, UpNow, UpAfter, WrittenBy, AllUp, Ups;
    ghost var n, k, up := |x.delivered|, |x.written|, Ups(x.conns);
    EmptyRun(x.me, x.backend, up);
    assert x.delivered[n..] == [] && x.written[k..] == [] && events[..0] == [];
    for i := 0 to |events|
      invariant x.Valid() && (x.backend <==> BackendUp(old(x.backend), events[..i]))
      invariant old(x.written) <= x.written && old(x.delivered) <= x.delivered && old(x.fired) <= x.fired
      invariant Submissions(x.log) == Submissions(old(x.log)) + Sends(events[..i])
      invariant DeliveredBy(x.me, old(x.backend), events[..i], x.delivered[n..])
      invariant old(x.InTurn()) ==> x.InTurn()
      invariant Ups(x.conns) == UpAfter(up, events[..i]) && WrittenBy(up, events[..i], x.written[k..])
    {
      ghost var before, wrote := x.delivered, x.written;
      Handle(x, events[i]);
      OneEventMore(x.me, old(x.backend), events[..i], events[i], before[n..], x.delivered[|before|..]);
      OneEventWrites(up, events[..i], events[i], wrote[k..], x.written[|wrote|..]);
      assert events[..i + 1] == events[..i] + [events[i]];
      assert x.written[k..] == wrote[k..] + x.written[|wrote|..];
      assert x.delivered[n..] == before[n..] + x.delivered[|before|..];
    }
    assert events[..|events|] == events;
    RecordHonours(x.me, x.log, x.fired, x.written, x.delivered);
  }

  lemma EmptyRun(me: Key, up: bool, conns: multiset<Conn>)
    ensures DeliveredBy(me, up, [], []) && Sends([]) == [] && (BackendUp(up, []) <==> up)
    ensures UpAfter(conns, []) == conns && WrittenBy(conns, [], [])
  {
  }
}
