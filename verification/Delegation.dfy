/**
 Speaks-for delegation (dj/djkey.cc): signed statements, the delegation map, and
 the depth-bounded search for a chain of delegations. A signature is the fact
 that a key signed a statement; keys have ordinary equality and order.
 */
module Delegation {
  import opened Common

  type Key = nat

  /** A global category, owned by the key in its name. */
  datatype Gcat = Gcat(key: Key, id: nat, integrity: bool)

  datatype Entity = EntKey(key: Key) | EntGcat(gcat: Gcat) | EntAddress(ip: nat, port: nat)

  /** `via` says `a` speaks for `b`. */
  datatype Delegates = Delegates(a: Entity, b: Entity, via: Option<Key>, fromTs: nat, untilTs: nat)

  datatype Stmt = StmtDelegation(d: Delegates) | StmtKeySetup(sender: Key, to: Key) | StmtHostInfo(host: Key)

  datatype Sig = Sig(signer: Key, bits: nat)

  datatype Signed = Signed(stmt: Stmt, sign: Sig)

  /** The key whose signature a statement needs, if any key can make it. */
  function Speaker(s: Stmt): Option<Key> {
    match s
    case StmtDelegation(d) =>
      if d.via.Some? then d.via
      else (match d.b
            case EntKey(k) => Some(k)
            case EntGcat(g) => Some(g.key)
            case EntAddress(_, _) => None)
    case StmtKeySetup(sender, _) => Some(sender)
    case StmtHostInfo(host) => Some(host)
  }

  predicate VerifyStmt(s: Signed) {
    Speaker(s.stmt) == Some(s.sign.signer)
  }

  /** A statement the delegation map takes in. */
  predicate Acceptable(s: Signed) {
    VerifyStmt(s) && s.stmt.StmtDelegation? && s.stmt.d.a.EntKey?
  }

  /** Who signed a statement that verifies: the key it is about or, of a delegation, the one
      it goes through, or else the one it delegates or that owns the category it delegates. */
  lemma VerifyStmtExact(s: Signed)
    ensures VerifyStmt(s) <==>
      || (s.stmt.StmtKeySetup? && s.stmt.sender == s.sign.signer)
      || (s.stmt.StmtHostInfo? && s.stmt.host == s.sign.signer)
      || (s.stmt.StmtDelegation? && SignedFor(s.stmt.d, s.sign.signer))
  {
  }

  predicate SignedFor(d: Delegates, k: Key) {
    if d.via != None then d.via == Some(k) else d.b == EntKey(k) || (d.b.EntGcat? && d.b.gcat.key == k)
  }

  /** Exactly the verified delegations to keys are taken in. */
  lemma AcceptableExact(s: Signed)
    ensures Acceptable(s) <==> s.stmt.StmtDelegation? && s.stmt.d.a.EntKey? && SignedFor(s.stmt.d, s.sign.signer)
  {
    VerifyStmtExact(s);
  }

  // --- The search ---

  /** The map's entries in tree order; `pk` is the delegated-to key. */
  datatype Entry = Entry(ss: Signed) {
    predicate Valid() { Acceptable(ss) }
    function D(): Delegates requires Valid() { ss.stmt.d }
    function Pk(): Key requires Valid() { ss.stmt.d.a.key }
  }

  ghost predicate ValidMap(dm: seq<Entry>) {
    && (forall i :: 0 <= i < |dm| ==> dm[i].Valid())
    && (forall i, j :: 0 <= i < j < |dm| ==> dm[i].Pk() <= dm[j].Pk())
  }

  /** Position of the first entry for `k`, or the end. */
  function Find(dm: seq<Entry>, k: Key): (r: nat)
    requires ValidMap(dm)
    ensures r <= |dm|
    ensures r < |dm| ==> dm[r].Pk() == k
    ensures forall i :: 0 <= i < |dm| && dm[i].Pk() == k ==> r <= i
  {
    FindFrom(dm, k, 0)
  }

  function FindFrom(dm: seq<Entry>, k: Key, i: nat): (r: nat)
    requires ValidMap(dm) && i <= |dm|
    ensures i <= r <= |dm|
    ensures r < |dm| ==> dm[r].Pk() == k
    ensures forall j :: i <= j < |dm| && dm[j].Pk() == k ==> r <= j
    decreases |dm| - i
  {
    if i == |dm| || dm[i].Pk() == k then i else FindFrom(dm, k, i + 1)
  }

  predicate KeySpeaksFor(k: Key, g: Gcat, dm: seq<Entry>, depth: nat)
    requires ValidMap(dm)
    decreases depth, |dm| + 1
  {
    g.key == k || (depth > 0 && Walk(k, g, dm, depth, Find(dm, k)))
  }

  predicate Walk(k: Key, g: Gcat, dm: seq<Entry>, depth: nat, i: nat)
    requires ValidMap(dm) && depth > 0 && i <= |dm|
    decreases depth, |dm| - i
  {
    if i == |dm| || dm[i].Pk() != k then false
    else if dm[i].D().via.Some? && !KeySpeaksFor(dm[i].D().via.value, g, dm, depth - 1) then Walk(k, g, dm, depth, i + 1)
    else if dm[i].D().b == EntGcat(g) then true
    else if dm[i].D().b.EntKey? && KeySpeaksFor(dm[i].D().b.key, g, dm, depth - 1) then true
    else Walk(k, g, dm, depth, i + 1)
  }

  /** The entry's premises hold within `depth - 1` steps. */
  ghost predicate Fires(d: Delegates, g: Gcat, dm: seq<Entry>, depth: nat)
    requires ValidMap(dm) && depth > 0
  {
    && (d.via.Some? ==> KeySpeaksFor(d.via.value, g, dm, depth - 1))
    && (d.b == EntGcat(g) || (d.b.EntKey? && KeySpeaksFor(d.b.key, g, dm, depth - 1)))
  }

  lemma {:induction false} WalkFires(k: Key, g: Gcat, dm: seq<Entry>, depth: nat, i: nat)
    requires ValidMap(dm) && depth > 0 && i <= |dm|
    ensures Walk(k, g, dm, depth, i) <==>
      exists j :: i <= j < |dm| && dm[j].Pk() == k && dm[i].Pk() == k && Fires(dm[j].D(), g, dm, depth)
    decreases |dm| - i
  {
    if i < |dm| && dm[i].Pk() == k {
      WalkFires(k, g, dm, depth, i + 1);
      assert forall j :: i < j < |dm| && dm[j].Pk() == k ==> dm[i + 1].Pk() == k;
    }
  }

  /** The search answers by the existence of an entry whose premises hold. */
  lemma SpeaksByEntry(k: Key, g: Gcat, dm: seq<Entry>, depth: nat)
    requires ValidMap(dm) && depth > 0
    ensures KeySpeaksFor(k, g, dm, depth) <==>
      g.key == k || exists j :: 0 <= j < |dm| && dm[j].Pk() == k && Fires(dm[j].D(), g, dm, depth)
  {
    WalkFires(k, g, dm, depth, Find(dm, k));
  }

  // --- What it means to speak for a category ---

  /** The premises of a delegation, given the keys in `s`. */
  predicate Enabled(d: Delegates, g: Gcat, s: set<Key>) {
    && d.a.EntKey?
    && (d.via.Some? ==> d.via.value in s)
    && (d.b == EntGcat(g) || (d.b.EntKey? && d.b.key in s))
  }

  ghost predicate Closed(s: set<Key>, g: Gcat, ds: set<Delegates>) {
    g.key in s && forall d :: d in ds && Enabled(d, g, s) ==> d.a.key in s
  }

  /** `k` is in the least set of keys closed under the delegations. */
  ghost predicate SpeaksFor(k: Key, g: Gcat, ds: set<Delegates>) {
    forall s: set<Key> :: Closed(s, g, ds) ==> k in s
  }

  ghost function Dels(dm: seq<Entry>): set<Delegates>
    requires ValidMap(dm)
  {
    set e | e in dm :: e.D()
  }

  /** Sound at any depth: an answer lies in every closed set. */
  lemma {:induction false} SearchSound(k: Key, g: Gcat, dm: seq<Entry>, depth: nat, s: set<Key>)
    requires ValidMap(dm) && Closed(s, g, Dels(dm))
    requires KeySpeaksFor(k, g, dm, depth)
    ensures k in s
    decreases depth
  {
    if g.key != k {
      SpeaksByEntry(k, g, dm, depth);
      var j :| 0 <= j < |dm| && dm[j].Pk() == k && Fires(dm[j].D(), g, dm, depth);
      var d := dm[j].D();
      if d.via.Some? { SearchSound(d.via.value, g, dm, depth - 1, s); }
      if d.b.EntKey? && d.b != EntGcat(g) { SearchSound(d.b.key, g, dm, depth - 1, s); }
      assert d in Dels(dm) && Enabled(d, g, s);
    }
  }

  lemma {:induction false} DeeperFinds(k: Key, g: Gcat, dm: seq<Entry>, depth: nat)
    requires ValidMap(dm) && KeySpeaksFor(k, g, dm, depth)
    ensures KeySpeaksFor(k, g, dm, depth + 1)
    decreases depth
  {
    if g.key != k {
      SpeaksByEntry(k, g, dm, depth);
      var j :| 0 <= j < |dm| && dm[j].Pk() == k && Fires(dm[j].D(), g, dm, depth);
      var d := dm[j].D();
      if d.via.Some? { DeeperFinds(d.via.value, g, dm, depth - 1); }
      if d.b.EntKey? && d.b != EntGcat(g) { DeeperFinds(d.b.key, g, dm, depth - 1); }
      assert Fires(d, g, dm, depth + 1);
      SpeaksByEntry(k, g, dm, depth + 1);
    }
  }

  /** The keys a search can ever accept. */
  ghost function Universe(g: Gcat, dm: seq<Entry>): set<Key>
    requires ValidMap(dm)
  {
    if |dm| == 0 then {g.key} else Universe(g, dm[..|dm| - 1]) + {dm[|dm| - 1].Pk()}
  }

  lemma {:induction false} UniverseSize(g: Gcat, dm: seq<Entry>)
    requires ValidMap(dm)
    ensures |Universe(g, dm)| <= |dm| + 1
    ensures g.key in Universe(g, dm)
    ensures forall j :: 0 <= j < |dm| ==> dm[j].Pk() in Universe(g, dm)
  {
    if |dm| > 0 { UniverseSize(g, dm[..|dm| - 1]); }
  }

  ghost function Reach(g: Gcat, dm: seq<Entry>, depth: nat): set<Key>
    requires ValidMap(dm)
  {
    set k | k in Universe(g, dm) && KeySpeaksFor(k, g, dm, depth)
  }

  lemma InReach(k: Key, g: Gcat, dm: seq<Entry>, depth: nat)
    requires ValidMap(dm)
    ensures k in Reach(g, dm, depth) <==> KeySpeaksFor(k, g, dm, depth)
  {
    UniverseSize(g, dm);
    if depth > 0 { SpeaksByEntry(k, g, dm, depth); }
  }

  /** Keys found in one more step are those enabled by the keys found so far. */
  lemma NextReach(d: Delegates, g: Gcat, dm: seq<Entry>, depth: nat)
    requires ValidMap(dm) && d in Dels(dm) && Enabled(d, g, Reach(g, dm, depth))
    ensures d.a.key in Reach(g, dm, depth + 1)
  {
    var e :| e in dm && e.D() == d;
    var j :| 0 <= j < |dm| && dm[j] == e;
    assert Fires(d, g, dm, depth + 1);
    SpeaksByEntry(d.a.key, g, dm, depth + 1);
    InReach(d.a.key, g, dm, depth + 1);
  }

  lemma ReachMonotone(g: Gcat, dm: seq<Entry>, depth: nat)
    requires ValidMap(dm)
    ensures g.key in Reach(g, dm, depth) && Reach(g, dm, depth) <= Reach(g, dm, depth + 1)
    ensures Closed(Reach(g, dm, depth), g, Dels(dm)) ==> Reach(g, dm, depth + 1) == Reach(g, dm, depth)
  {
    var r, r' := Reach(g, dm, depth), Reach(g, dm, depth + 1);
    UniverseSize(g, dm);
    forall k | k in r
      ensures k in r'
    {
      DeeperFinds(k, g, dm, depth);
    }
    if Closed(r, g, Dels(dm)) {
      forall k | k in r'
        ensures k in r
      {
        SearchSound(k, g, dm, depth + 1, r);
      }
    }
  }

  /** Either the search has converged, or it has found a new key at every depth. */
  lemma {:induction false} ReachGrows(g: Gcat, dm: seq<Entry>, depth: nat)
    requires ValidMap(dm)
    ensures Closed(Reach(g, dm, depth), g, Dels(dm)) || |Reach(g, dm, depth)| > depth
  {
    hide Reach, Dels, ValidMap;
    ReachMonotone(g, dm, depth);
    if depth > 0 {
      var r := Reach(g, dm, depth - 1);
      ReachGrows(g, dm, depth - 1);
      ReachMonotone(g, dm, depth - 1);
      if !Closed(r, g, Dels(dm)) {
        var d :| d in Dels(dm) && Enabled(d, g, r) && d.a.key !in r;
        NextReach(d, g, dm, depth - 1);
        SubsetSize(r + {d.a.key}, Reach(g, dm, depth));
      }
    }
  }

  lemma ReachConverges(g: Gcat, dm: seq<Entry>)
    requires ValidMap(dm)
    ensures Closed(Reach(g, dm, |dm|), g, Dels(dm))
  {
    var r := Reach(g, dm, |dm|);
    ReachGrows(g, dm, |dm|);
    UniverseSize(g, dm);
    SubsetSize(r, Universe(g, dm));
  }

  /** At the depth its callers use, the number of entries, the search decides
      membership in the least fixpoint. */
  lemma SearchExact(k: Key, g: Gcat, dm: seq<Entry>)
    requires ValidMap(dm)
    ensures KeySpeaksFor(k, g, dm, |dm|) <==> SpeaksFor(k, g, Dels(dm))
  {
    if KeySpeaksFor(k, g, dm, |dm|) {
      forall s: set<Key> | Closed(s, g, Dels(dm))
        ensures k in s
      {
        SearchSound(k, g, dm, |dm|, s);
      }
    }
    ReachConverges(g, dm);
    InReach(k, g, dm, |dm|);
  }

  // --- Adding delegations ---

  function InsertedAt(dm: seq<Entry>, pos: nat, e: Entry): seq<Entry>
    requires pos <= |dm|
  {
    dm[..pos] + [e] + dm[pos..]
  }

  lemma InsertedValid(dm: seq<Entry>, pos: nat, e: Entry)
    requires ValidMap(dm) && pos <= |dm| && e.Valid()
    requires forall j :: 0 <= j < pos ==> dm[j].Pk() <= e.Pk()
    requires pos < |dm| ==> e.Pk() <= dm[pos].Pk()
    ensures ValidMap(InsertedAt(dm, pos, e))
  {
  }

  lemma InsertedDels(dm: seq<Entry>, pos: nat, e: Entry)
    requires ValidMap(dm) && pos <= |dm| && e.Valid() && ValidMap(InsertedAt(dm, pos, e))
    ensures Dels(InsertedAt(dm, pos, e)) == Dels(dm) + {e.D()}
  {
  }

  /** A delegation whose premises hold was signed by a key already known to speak
      for the category. */
  lemma SignerSpeaksFirst(e: Entry, g: Gcat, s: set<Key>)
    requires e.Valid() && g.key in s && Enabled(e.D(), g, s)
    ensures e.ss.sign.signer in s
  {
  }

  /** The same along the search: its signer is found one step earlier. */
  lemma SignerFoundEarlier(e: Entry, g: Gcat, dm: seq<Entry>, depth: nat)
    requires ValidMap(dm) && e.Valid() && depth > 0 && Fires(e.D(), g, dm, depth)
    ensures KeySpeaksFor(e.ss.sign.signer, g, dm, depth - 1)
  {
  }

  /** More delegations never take an answer away. */
  lemma MoreDelegations(k: Key, g: Gcat, ds: set<Delegates>, ds': set<Delegates>)
    requires ds <= ds' && SpeaksFor(k, g, ds)
    ensures SpeaksFor(k, g, ds')
  {
  }

  /** A delegation whose signer is outside a closed set adds nothing to it. */
  lemma StaysClosed(e: Entry, g: Gcat, s: set<Key>, ds: set<Delegates>)
    requires e.Valid() && Closed(s, g, ds) && e.ss.sign.signer !in s
    ensures Closed(s, g, ds + {e.D()})
  {
    if Enabled(e.D(), g, s) { SignerSpeaksFirst(e, g, s); }
  }

  /** So it adds nothing to the least one. */
  lemma UnauthorisedAddsNothing(k: Key, g: Gcat, dm: seq<Entry>, e: Entry)
    requires ValidMap(dm) && e.Valid() && !SpeaksFor(e.ss.sign.signer, g, Dels(dm))
    ensures SpeaksFor(k, g, Dels(dm) + {e.D()}) <==> SpeaksFor(k, g, Dels(dm))
  {
    hide Closed, Enabled;
    var r := Reach(g, dm, |dm|);
    ReachConverges(g, dm);
    SearchExact(e.ss.sign.signer, g, dm);
    SearchExact(k, g, dm);
    InReach(e.ss.sign.signer, g, dm, |dm|);
    InReach(k, g, dm, |dm|);
    StaysClosed(e, g, r, Dels(dm));
    if SpeaksFor(k, g, Dels(dm)) { MoreDelegations(k, g, Dels(dm), Dels(dm) + {e.D()}); }
  }

  /** Adding a statement whose signer does not speak for a category changes no
      answer for it, although the search may now go one step deeper. */
  lemma UnauthorisedIsInert(k: Key, g: Gcat, dm: seq<Entry>, pos: nat, e: Entry)
    requires ValidMap(dm) && pos <= |dm| && e.Valid() && ValidMap(InsertedAt(dm, pos, e))
    requires !SpeaksFor(e.ss.sign.signer, g, Dels(dm))
    ensures KeySpeaksFor(k, g, InsertedAt(dm, pos, e), |dm| + 1) <==> KeySpeaksFor(k, g, dm, |dm|)
  {
    var dm' := InsertedAt(dm, pos, e);
    assert |dm'| == |dm| + 1;
    hide SpeaksFor, KeySpeaksFor, Dels, ValidMap, InsertedAt;
    InsertedDels(dm, pos, e);
    SearchExact(k, g, dm);
    SearchExact(k, g, dm');
    UnauthorisedAddsNothing(k, g, dm, e);
  }

  /** The delegations of a set of encoded statements; `None` did not decode. */
  ghost function Accepted(dset: seq<Option<Signed>>): set<Delegates> {
    set i | 0 <= i < |dset| && dset[i].Some? && Acceptable(dset[i].value) :: dset[i].value.stmt.d
  }

  /** No signature is valid for two statements. */
  ghost predicate SignaturesIdentify(dset: seq<Option<Signed>>) {
    forall i, j :: 0 <= i < j < |dset| && dset[i].Some? && dset[j].Some? ==>
      dset[i].value.sign == dset[j].value.sign ==> dset[i].value == dset[j].value
  }

  /** Some entry at or after the first one for `k` carries this signature. */
  ghost predicate HasSignature(dm: seq<Entry>, k: Key, sign: Sig)
    requires ValidMap(dm)
  {
    exists i :: Find(dm, k) <= i < |dm| && dm[i].ss.sign == sign
  }

  class DelegationMap {
    var ents: seq<Entry>
    var size: nat

    ghost predicate Valid()
      reads this
    {
      ValidMap(ents) && size == |ents|
    }

    constructor ()
      ensures Valid() && ents == []
    {
      ents, size := [], 0;
    }

    method Contains(k: Key, sign: Sig) returns (found: bool)
      requires Valid()
      ensures found <==> HasSignature(ents, k, sign)
    {
      var i := Find(ents, k);
      while i < |ents|
        invariant Find(ents, k) <= i <= |ents|
        invariant forall j :: Find(ents, k) <= j < i ==> ents[j].ss.sign != sign
      {
        if ents[i].ss.sign == sign { return true; }
        i := i + 1;
      }
      return false;
    }

    /** Takes in a verified delegation to a key, unless its signature is there already. */
    method Insert(ss: Signed)
      requires Valid()
      modifies this
      ensures Valid()
      ensures ents == old(ents) <==> !Acceptable(ss) || HasSignature(old(ents), Entry(ss).Pk(), ss.sign)
      ensures ents == old(ents) ||
        (Acceptable(ss) && exists pos :: 0 <= pos <= |old(ents)| && ents == InsertedAt(old(ents), pos, Entry(ss)))
    {
      if !Acceptable(ss) { return; }
      var e := Entry(ss);
      var found := Contains(e.Pk(), ss.sign);
      if found { return; }
      var pos := 0;
      while pos < |ents| && ents[pos].Pk() <= e.Pk()
        invariant 0 <= pos <= |ents|
        invariant forall j :: 0 <= j < pos ==> ents[j].Pk() <= e.Pk()
      {
        pos := pos + 1;
      }
      InsertedValid(ents, pos, e);
      ents := InsertedAt(ents, pos, e);
      size := size + 1;
      assert |ents| == |old(ents)| + 1;
    }
  }

  /** The map built from a message's delegation set. */
  method FromSet(dset: seq<Option<Signed>>) returns (m: DelegationMap)
    ensures fresh(m) && m.Valid()
    ensures Dels(m.ents) <= Accepted(dset)
    ensures SignaturesIdentify(dset) ==> Dels(m.ents) == Accepted(dset)
  {
    hide Dels, Accepted, AllFrom, SignaturesIdentify, HasSignature, Acceptable, InsertedAt, ValidMap;
    m := new DelegationMap();
    FromNothing(dset);
    var i := 0;
    while i < |dset|
      invariant 0 <= i <= |dset| && m.Valid() && fresh(m)
      invariant AllFrom(m.ents, dset[..i])
      invariant Dels(m.ents) <= Accepted(dset[..i])
      invariant SignaturesIdentify(dset) ==> Dels(m.ents) == Accepted(dset[..i])
    {
      AcceptedStep(dset, i);
      AllFromMore(m.ents, dset, i);
      if dset[i].Some? {
        ghost var ents0 := m.ents;
        m.Insert(dset[i].value);
        InsertKeeps(dset, i, ents0, m.ents);
      }
      i := i + 1;
    }
    assert dset[..i] == dset;
  }

  /** Every entry is one of the statements. */
  ghost predicate AllFrom(ents: seq<Entry>, dset: seq<Option<Signed>>) {
    forall j :: 0 <= j < |ents| ==> Some(ents[j].ss) in dset
  }

  lemma FromNothing(dset: seq<Option<Signed>>)
    ensures ValidMap([]) && AllFrom([], dset[..0]) && Dels([]) == {} && Accepted(dset[..0]) == {}
  {
  }

  lemma AllFromMore(ents: seq<Entry>, dset: seq<Option<Signed>>, i: nat)
    requires i < |dset| && AllFrom(ents, dset[..i])
    ensures AllFrom(ents, dset[..i + 1])
  {
    assert dset[..i + 1] == dset[..i] + [dset[i]];
  }

  lemma AcceptedStep(dset: seq<Option<Signed>>, i: nat)
    requires i < |dset|
    ensures Accepted(dset[..i + 1]) == Accepted(dset[..i]) +
      if dset[i].Some? && Acceptable(dset[i].value) then {dset[i].value.stmt.d} else {}
  {
  }

  lemma InsertKeeps(dset: seq<Option<Signed>>, i: nat, ents0: seq<Entry>, ents: seq<Entry>)
    requires i < |dset| && dset[i].Some? && ValidMap(ents0) && ValidMap(ents)
    requires AllFrom(ents0, dset[..i])
    requires ents == ents0 ||
      (Acceptable(dset[i].value) && exists pos :: 0 <= pos <= |ents0| && ents == InsertedAt(ents0, pos, Entry(dset[i].value)))
    requires Acceptable(dset[i].value) && ents == ents0 ==> HasSignature(ents, Entry(dset[i].value).Pk(), dset[i].value.sign)
    ensures AllFrom(ents, dset[..i + 1])
    ensures Dels(ents0) <= Dels(ents)
    ensures Dels(ents) <= Dels(ents0) + if Acceptable(dset[i].value) then {dset[i].value.stmt.d} else {}
    ensures SignaturesIdentify(dset) && Acceptable(dset[i].value) ==> dset[i].value.stmt.d in Dels(ents)
  {
    var ss := dset[i].value;
    if ents == ents0 {
      AllFromMore(ents, dset, i);
      if Acceptable(ss) && SignaturesIdentify(dset) {
        var j :| 0 <= j < |ents| && ents[j].ss.sign == ss.sign;
        assert Some(ents[j].ss) in dset[..i];
        assert ents[j].ss == ss;
        assert ents[j].D() == ss.stmt.d;
      }
    } else {
      var pos :| 0 <= pos <= |ents0| && ents == InsertedAt(ents0, pos, Entry(ss));
      InsertedDels(ents0, pos, Entry(ss));
      forall j | 0 <= j < |ents|
        ensures Some(ents[j].ss) in dset[..i + 1]
      {
        if j == pos { assert dset[..i + 1][i] == Some(ss); }
        else { assert ents[j] == ents0[if j < pos then j else j - 1]; }
      }
    }
  }
}
