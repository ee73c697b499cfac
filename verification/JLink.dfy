/**
 A blocking link between one reader and one writer (lib/jcomm.cc), which anybody
 may shut: a step relation in which a thread's accesses to what another thread
 can see, under the lock or by sleeping on it, are separate steps. The lock is
 the mutex of lib/jthread.c, as its client sees it.
 */
module JLink {
  import opened Common
  import opened JLinkData

  datatype Who = Nobody | TheReader | TheWriter | TheShutter(id: nat)

  /** Where the reader stands; `nb` is a non-blocking call. */
  datatype Reader =
    | RIdle
    | RLock(cnt: nat, nb: bool)
    | RCheck(cnt: nat, nb: bool)                 // holds the lock, tests for bytes
    | RRelease(cnt: nat, nb: bool, opn: bool)    // holds the lock, found none
    | RWait(cnt: nat)                            // sleeps while empty and open
    | RAsleep(cnt: nat)
    | RTake(cnt: nat)                            // holds the lock, copies bytes or a header out
    | RStore(got: seq<Byte>, rest: seq<Byte>)    // about to store what is left behind the bytes
    | RHeader(hdr: nat, rest: seq<Byte>)         // about to store what is left behind the header
    | RPayload(hdr: nat)                         // holds the lock, copies the packet out
    | RFinish(got: seq<Byte>, rest: seq<Byte>)   // about to store what is left behind the packet
    | RNotify | RWake | RDone                    // holds the lock, wakes a waiting writer

  datatype Writer =
    | WIdle
    | WLock(data: seq<Byte>, nb: bool)
    | WCheck(data: seq<Byte>, nb: bool)
    | WRelease(data: seq<Byte>, nb: bool, b: nat)
    | WWait(data: seq<Byte>, b: nat)             // sleeps while `b` bytes are there and the link is open
    | WAsleep(data: seq<Byte>, b: nat)
    | WQuit                                      // holds the lock, found the link shut
    | WPut(data: seq<Byte>)                      // holds the lock, copies bytes or a header in
    | WStore(data: seq<Byte>, seen: seq<Byte>)   // about to store the count of what it saw and put
    | WHeader(data: seq<Byte>, seen: seq<Byte>)  // the same for a header
    | WPayload(data: seq<Byte>)                  // holds the lock, header written
    | WFinish(data: seq<Byte>, seen: seq<Byte>)  // the same for the packet
    | WNotify | WWake | WDone

  datatype Shutter = SLock | SHold | SUnlock | SWake | SOver

  /** The bytes: those in the buffer, and a record of what reads gave back and
      writes took in. */
  datatype Data = Data(queue: seq<Byte>, returned: seq<seq<Byte>>, accepted: seq<seq<Byte>>)

  /** How a call ends, or is going to: with bytes, or with a return code. `TooLong` is of a packet
      that the reader's buffer or the link has no place for; `Failed` is the wait's own error. */
  datatype Outcome = Moved(bytes: seq<Byte>) | Eof | Again | TooLong | Failed

  /** What a call asked for, what it came to, and how many bytes were in the buffer then. */
  datatype Call = Call(cnt: nat, nb: bool, out: Outcome, there: nat)

  /** The calls under way, and those whose outcome is settled. */
  datatype History = History(rcnt: nat, rnb: bool, readCalls: seq<Call>, wdata: seq<Byte>, wnb: bool, writeCalls: seq<Call>)

  datatype Flags = Flags(open: bool, readerWaiting: bool, writerWaiting: bool)

  datatype Link = Link(
    packet: bool, d: Data, f: Flags, lock: Who, reader: Reader, writer: Writer, shutters: map<nat, Shutter>, h: History)

  datatype Move =
    | Read(cnt: nat, nb: bool)          // a call, if the reader is idle
    | Write(data: seq<Byte>, nb: bool)
    | ReaderStep
    | WriterStep
    | ReaderFault | WriterFault         // the wait returns an error
    | ShutterStep(id: nat)

  function Min(a: nat, b: nat): nat { if a <= b then a else b }

  predicate HasRoom(s: Link, cnt: nat) {
    |s.d.queue| <= BUFSZ && Room(s.packet, |s.d.queue|, cnt)
  }

  function WokenReader(r: Reader): Reader { if r.RAsleep? then RLock(r.cnt, false) else r }
  function WokenWriter(w: Writer): Writer { if w.WAsleep? then WLock(w.data, false) else w }

  /** Bytes that were read out are given back, and the others stay. */
  function Left(d: Data, got: seq<Byte>, rest: seq<Byte>): Data {
    d.(queue := rest, returned := d.returned + [got])
  }

  function FirstOf(queue: seq<Byte>, n: nat): seq<Byte> { queue[..Min(n, |queue|)] }
  function RestOf(queue: seq<Byte>, n: nat): seq<Byte> { queue[Min(n, |queue|)..] }

  /** The first `n` bytes are read out. */
  function Taken(d: Data, n: nat): Data {
    Left(d, FirstOf(d.queue, n), RestOf(d.queue, n))
  }

  function HeaderOf(d: Data): nat
    requires |d.queue| >= HEADER
  {
    FromLittleEndian(d.queue[..HEADER])
  }

  /** The read under way has an outcome. */
  function Settled(s: Link, out: Outcome): History {
    s.h.(readCalls := s.h.readCalls + [Call(s.h.rcnt, s.h.rnb, out, |s.d.queue|)])
  }

  function WriteSettled(s: Link, out: Outcome): History {
    s.h.(writeCalls := s.h.writeCalls + [Call(|s.h.wdata|, s.h.wnb, out, |s.d.queue|)])
  }

  function ReaderNext(s: Link): Link {
    match s.reader
    case RIdle => s
    case RLock(cnt, nb) => if s.lock == Nobody then s.(lock := TheReader, reader := RCheck(cnt, nb)) else s
    case RCheck(cnt, nb) =>
      if s.d.queue != [] then s.(reader := RTake(cnt))
      else s.(f := s.f.(readerWaiting := s.f.readerWaiting || !nb), reader := RRelease(cnt, nb, s.f.open))
    case RRelease(cnt, nb, opn) =>
      if !opn then s.(lock := Nobody, reader := RIdle, h := Settled(s, Eof))
      else if nb then s.(lock := Nobody, reader := RIdle, h := Settled(s, Again))
      else s.(lock := Nobody, reader := RWait(cnt))
    case RWait(cnt) => s.(reader := if s.d.queue == [] && s.f.open then RAsleep(cnt) else RLock(cnt, false))
    case RAsleep(cnt) => s.(reader := RLock(cnt, false))
    case RTake(cnt) =>
      if !s.packet then s.(reader := RStore(FirstOf(s.d.queue, cnt), RestOf(s.d.queue, cnt)))
      else if |s.d.queue| < HEADER then s
      else if HeaderOf(s.d) > cnt then s.(reader := RIdle, h := Settled(s, TooLong))   // returns with the lock held
      else s.(reader := RHeader(HeaderOf(s.d), s.d.queue[HEADER..]))
    case RStore(got, rest) => s.(d := Left(s.d, got, rest), reader := RNotify, h := Settled(s, Moved(got)))
    case RHeader(hdr, rest) => s.(d := s.d.(queue := rest), reader := RPayload(hdr))
    case RPayload(hdr) => s.(reader := RFinish(FirstOf(s.d.queue, hdr), RestOf(s.d.queue, hdr)))
    case RFinish(got, rest) => s.(d := Left(s.d, got, rest), reader := RNotify, h := Settled(s, Moved(got)))
    case RNotify =>
      if s.f.writerWaiting then s.(f := s.f.(writerWaiting := false), reader := RWake) else s.(reader := RDone)
    case RWake => s.(writer := WokenWriter(s.writer), reader := RDone)
    case RDone => s.(lock := Nobody, reader := RIdle)
  }

  /** Bytes are taken in behind those that the writer saw. */
  function Grown(d: Data, seen: seq<Byte>, data: seq<Byte>): Data {
    d.(queue := seen + data, accepted := d.accepted + [data])
  }

  /** A whole write is taken in. */
  function Added(d: Data, data: seq<Byte>): Data {
    Grown(d, d.queue, data)
  }

  function WriterNext(s: Link): Link {
    match s.writer
    case WIdle => s
    case WLock(data, nb) => if s.lock == Nobody then s.(lock := TheWriter, writer := WCheck(data, nb)) else s
    case WCheck(data, nb) =>
      if !s.f.open then s.(writer := WQuit)
      else if HasRoom(s, |data|) then s.(writer := WPut(data))
      else s.(f := s.f.(writerWaiting := s.f.writerWaiting || !nb), writer := WRelease(data, nb, |s.d.queue|))
    case WRelease(data, nb, b) =>
      if nb then s.(lock := Nobody, writer := WIdle, h := WriteSettled(s, Again))
      else s.(lock := Nobody, writer := WWait(data, b))
    case WWait(data, b) => s.(writer := if |s.d.queue| == b && s.f.open then WAsleep(data, b) else WLock(data, false))
    case WAsleep(data, b) => s.(writer := WLock(data, false))
    case WQuit => s.(lock := Nobody, writer := WIdle, h := WriteSettled(s, Eof))
    case WPut(data) =>
      if s.packet then s.(writer := WHeader(data, s.d.queue))
      else s.(writer := WStore(data[..Min(|data|, BUFSZ - Min(BUFSZ, |s.d.queue|))], s.d.queue))
    case WStore(data, seen) => s.(d := Grown(s.d, seen, data), writer := WNotify, h := WriteSettled(s, Moved(data)))
    case WHeader(data, seen) => s.(d := s.d.(queue := seen + Header(|data|)), writer := WPayload(data))
    case WPayload(data) => s.(writer := WFinish(data, s.d.queue))
    case WFinish(data, seen) => s.(d := Grown(s.d, seen, data), writer := WNotify, h := WriteSettled(s, Moved(data)))
    case WNotify =>
      if s.f.readerWaiting then s.(f := s.f.(readerWaiting := false), writer := WWake) else s.(writer := WDone)
    case WWake => s.(reader := WokenReader(s.reader), writer := WDone)
    case WDone => s.(lock := Nobody, writer := WIdle)
  }

  function ShutterNext(s: Link, id: nat): Link {
    if id !in s.shutters then s.(shutters := s.shutters[id := SLock])
    else
      match s.shutters[id]
      case SLock => if s.lock == Nobody then s.(lock := TheShutter(id), shutters := s.shutters[id := SHold]) else s
      case SHold => s.(f := s.f.(open := false), shutters := s.shutters[id := SUnlock])
      case SUnlock => s.(lock := Nobody, shutters := s.shutters[id := SWake])
      case SWake =>
        s.(reader := WokenReader(s.reader), writer := WokenWriter(s.writer), shutters := s.shutters[id := SOver])
      case SOver => s
  }

  /** The start of a write: a packet longer than the buffer is refused at once. */
  function Written(s: Link): Link {
    if s.packet && |s.h.wdata| > BUFSZ then s.(h := WriteSettled(s, TooLong))
    else s.(writer := WLock(s.h.wdata, s.h.wnb))
  }

  function Next(s: Link, m: Move): Link {
    match m
    case Read(cnt, nb) =>
      if s.reader == RIdle then s.(reader := RLock(cnt, nb), h := s.h.(rcnt := cnt, rnb := nb)) else s
    case Write(data, nb) => if s.writer == WIdle then Written(s.(h := s.h.(wdata := data, wnb := nb))) else s
    case ReaderStep => ReaderNext(s)
    case WriterStep => WriterNext(s)
    case ReaderFault => if s.reader.RWait? || s.reader.RAsleep? then s.(reader := RIdle, h := Settled(s, Failed)) else s
    case WriterFault => if s.writer.WWait? || s.writer.WAsleep? then s.(writer := WIdle, h := WriteSettled(s, Failed)) else s
    case ShutterStep(id) => ShutterNext(s, id)
  }

  // --- Holding the lock ---

  ghost predicate ReaderHolds(r: Reader) {
    || r.RCheck? || r.RRelease? || r.RTake? || r.RStore? || r.RHeader? || r.RPayload? || r.RFinish?
    || r.RNotify? || r.RWake? || r.RDone?
  }

  ghost predicate WriterHolds(w: Writer) {
    || w.WCheck? || w.WRelease? || w.WQuit? || w.WPut? || w.WStore? || w.WHeader? || w.WPayload? || w.WFinish?
    || w.WNotify? || w.WWake? || w.WDone?
  }

  ghost predicate ShutterHolds(lock: Who, shutters: map<nat, Shutter>) {
    forall id :: id in shutters && (shutters[id] == SHold || shutters[id] == SUnlock) ==> lock == TheShutter(id)
  }

  /** Whoever is inside the critical section has the lock. */
  ghost predicate Locked(s: Link) {
    && (ReaderHolds(s.reader) ==> s.lock == TheReader)
    && (WriterHolds(s.writer) ==> s.lock == TheWriter)
    && ShutterHolds(s.lock, s.shutters)
  }

  ghost predicate ReaderStores(r: Reader) { r.RStore? || r.RHeader? || r.RFinish? }
  ghost predicate WriterStores(w: Writer) { w.WStore? || w.WHeader? || w.WFinish? }

  /** What the reader's step leaves alone, and how it takes and gives up the lock. */
  lemma ReaderFrame(s: Link)
    ensures var r := ReaderNext(s);
      && r.packet == s.packet && r.f.open == s.f.open && r.shutters == s.shutters
      && (r.writer == s.writer || (s.reader == RWake && r.writer == WokenWriter(s.writer)))
      && (ReaderStores(s.reader) || r.d == s.d)
      && (r.lock == s.lock || (s.lock == Nobody && r.lock == TheReader) || (r.lock == Nobody && ReaderHolds(s.reader)))
      && (ReaderHolds(r.reader) ==> (ReaderHolds(s.reader) && r.lock == s.lock) || r.lock == TheReader)
  {
    hide HeaderOf, Left, FirstOf, RestOf;
    match s.reader
    case RIdle =>
    case RLock(_, _) =>
    case RCheck(_, _) =>
    case RRelease(_, _, _) =>
    case RWait(_) =>
    case RAsleep(_) =>
    case RTake(_) =>
    case RStore(_, _) =>
    case RHeader(_, _) =>
    case RPayload(_) =>
    case RFinish(_, _) =>
    case RNotify =>
    case RWake =>
    case RDone =>
  }

  lemma WriterFrame(s: Link)
    ensures var r := WriterNext(s);
      && r.packet == s.packet && r.f.open == s.f.open && r.shutters == s.shutters
      && (r.reader == s.reader || (s.writer == WWake && r.reader == WokenReader(s.reader)))
      && (WriterStores(s.writer) || r.d == s.d)
      && (r.lock == s.lock || (s.lock == Nobody && r.lock == TheWriter) || (r.lock == Nobody && WriterHolds(s.writer)))
      && (WriterHolds(r.writer) ==> (WriterHolds(s.writer) && r.lock == s.lock) || r.lock == TheWriter)
  {
    hide HasRoom, Header, Grown;
    match s.writer
    case WIdle =>
    case WLock(_, _) =>
    case WCheck(_, _) =>
    case WRelease(_, _, _) =>
    case WWait(_, _) =>
    case WAsleep(_, _) =>
    case WQuit =>
    case WPut(_) =>
    case WStore(_, _) =>
    case WHeader(_, _) =>
    case WPayload(_) =>
    case WFinish(_, _) =>
    case WNotify =>
    case WWake =>
    case WDone =>
  }

  lemma LockedReader(s: Link)
    requires Locked(s)
    ensures Locked(ReaderNext(s))
  {
  }

  lemma LockedWriter(s: Link)
    requires Locked(s)
    ensures Locked(WriterNext(s))
  {
  }

  lemma LockedShutter(s: Link, id: nat)
    requires Locked(s)
    ensures Locked(ShutterNext(s, id))
  {
  }

  lemma LockedStep(s: Link, m: Move)
    requires Locked(s)
    ensures Locked(Next(s, m))
  {
    hide ReaderNext, WriterNext, ShutterNext;
    LockedReader(s);
    LockedWriter(s);
    if m.ShutterStep? { LockedShutter(s, m.id); }
  }

  // --- The bytes ---

  /** What a thread has copied out, or has seen before it copied in, is still so. */
  ghost predicate ReaderFresh(r: Reader, queue: seq<Byte>) {
    match r
    case RStore(got, rest) => queue == got + rest
    case RHeader(hdr, rest) => |queue| >= HEADER && hdr == FromLittleEndian(queue[..HEADER]) && rest == queue[HEADER..]
    case RFinish(got, rest) => queue == got + rest
    case _ => true
  }

  ghost predicate WriterFresh(w: Writer, queue: seq<Byte>) {
    WriterStores(w) ==> w.seen == queue
  }

  ghost predicate Fresh(s: Link) {
    ReaderFresh(s.reader, s.d.queue) && WriterFresh(s.writer, s.d.queue)
  }

  /** Whoever changes the buffer has the lock, so nobody else is between a copy and its store. */
  lemma FreshStep(s: Link, m: Move)
    requires Locked(s) && Fresh(s)
    ensures Fresh(Next(s, m))
  {
    hide ReaderNext, WriterNext, ShutterNext, ReaderFresh, WriterFresh;
    match m
    case ReaderStep => FreshByReader(s);
    case WriterStep => FreshByWriter(s);
    case ShutterStep(id) =>
      ShutterFrame(s, id);
      StillFresh(s, Next(s, m));
    case _ => StillFresh(s, Next(s, m));
  }

  lemma StillFresh(s: Link, r: Link)
    requires Fresh(s) && r.d == s.d
    requires r.reader == s.reader || !ReaderStores(r.reader)
    requires r.writer == s.writer || !WriterStores(r.writer)
    ensures Fresh(r)
  {
  }

  lemma FreshByReader(s: Link)
    requires Locked(s) && Fresh(s)
    ensures Fresh(ReaderNext(s))
  {
    hide ShutterHolds, FromLittleEndian, FirstOf, RestOf, Left;
    ReaderFrame(s);
    match s.reader
    case RTake(cnt) => TwoParts(s.d.queue, cnt);
    case RPayload(hdr) => TwoParts(s.d.queue, hdr);
    case RStore(_, _) =>
    case RHeader(_, _) =>
    case RFinish(_, _) =>
    case _ => StillFresh(s, ReaderNext(s));
  }

  lemma TwoParts(queue: seq<Byte>, n: nat)
    ensures queue == FirstOf(queue, n) + RestOf(queue, n)
  {
  }

  lemma FreshByWriter(s: Link)
    requires Locked(s) && Fresh(s)
    ensures Fresh(WriterNext(s))
  {
    hide ShutterHolds, FromLittleEndian, Header, HasRoom;
    WriterFrame(s);
  }

  /** Stream mode: what came out, followed by what is there, is what went in. */
  ghost predicate StreamKept(d: Data) {
    Flat(d.accepted) == Flat(d.returned) + d.queue
  }

  /** Packet mode: packets come out whole and in order, and `pending` are the others. */
  ghost predicate InOrder(d: Data, pending: seq<seq<Byte>>) {
    d.accepted == d.returned + pending && forall i :: 0 <= i < |pending| ==> |pending[i]| <= BUFSZ
  }

  /** Between the header of a packet and its payload. */
  ghost predicate InPacketOut(r: Reader) { r.RPayload? || r.RFinish? }
  ghost predicate InPacketIn(w: Writer) { w.WPayload? || w.WFinish? }

  /** The buffer holds the pending packets, but for one of which the reader has taken
      the header, or one of which the writer has only put the header. */
  ghost predicate Framed(s: Link, pending: seq<seq<Byte>>) {
    if InPacketOut(s.reader) then
      && pending != [] && s.d.queue == pending[0] + Frames(pending[1..])
      && (if s.reader.RPayload? then s.reader.hdr == |pending[0]| else s.reader.got == pending[0])
    else if InPacketIn(s.writer) then s.d.queue == Frames(pending) + Header(|s.writer.data|)
    else s.d.queue == Frames(pending)
  }

  ghost predicate PacketsKept(s: Link) {
    exists pending :: InOrder(s.d, pending) && Framed(s, pending)
  }

  ghost predicate Kept(s: Link) {
    if s.packet then PacketsKept(s) else StreamKept(s.d)
  }

  /** The buffer never overflows: what a writer was let in with still fits. Streams and
      packets have their own stages. */
  ghost predicate Fits(s: Link) {
    && |s.d.queue| <= BUFSZ
    && (s.writer.WPut? || s.writer.WHeader? ==> HasRoom(s, |s.writer.data|))
    && (s.writer.WStore? || InPacketIn(s.writer) ==> |s.d.queue| + |s.writer.data| <= BUFSZ)
    && (s.reader.RTake? || s.reader.RStore? || s.reader.RHeader? ==> s.d.queue != [])
    && (s.reader.RStore? || s.writer.WStore? ==> !s.packet)
    && (s.reader.RHeader? || InPacketOut(s.reader) || s.writer.WHeader? || InPacketIn(s.writer) ==> s.packet)
  }

  lemma ReaderFits(s: Link)
    requires Locked(s) && Fresh(s) && Fits(s)
    ensures Fits(ReaderNext(s))
  {
    hide ShutterHolds, FromLittleEndian;
    ReaderFrame(s);
  }

  lemma WriterFits(s: Link)
    requires Locked(s) && Fresh(s) && Fits(s)
    ensures Fits(WriterNext(s))
  {
    hide ShutterHolds;
    WriterFrame(s);
  }

  lemma StreamLeft(d: Data, got: seq<Byte>, rest: seq<Byte>)
    requires StreamKept(d) && d.queue == got + rest
    ensures StreamKept(Left(d, got, rest))
  {
  }

  lemma StreamGrown(d: Data, data: seq<Byte>)
    requires StreamKept(d)
    ensures StreamKept(Grown(d, d.queue, data))
  {
  }

  lemma FirstFrame(pending: seq<seq<Byte>>)
    requires Frames(pending) != []
    ensures pending != [] && Frames(pending) == Header(|pending[0]|) + (pending[0] + Frames(pending[1..]))
  {
  }

  /** What a reader at the start of a packet sees. */
  lemma PacketAhead(s: Link, pending: seq<seq<Byte>>)
    requires s.packet && InOrder(s.d, pending) && Framed(s, pending) && Locked(s) && s.d.queue != []
    requires s.reader.RTake? || s.reader.RHeader?
    ensures |s.d.queue| >= HEADER && pending != [] && HeaderOf(s.d) == |pending[0]|
    ensures s.d.queue[HEADER..] == pending[0] + Frames(pending[1..])
  {
    hide Frames, FromLittleEndian, ShutterHolds;
    FirstFrame(pending);
    HeaderReads(|pending[0]|);
    assert s.d.queue[..HEADER] == Header(|pending[0]|);
  }

  /** The reader's steps through a packet. */
  lemma PacketTaken(s: Link, pending: seq<seq<Byte>>)
    requires s.packet && InOrder(s.d, pending) && Framed(s, pending) && Locked(s) && Fresh(s) && Fits(s)
    requires s.reader.RHeader? || InPacketOut(s.reader)
    ensures PacketsKept(ReaderNext(s))
  {
    hide Frames, FromLittleEndian, ShutterHolds;
    if s.reader.RHeader? {
      PacketAhead(s, pending);
      assert InOrder(ReaderNext(s).d, pending);
    } else if s.reader.RPayload? {
      assert FirstOf(s.d.queue, s.reader.hdr) == pending[0];
      assert InOrder(ReaderNext(s).d, pending);
    } else {
      assert s.reader.rest == s.d.queue[|s.reader.got|..] == Frames(pending[1..]);
      assert InOrder(ReaderNext(s).d, pending[1..]);
    }
  }

  lemma PacketAdded(s: Link, pending: seq<seq<Byte>>)
    requires s.packet && InOrder(s.d, pending) && Framed(s, pending) && Locked(s) && Fresh(s) && Fits(s)
    requires s.writer.WHeader? || InPacketIn(s.writer)
    ensures PacketsKept(WriterNext(s))
  {
    hide Frames, FromLittleEndian, ShutterHolds;
    if s.writer.WHeader? || s.writer.WPayload? {
      assert InOrder(WriterNext(s).d, pending);
    } else {
      FramesAppend(pending, s.writer.data);
      assert WriterNext(s).d.accepted == s.d.returned + (pending + [s.writer.data]);
      assert InOrder(WriterNext(s).d, pending + [s.writer.data]);
    }
  }

  /** Steps that touch no bytes and start or end no packet change nothing here. */
  lemma KeptSame(s: Link, r: Link)
    requires Kept(s) && r.packet == s.packet && r.d == s.d
    requires InPacketOut(r.reader) <==> InPacketOut(s.reader)
    requires InPacketOut(s.reader) ==> r.reader == s.reader
    requires InPacketIn(r.writer) <==> InPacketIn(s.writer)
    requires InPacketIn(s.writer) ==> r.writer == s.writer
    ensures Kept(r)
  {
  }

  lemma ReaderKept(s: Link)
    requires Locked(s) && Fresh(s) && Fits(s) && Kept(s)
    ensures Kept(ReaderNext(s))
  {
    hide ShutterHolds, StreamKept, PacketsKept, HeaderOf, Left, FirstOf, RestOf;
    ReaderFrame(s);
    if s.reader.RHeader? || InPacketOut(s.reader) {
      PacketStep(s, true);
    } else if s.reader.RStore? {
      StreamLeft(s.d, s.reader.got, s.reader.rest);
    } else {
      KeptSame(s, ReaderNext(s));
    }
  }

  lemma WriterKept(s: Link)
    requires Locked(s) && Fresh(s) && Fits(s) && Kept(s)
    ensures Kept(WriterNext(s))
  {
    hide ShutterHolds, StreamKept, PacketsKept, Grown, Header;
    WriterFrame(s);
    if s.writer.WHeader? || InPacketIn(s.writer) {
      PacketStep(s, false);
    } else if s.writer.WStore? {
      StreamGrown(s.d, s.writer.data);
    } else {
      KeptSame(s, WriterNext(s));
    }
  }

  lemma PacketStep(s: Link, byReader: bool)
    requires s.packet && Locked(s) && Fresh(s) && Fits(s) && PacketsKept(s)
    requires if byReader then s.reader.RHeader? || InPacketOut(s.reader) else s.writer.WHeader? || InPacketIn(s.writer)
    ensures PacketsKept(if byReader then ReaderNext(s) else WriterNext(s))
  {
    hide Locked, Fresh, Fits, InOrder, Framed, ReaderNext, WriterNext;
    var pending :| InOrder(s.d, pending) && Framed(s, pending);
    if byReader { PacketTaken(s, pending); } else { PacketAdded(s, pending); }
  }

  /** The bytes are safe in every state that a run can reach. */
  ghost predicate Safe(s: Link) {
    Locked(s) && Fresh(s) && Fits(s) && Kept(s)
  }

  lemma SafeStep(s: Link, m: Move)
    requires Safe(s)
    ensures Safe(Next(s, m))
  {
    hide ReaderNext, WriterNext, ShutterNext, Locked, Fresh, Kept;
    LockedStep(s, m);
    FreshStep(s, m);
    match m
    case ReaderStep => ReaderFits(s); ReaderKept(s);
    case WriterStep => WriterFits(s); WriterKept(s);
    case ShutterStep(id) => ShutterFrame(s, id); KeptSame(s, Next(s, m));
    case Read(_, _) => KeptSame(s, Next(s, m));
    case Write(_, _) => KeptSame(s, Next(s, m));
    case ReaderFault => KeptSame(s, Next(s, m));
    case WriterFault => KeptSame(s, Next(s, m));
  }

  lemma ShutterFrame(s: Link, id: nat)
    ensures var r := ShutterNext(s, id);
      && r.packet == s.packet && r.d == s.d
      && r.f.readerWaiting == s.f.readerWaiting && r.f.writerWaiting == s.f.writerWaiting
      && (r.reader == s.reader || r.reader == WokenReader(s.reader))
      && (r.writer == s.writer || r.writer == WokenWriter(s.writer))
  {
  }

  // --- The wake-ups ---

  /** A stream request for no bytes at all does not wait for anything, but it does
      clear the other side's waiting flag; the wake-up claims leave it out. */
  ghost predicate Asks(packet: bool, m: Move) {
    packet || ((m.Read? ==> m.cnt > 0) && (m.Write? ==> m.data != []))
  }

  ghost predicate ReaderAsks(s: Link) {
    s.packet || match s.reader
                case RLock(cnt, _) => cnt > 0
                case RCheck(cnt, _) => cnt > 0
                case RRelease(cnt, _, _) => cnt > 0
                case RWait(cnt) => cnt > 0
                case RAsleep(cnt) => cnt > 0
                case RTake(cnt) => cnt > 0
                case RStore(got, _) => got != []
                case _ => true
  }

  ghost predicate WriterAsks(s: Link) {
    s.packet || match s.writer
                case WLock(data, _) => data != []
                case WCheck(data, _) => data != []
                case WRelease(data, _, _) => data != []
                case WWait(data, _) => data != []
                case WAsleep(data, _) => data != []
                case WPut(data) => data != []
                case WStore(data, _) => data != []
                case _ => true
  }

  /** The reader has found no bytes and is going to sleep, or sleeps. */
  ghost predicate ReaderGoing(r: Reader) {
    (r.RRelease? && !r.nb && r.opn) || r.RWait? || r.RAsleep?
  }

  ghost predicate WriterGoing(w: Writer) {
    (w.WRelease? && !w.nb) || w.WWait? || w.WAsleep?
  }

  /** The writer has put bytes and not yet looked for a waiting reader. */
  ghost predicate WriterPut(w: Writer) { InPacketIn(w) || w.WNotify? }

  ghost predicate ReaderTook(r: Reader) { InPacketOut(r) || r.RNotify? }

  ghost predicate ShutterWakes(s: Link) {
    exists id :: id in s.shutters && (s.shutters[id] == SUnlock || s.shutters[id] == SWake)
  }

  /** The writer is about to wake the reader. */
  ghost predicate WriterWakes(s: Link) {
    (WriterPut(s.writer) && s.f.readerWaiting) || s.writer == WWake
  }

  ghost predicate ReaderWakes(s: Link) {
    (ReaderTook(s.reader) && s.f.writerWaiting) || s.reader == RWake
  }

  /** A reader that goes to sleep over an empty buffer can be seen to wait; one that
      sleeps over bytes or a shut link is about to be woken. */
  ghost predicate ReaderSafe(s: Link) {
    && ReaderAsks(s)
    && (WriterPut(s.writer) ==> s.d.queue != [])
    && (ReaderGoing(s.reader) && s.d.queue == [] ==> s.f.readerWaiting)
    && (s.reader.RAsleep? && s.d.queue != [] ==> WriterWakes(s))
    && (s.reader.RAsleep? && !s.f.open ==> ShutterWakes(s))
  }

  /** The same for the writer, which waits for the `b` bytes it saw to become fewer. */
  ghost predicate WriterSafe(s: Link) {
    && WriterAsks(s)
    && (WriterGoing(s.writer) ==> WriterSaw(s))
    && (s.writer.WAsleep? && |s.d.queue| != s.writer.b ==> ReaderWakes(s))
    && (s.writer.WAsleep? && !s.f.open ==> ShutterWakes(s))
  }

  ghost predicate WriterSaw(s: Link)
    requires WriterGoing(s.writer)
  {
    && |s.d.queue| <= s.writer.b <= BUFSZ && !Room(s.packet, s.writer.b, |s.writer.data|)
    && (|s.d.queue| == s.writer.b ==> s.f.writerWaiting && !ReaderTook(s.reader))
  }

  lemma ReaderSafeByReader(s: Link)
    requires Locked(s) && Fresh(s) && Fits(s) && ReaderSafe(s)
    ensures ReaderSafe(ReaderNext(s))
  {
  }

  lemma ReaderSafeByWriter(s: Link)
    requires Locked(s) && Fresh(s) && Fits(s) && ReaderSafe(s) && WriterAsks(s)
    ensures ReaderSafe(WriterNext(s))
  {
    hide ShutterHolds, ShutterWakes, ReaderFresh, FromLittleEndian;
    WriterFrame(s);
    SameShutters(s, WriterNext(s));
    match s.writer
    case WPut(_) =>
    case WStore(_, _) =>
    case WHeader(_, _) =>
    case WFinish(_, _) =>
    case WNotify =>
    case WWake =>
    case _ =>
  }

  lemma SameShutters(s: Link, r: Link)
    requires r.shutters == s.shutters
    ensures ShutterWakes(s) <==> ShutterWakes(r)
  {
  }

  lemma WriterSafeByReader(s: Link)
    requires Locked(s) && Fresh(s) && Fits(s) && WriterSafe(s) && ReaderAsks(s)
    ensures WriterSafe(ReaderNext(s))
  {
    hide ShutterHolds, ShutterWakes, HeaderOf, Room, FromLittleEndian, HasRoom;
    ReaderFrame(s);
    SameShutters(s, ReaderNext(s));
    match s.reader
    case RTake(_) =>
    case RStore(_, _) =>
    case RHeader(_, _) =>
    case RFinish(_, _) =>
    case RNotify =>
    case RWake =>
    case _ =>
  }

  lemma WriterSafeByWriter(s: Link)
    requires Locked(s) && Fresh(s) && Fits(s) && WriterSafe(s)
    ensures WriterSafe(WriterNext(s))
  {
  }

  lemma SafeByShutter(s: Link, id: nat)
    requires ReaderSafe(s) && WriterSafe(s)
    ensures ReaderSafe(ShutterNext(s, id)) && WriterSafe(ShutterNext(s, id))
  {
    hide ShutterWakes, Room;
    ShutterFrame(s, id);
    ShutterStillWakes(s, id);
  }

  /** A shutter with a wake-up to issue keeps it until nobody sleeps. */
  lemma ShutterStillWakes(s: Link, id: nat)
    ensures var r := ShutterNext(s, id);
      && (s.f.open && !r.f.open ==> ShutterWakes(r))
      && (r.f.open ==> s.f.open)
      && (ShutterWakes(s) ==> ShutterWakes(r) || (!r.reader.RAsleep? && !r.writer.WAsleep?))
  {
    var r := ShutterNext(s, id);
    if s.f.open && !r.f.open { assert r.shutters[id] == SUnlock; }
    if ShutterWakes(s) {
      var k :| k in s.shutters && (s.shutters[k] == SUnlock || s.shutters[k] == SWake);
      if k != id {
        assert k in r.shutters && r.shutters[k] == s.shutters[k];
      } else if s.shutters[k] == SUnlock {
        assert k in r.shutters && r.shutters[k] == SWake;
      }
    }
  }

  ghost predicate Awake(s: Link) {
    ReaderSafe(s) && WriterSafe(s)
  }

  lemma AwakeStep(s: Link, m: Move)
    requires Locked(s) && Fresh(s) && Fits(s) && Awake(s) && Asks(s.packet, m)
    ensures Awake(Next(s, m))
  {
    hide ReaderNext, WriterNext, ShutterNext, Locked, Fresh, Fits, ShutterWakes, Room;
    SameShutters(s, Next(s, m).(shutters := s.shutters));
    match m
    case ReaderStep => ReaderSafeByReader(s); WriterSafeByReader(s);
    case WriterStep => ReaderSafeByWriter(s); WriterSafeByWriter(s);
    case ShutterStep(id) => SafeByShutter(s, id);
    case _ =>
  }

  // --- What the calls return ---

  /** What a finished read may have come to, in bytes. Nothing came of it only if the buffer was
      empty: the link was shut, or the call was not to wait. A stream gives as many bytes as
      were asked for, or all there are; a packet fits, or the call fails. */
  ghost predicate ReadJust(packet: bool, open: bool, c: Call) {
    match c.out
    case Moved(bytes) => if packet then |bytes| <= c.cnt else |bytes| == (if c.cnt <= c.there then c.cnt else c.there) && c.there > 0
    case Eof => c.there == 0 && !open
    case Again => c.there == 0 && c.nb
    case TooLong => packet && c.there > 0
    case Failed => !c.nb
  }

  /** What a finished write may have come to: a packet goes in whole, in 9000 bytes with its
      header; a stream brings as many bytes as fit, once 128 do; nothing goes in only without
      room, or into a shut link. */
  ghost predicate WriteJust(packet: bool, open: bool, c: Call) {
    match c.out
    case Moved(bytes) =>
      if packet then |bytes| == c.cnt && c.there + |bytes| <= 9000
      else |bytes| == (if c.cnt + c.there <= 9000 then c.cnt else 9000 - c.there) && c.there + 128 <= 9000
    case Eof => !open
    case Again => c.nb && (if packet then c.there + 8 + c.cnt > 9000 else c.there + 128 > 9000)
    case TooLong => packet && c.cnt > 9000
    case Failed => !c.nb
  }

  ghost predicate AllJust(s: Link) {
    && (forall i :: 0 <= i < |s.h.readCalls| ==> ReadJust(s.packet, s.f.open, s.h.readCalls[i]))
    && (forall i :: 0 <= i < |s.h.writeCalls| ==> WriteJust(s.packet, s.f.open, s.h.writeCalls[i]))
  }

  /** The bytes that the calls in a list moved. */
  ghost function AllMoved(calls: seq<Call>): seq<seq<Byte>> {
    if calls == [] then []
    else
      var c := calls[|calls| - 1];
      AllMoved(calls[..|calls| - 1]) + if c.out.Moved? then [c.out.bytes] else []
  }

  /** What a read is going to come to. */
  ghost predicate ReaderTells(s: Link) {
    match s.reader
    case RIdle => true
    case RLock(cnt, nb) => cnt == s.h.rcnt && nb == s.h.rnb
    case RCheck(cnt, nb) => cnt == s.h.rcnt && nb == s.h.rnb
    case RRelease(cnt, nb, opn) => cnt == s.h.rcnt && nb == s.h.rnb && s.d.queue == [] && (!opn ==> !s.f.open)
    case RWait(cnt) => cnt == s.h.rcnt && !s.h.rnb
    case RAsleep(cnt) => cnt == s.h.rcnt && !s.h.rnb
    case RTake(cnt) => cnt == s.h.rcnt
    case RStore(got, _) => got == FirstOf(s.d.queue, s.h.rcnt)
    case RHeader(hdr, _) => hdr <= s.h.rcnt
    case RPayload(hdr) => hdr <= s.h.rcnt
    case RFinish(got, _) => |got| <= s.h.rcnt
    case _ => true
  }

  ghost predicate WriterTells(s: Link) {
    match s.writer
    case WIdle => true
    case WLock(data, nb) => data == s.h.wdata && nb == s.h.wnb
    case WCheck(data, nb) => data == s.h.wdata && nb == s.h.wnb
    case WRelease(data, nb, b) => data == s.h.wdata && nb == s.h.wnb && |s.d.queue| == b <= BUFSZ && !HasRoom(s, |data|)
    case WWait(data, _) => data == s.h.wdata && !s.h.wnb
    case WAsleep(data, _) => data == s.h.wdata && !s.h.wnb
    case WQuit => !s.f.open
    case WPut(data) => data == s.h.wdata
    case WStore(data, _) => HasRoom(s, 0) && |data| == Min(|s.h.wdata|, BUFSZ - Min(BUFSZ, |s.d.queue|))
    case WHeader(data, _) => data == s.h.wdata
    case WPayload(data) => data == s.h.wdata
    case WFinish(data, _) => data == s.h.wdata
    case _ => true
  }

  ghost predicate Tallied(s: Link) {
    AllMoved(s.h.readCalls) == s.d.returned && AllMoved(s.h.writeCalls) == s.d.accepted
  }

  ghost predicate Told(s: Link) {
    ReaderTells(s) && WriterTells(s) && AllJust(s) && Tallied(s)
  }

  /** The read under way has come to an outcome that is right, and nothing else was reported. */
  ghost predicate ReadEnds(s: Link, r: Link, out: Outcome) {
    && r.h == Settled(s, out) && ReadJust(s.packet, s.f.open, Call(s.h.rcnt, s.h.rnb, out, |s.d.queue|))
    && r.d.accepted == s.d.accepted && r.d.returned == s.d.returned + if out.Moved? then [out.bytes] else []
  }

  ghost predicate WriteEnds(s: Link, r: Link, out: Outcome) {
    && r.h == WriteSettled(s, out) && WriteJust(s.packet, s.f.open, Call(|s.h.wdata|, s.h.wnb, out, |s.d.queue|))
    && r.d.returned == s.d.returned && r.d.accepted == s.d.accepted + if out.Moved? then [out.bytes] else []
  }

  lemma MovedMore(calls: seq<Call>, c: Call)
    ensures AllMoved(calls + [c]) == AllMoved(calls) + if c.out.Moved? then [c.out.bytes] else []
  {
    assert (calls + [c])[..|calls|] == calls;
  }

  /** What the reader's step does to what the calls have come to. */
  lemma ReaderReports(s: Link)
    requires Locked(s) && Fresh(s) && Fits(s) && ReaderTells(s)
    ensures var r := ReaderNext(s);
      || (r.h == s.h && r.d.returned == s.d.returned && r.d.accepted == s.d.accepted)
      || exists out :: ReadEnds(s, r, out)
  {
    hide ShutterHolds, FromLittleEndian, HasRoom, WriterFresh, Settled;
    var r := ReaderNext(s);
    match s.reader
    case RRelease(_, nb, opn) =>
      if !opn { assert ReadEnds(s, r, Eof); } else if nb { assert ReadEnds(s, r, Again); }
    case RTake(cnt) => if r.h != s.h { assert ReadEnds(s, r, TooLong); }
    case RStore(got, _) => assert ReadEnds(s, r, Moved(got));
    case RFinish(got, _) => assert ReadEnds(s, r, Moved(got));
    case _ =>
  }

  lemma WriterReports(s: Link)
    requires Locked(s) && Fresh(s) && Fits(s) && WriterTells(s)
    ensures var r := WriterNext(s);
      || (r.h == s.h && r.d.returned == s.d.returned && r.d.accepted == s.d.accepted)
      || exists out :: WriteEnds(s, r, out)
  {
    hide ShutterHolds, FromLittleEndian, ReaderFresh, WriteSettled, Header;
    var r := WriterNext(s);
    match s.writer
    case WRelease(_, nb, _) => if nb { assert WriteEnds(s, r, Again); }
    case WQuit => assert WriteEnds(s, r, Eof);
    case WStore(data, _) => assert WriteEnds(s, r, Moved(data));
    case WFinish(data, _) => assert WriteEnds(s, r, Moved(data));
    case _ =>
  }

  lemma ReadReported(s: Link, r: Link, out: Outcome)
    requires AllJust(s) && Tallied(s) && r.packet == s.packet && r.f.open == s.f.open
    requires ReadEnds(s, r, out)
    ensures AllJust(r) && Tallied(r)
  {
    hide AllMoved, ReadJust, WriteJust;
    StillJust(s, r.f.open);
    MovedMore(s.h.readCalls, Call(s.h.rcnt, s.h.rnb, out, |s.d.queue|));
  }

  lemma WriteReported(s: Link, r: Link, out: Outcome)
    requires AllJust(s) && Tallied(s) && r.packet == s.packet && r.f.open == s.f.open
    requires WriteEnds(s, r, out)
    ensures AllJust(r) && Tallied(r)
  {
    hide AllMoved, ReadJust, WriteJust;
    StillJust(s, r.f.open);
    MovedMore(s.h.writeCalls, Call(|s.h.wdata|, s.h.wnb, out, |s.d.queue|));
  }

  lemma NothingReported(s: Link, r: Link)
    requires AllJust(s) && Tallied(s) && r.packet == s.packet && (r.f.open ==> s.f.open)
    requires r.h.readCalls == s.h.readCalls && r.h.writeCalls == s.h.writeCalls
    requires r.d.returned == s.d.returned && r.d.accepted == s.d.accepted
    ensures AllJust(r) && Tallied(r)
  {
    hide AllMoved, ReadJust, WriteJust;
    StillJust(s, r.f.open);
  }

  lemma StillJust(s: Link, open: bool)
    requires AllJust(s) && (open ==> s.f.open)
    ensures forall i :: 0 <= i < |s.h.readCalls| ==> ReadJust(s.packet, open, s.h.readCalls[i])
    ensures forall i :: 0 <= i < |s.h.writeCalls| ==> WriteJust(s.packet, open, s.h.writeCalls[i])
  {
    hide ReadJust, WriteJust;
    forall i | 0 <= i < |s.h.readCalls|
      ensures ReadJust(s.packet, open, s.h.readCalls[i])
    {
      StillRead(s.packet, s.f.open, open, s.h.readCalls[i]);
    }
    forall i | 0 <= i < |s.h.writeCalls|
      ensures WriteJust(s.packet, open, s.h.writeCalls[i])
    {
      StillRead(s.packet, s.f.open, open, s.h.writeCalls[i]);
    }
  }

  lemma StillRead(packet: bool, open: bool, open': bool, c: Call)
    requires open' ==> open
    ensures ReadJust(packet, open, c) ==> ReadJust(packet, open', c)
    ensures WriteJust(packet, open, c) ==> WriteJust(packet, open', c)
  {
  }

  /** What the others do changes nothing for the reader that it has to know, and the other way. */
  lemma ReaderStillTells(s: Link, r: Link)
    requires ReaderTells(s) && r.packet == s.packet && r.h.rcnt == s.h.rcnt && r.h.rnb == s.h.rnb && (r.f.open ==> s.f.open)
    requires r.reader == s.reader || r.reader == WokenReader(s.reader)
    requires ReaderHolds(s.reader) ==> r.d == s.d
    ensures ReaderTells(r)
  {
  }

  lemma WriterStillTells(s: Link, r: Link)
    requires WriterTells(s) && r.packet == s.packet && r.h.wdata == s.h.wdata && r.h.wnb == s.h.wnb && (r.f.open ==> s.f.open)
    requires r.writer == s.writer || r.writer == WokenWriter(s.writer)
    requires WriterHolds(s.writer) ==> r.d == s.d
    ensures WriterTells(r)
  {
    if WriterHolds(s.writer) { SameRoom(s, r); }
    hide HasRoom;
  }

  lemma ReaderTellsStep(s: Link)
    requires Locked(s) && Fresh(s) && Fits(s) && ReaderTells(s)
    ensures ReaderTells(ReaderNext(s))
  {
    hide ShutterHolds, FromLittleEndian, HasRoom, WriterFresh;
    match s.reader
    case RCheck(_, _) =>
    case RTake(_) =>
    case RHeader(_, _) =>
    case RPayload(_) =>
    case RStore(_, _) =>
    case RFinish(_, _) =>
    case _ =>
  }

  lemma WriterTellsStep(s: Link)
    requires Locked(s) && Fresh(s) && Fits(s) && WriterTells(s)
    ensures WriterTells(WriterNext(s))
  {
    hide ShutterHolds, FromLittleEndian, Header, ReaderFresh;
    match s.writer
    case WCheck(_, _) =>
    case WPut(_) =>
    case WStore(_, _) =>
    case WHeader(_, _) =>
    case WPayload(_) =>
    case WFinish(_, _) =>
    case _ =>
  }

  lemma ReaderAsksNothing(s: Link)
    ensures ReaderNext(s).h.wdata == s.h.wdata && ReaderNext(s).h.wnb == s.h.wnb
  {
    hide HeaderOf, FirstOf, RestOf, Left;
  }

  lemma WriterAsksNothing(s: Link)
    ensures WriterNext(s).h.rcnt == s.h.rcnt && WriterNext(s).h.rnb == s.h.rnb
  {
    hide HasRoom, Header, Grown;
  }

  lemma ToldByReader(s: Link)
    requires Locked(s) && Fresh(s) && Fits(s) && Told(s)
    ensures Told(ReaderNext(s))
  {
    ReaderTellsStep(s);
    ReaderReports(s);
    ReaderFrame(s);
    ReaderAsksNothing(s);
    var r := ReaderNext(s);
    hide Fresh, Fits, ReaderTells, WriterTells, AllJust, Tallied, ReaderNext, ReadEnds, ShutterHolds;
    WriterStillTells(s, r);
    if out :| ReadEnds(s, r, out) { ReadReported(s, r, out); } else { NothingReported(s, r); }
  }

  lemma ToldByWriter(s: Link)
    requires Locked(s) && Fresh(s) && Fits(s) && Told(s)
    ensures Told(WriterNext(s))
  {
    WriterTellsStep(s);
    WriterReports(s);
    WriterFrame(s);
    WriterAsksNothing(s);
    var r := WriterNext(s);
    hide Fresh, Fits, ReaderTells, WriterTells, AllJust, Tallied, WriterNext, WriteEnds, ShutterHolds;
    ReaderStillTells(s, r);
    if out :| WriteEnds(s, r, out) { WriteReported(s, r, out); } else { NothingReported(s, r); }
  }

  lemma ToldByShutter(s: Link, id: nat)
    requires Told(s)
    ensures Told(ShutterNext(s, id))
  {
    var r := ShutterNext(s, id);
    ShutterFrame(s, id);
    ShutterStillWakes(s, id);
    assert r.h == s.h;
    hide ReaderTells, WriterTells, AllJust, Tallied, ShutterNext;
    NothingReported(s, r);
    ReaderStillTells(s, r);
    WriterStillTells(s, r);
  }

  lemma SameRoom(s: Link, r: Link)
    requires r.packet == s.packet && r.d == s.d
    ensures forall n :: HasRoom(r, n) == HasRoom(s, n)
  {
  }

  /** Calls begin, or their wait fails. */
  lemma ToldByRead(s: Link, m: Move)
    requires Told(s) && (m.Read? || m.ReaderFault?)
    ensures Told(Next(s, m))
  {
    var r := Next(s, m);
    assert r.reader == s.reader ==> r.h == s.h;
    if r.h.readCalls != s.h.readCalls { assert ReadEnds(s, r, Failed); }
    assert r.reader != s.reader ==> ReaderTells(r);
    hide WriterTells, AllJust, Tallied, Next, ReadEnds;
    WriterStillTells(s, r);
    if r.h.readCalls != s.h.readCalls { ReadReported(s, r, Failed); } else { NothingReported(s, r); }
  }

  lemma ToldByWrite(s: Link, m: Move)
    requires Told(s) && (m.Write? || m.WriterFault?)
    ensures Told(Next(s, m))
  {
    var r := Next(s, m);
    var s' := if m.Write? && s.writer == WIdle then s.(h := s.h.(wdata := m.data, wnb := m.nb)) else s;
    assert WriterTells(s') && ReaderTells(s');
    if r.h.writeCalls != s.h.writeCalls { assert WriteEnds(s', r, if m.Write? then TooLong else Failed); }
    assert r.writer != s.writer ==> WriterTells(r);
    hide ReaderTells, AllJust, Tallied, Next, WriteEnds;
    NothingReported(s, s');
    ReaderStillTells(s', r);
    if r.h.writeCalls != s.h.writeCalls {
      WriteReported(s', r, if m.Write? then TooLong else Failed);
    } else {
      NothingReported(s', r);
    }
  }

  lemma ToldStep(s: Link, m: Move)
    requires Locked(s) && Fresh(s) && Fits(s) && Told(s)
    ensures Told(Next(s, m))
  {
    hide Locked, Fresh, Fits, Told, ReaderNext, WriterNext, ShutterNext;
    match m
    case ReaderStep => ToldByReader(s);
    case WriterStep => ToldByWriter(s);
    case ShutterStep(id) => ToldByShutter(s, id);
    case Read(_, _) => ToldByRead(s, m);
    case ReaderFault => ToldByRead(s, m);
    case Write(_, _) => ToldByWrite(s, m);
    case WriterFault => ToldByWrite(s, m);
  }

  // --- Whole runs ---

  /** A new link: empty, open, nobody in it. */
  ghost predicate Init(s: Link) {
    && s.d == Data([], [], []) && s.f == Flags(true, false, false) && s.lock == Nobody
    && s.reader == RIdle && s.writer == WIdle && s.shutters == map[] && s.h.readCalls == [] && s.h.writeCalls == []
  }

  function Run(s: Link, moves: seq<Move>): Link {
    if moves == [] then s else Next(Run(s, moves[..|moves| - 1]), moves[|moves| - 1])
  }

  lemma InitSafe(s: Link)
    requires Init(s)
    ensures Safe(s) && Awake(s)
  {
    if s.packet { assert InOrder(s.d, []) && Framed(s, []); }
  }

  lemma {:induction false} RunSafe(s: Link, moves: seq<Move>)
    requires Init(s)
    ensures Safe(Run(s, moves)) && Run(s, moves).packet == s.packet
  {
    hide Safe, Next;
    if moves == [] {
      InitSafe(s);
    } else {
      var r := Run(s, moves[..|moves| - 1]);
      RunSafe(s, moves[..|moves| - 1]);
      SafeStep(r, moves[|moves| - 1]);
      ModeKept(r, moves[|moves| - 1]);
    }
  }

  lemma ModeKept(s: Link, m: Move)
    ensures Next(s, m).packet == s.packet
  {
  }

  /** Whatever the interleaving: a stream reader has received exactly the bytes that
      were accepted and are no longer in the buffer, in order. */
  lemma StreamDelivers(s: Link, moves: seq<Move>)
    requires Init(s) && !s.packet
    ensures var d := Run(s, moves).d; Flat(d.returned) + d.queue == Flat(d.accepted) && |d.queue| <= BUFSZ
  {
    RunSafe(s, moves);
  }

  /** Whatever the interleaving: a packet reader has received whole packets, the first
      of those accepted, in order; with nobody inside, the buffer holds the others. */
  lemma PacketsDeliver(s: Link, moves: seq<Move>)
    requires Init(s) && s.packet
    ensures var r := Run(s, moves);
      && r.d.returned <= r.d.accepted && |r.d.queue| <= BUFSZ
      && (!InPacketOut(r.reader) && !InPacketIn(r.writer) ==> r.d.queue == Frames(r.d.accepted[|r.d.returned|..]))
  {
    RunSafe(s, moves);
    var r := Run(s, moves);
    var pending :| InOrder(r.d, pending) && Framed(r, pending);
    assert r.d.accepted[|r.d.returned|..] == pending;
  }

  /** Once a shutter is through with its work under the lock, the link is shut. */
  ghost predicate ShutIsShut(s: Link) {
    forall id :: id in s.shutters && s.shutters[id] != SLock && s.shutters[id] != SHold ==> !s.f.open
  }

  /** Whatever the interleaving, a link is shut only by a shutter, and by every one. */
  lemma {:induction false} ShutByShutters(s: Link, moves: seq<Move>)
    requires Init(s)
    ensures ShutIsShut(Run(s, moves)) && (!Run(s, moves).f.open ==> exists id :: id in Run(s, moves).shutters)
  {
    if moves != [] {
      hide Next;
      ShutByShutters(s, moves[..|moves| - 1]);
      ShutStep(Run(s, moves[..|moves| - 1]), moves[|moves| - 1]);
    }
  }

  lemma ShutStep(s: Link, m: Move)
    requires ShutIsShut(s) && (!s.f.open ==> exists id :: id in s.shutters)
    ensures ShutIsShut(Next(s, m)) && (!Next(s, m).f.open ==> exists id :: id in Next(s, m).shutters)
  {
    hide ReaderNext, WriterNext;
    ReaderFrame(s);
    WriterFrame(s);
    if m.ShutterStep? { assert m.id in Next(s, m).shutters; }
  }

  /** A wait goes to sleep exactly while what it waits for has not come: bytes to read, fewer bytes
      than it saw to write, or the end of the link. */
  lemma SleepsExactly(s: Link)
    ensures s.reader.RWait? ==> (ReaderNext(s).reader.RAsleep? <==> s.d.queue == [] && s.f.open)
    ensures s.writer.WWait? ==> (WriterNext(s).writer.WAsleep? <==> |s.d.queue| == s.writer.b && s.f.open)
    ensures s.reader.RWait? || s.reader.RAsleep? ==> Next(s, ReaderFault) == s.(reader := RIdle, h := Settled(s, Failed))
    ensures s.writer.WWait? || s.writer.WAsleep? ==> Next(s, WriterFault) == s.(writer := WIdle, h := WriteSettled(s, Failed))
  {
  }

  /** The steps that a reader has left, at most, before it gives up the lock or returns. */
  ghost function ReaderLeft(r: Reader): nat {
    match r
    case RCheck(_, _) => 8
    case RTake(_) => 7
    case RHeader(_, _) => 6
    case RPayload(_) => 5
    case RStore(_, _) => 4
    case RFinish(_, _) => 4
    case RNotify => 3
    case RWake => 2
    case RDone => 1
    case RRelease(_, _, _) => 1
    case _ => 0
  }

  ghost function WriterLeft(w: Writer): nat {
    match w
    case WCheck(_, _) => 8
    case WPut(_) => 7
    case WHeader(_, _) => 6
    case WPayload(_) => 5
    case WStore(_, _) => 4
    case WFinish(_, _) => 4
    case WNotify => 3
    case WWake => 2
    case WDone => 1
    case WQuit => 1
    case WRelease(_, _, _) => 1
    case _ => 0
  }

  lemma ReaderGetsOn(s: Link)
    requires Safe(s) && ReaderHolds(s.reader)
    ensures ReaderLeft(ReaderNext(s).reader) < ReaderLeft(s.reader)
  {
    hide Frames, Framed, InOrder, FromLittleEndian, ShutterHolds;
    if s.packet && s.reader.RTake? {
      var pending :| InOrder(s.d, pending) && Framed(s, pending);
      PacketAhead(s, pending);
    }
  }

  lemma WriterGetsOn(s: Link)
    requires Safe(s) && WriterHolds(s.writer)
    ensures WriterLeft(WriterNext(s).writer) < WriterLeft(s.writer)
  {
    hide Kept, ShutterHolds;
  }

  /** Whoever has the lock is never stuck: in every run, each step of a reader or a writer
      that holds it brings it nearer to giving it up or returning. */
  lemma HoldersGetOn(s: Link, moves: seq<Move>)
    requires Init(s)
    ensures var r := Run(s, moves);
      && (ReaderHolds(r.reader) ==> ReaderLeft(ReaderNext(r).reader) < ReaderLeft(r.reader) <= 8)
      && (WriterHolds(r.writer) ==> WriterLeft(WriterNext(r).writer) < WriterLeft(r.writer) <= 8)
  {
    hide Safe, ReaderNext, WriterNext;
    RunSafe(s, moves);
    var r := Run(s, moves);
    if ReaderHolds(r.reader) { ReaderGetsOn(r); }
    if WriterHolds(r.writer) { WriterGetsOn(r); }
  }

  lemma {:induction false} RunTold(s: Link, moves: seq<Move>)
    requires Init(s)
    ensures Told(Run(s, moves))
  {
    hide Told, Next, Locked, Fresh, Fits, Kept;
    if moves == [] {
      InitTold(s);
    } else {
      RunSafe(s, moves[..|moves| - 1]);
      RunTold(s, moves[..|moves| - 1]);
      ToldStep(Run(s, moves[..|moves| - 1]), moves[|moves| - 1]);
    }
  }

  lemma InitTold(s: Link)
    requires Init(s)
    ensures Told(s)
  {
  }

  /** Whatever the interleaving, every call has come to what the bytes in the buffer and the link
      demanded of it, and the bytes that reads and writes report are those that moved. */
  lemma CallsJustified(s: Link, moves: seq<Move>)
    requires Init(s)
    ensures AllJust(Run(s, moves)) && Tallied(Run(s, moves))
  {
    RunTold(s, moves);
  }

  lemma {:induction false} RunAwake(s: Link, moves: seq<Move>)
    requires Init(s) && forall i :: 0 <= i < |moves| ==> Asks(s.packet, moves[i])
    ensures Awake(Run(s, moves))
  {
    hide Awake, Next, Locked, Fresh, Fits, Kept;
    if moves == [] {
      InitSafe(s);
    } else {
      RunSafe(s, moves[..|moves| - 1]);
      RunAwake(s, moves[..|moves| - 1]);
      AwakeStep(Run(s, moves[..|moves| - 1]), moves[|moves| - 1]);
    }
  }

  /** Neither side sleeps once its condition holds, or the link is shut, unless
      somebody is about to wake it. */
  lemma NobodyOversleeps(s: Link, moves: seq<Move>)
    requires Init(s) && forall i :: 0 <= i < |moves| ==> Asks(s.packet, moves[i])
    ensures var r := Run(s, moves);
      && (r.reader.RAsleep? && r.d.queue != [] ==> WriterWakes(r))
      && (r.writer.WAsleep? && HasRoom(r, |r.writer.data|) ==> ReaderWakes(r))
      && ((r.reader.RAsleep? || r.writer.WAsleep?) && !r.f.open ==> ShutterWakes(r))
  {
    RunAwake(s, moves);
    RunSafe(s, moves);
  }

  // --- Where the source falls short ---

  /** The reader is outside and the lock is still its own. */
  ghost predicate Leaked(s: Link) {
    s.lock == TheReader && (s.reader == RIdle || s.reader.RLock?)
  }

  /** A packet read leaks the lock exactly when the packet exceeds the reader's buffer. */
  lemma LeakCondition(s: Link, pending: seq<seq<Byte>>)
    requires s.packet && Locked(s) && Fits(s) && InOrder(s.d, pending) && Framed(s, pending) && s.reader.RTake?
    ensures pending != [] && (Leaked(ReaderNext(s)) <==> s.reader.cnt < |pending[0]|)
  {
    PacketAhead(s, pending);
  }

  /** From then on no byte moves and nobody is let in, whatever anybody does. */
  lemma {:induction false} LeakIsForever(s: Link, moves: seq<Move>)
    requires Locked(s) && Leaked(s)
    ensures var r := Run(s, moves); Locked(r) && Leaked(r) && r.d == s.d && r.f.open == s.f.open
  {
    if moves != [] {
      hide Locked, Next, HasRoom;
      LeakIsForever(s, moves[..|moves| - 1]);
      LeakStep(Run(s, moves[..|moves| - 1]), moves[|moves| - 1]);
    }
  }

  lemma LeakStep(s: Link, m: Move)
    requires Locked(s) && Leaked(s)
    ensures var r := Next(s, m); Locked(r) && Leaked(r) && r.d == s.d && r.f.open == s.f.open
  {
  }

  lemma Go(s: Link, moves: seq<Move>, m: Move) returns (further: seq<Move>)
    ensures Run(s, further) == Next(Run(s, moves), m)
  {
    further := moves + [m];
    assert further[..|moves|] == moves;
  }

  /** A writer asleep with room for its bytes, and nobody on the way to wake it. */
  ghost predicate Oversleeps(s: Link) {
    && s.writer.WAsleep? && s.f.open && HasRoom(s, |s.writer.data|)
    && !ReaderWakes(s) && s.reader == RIdle && s.lock == Nobody && s.shutters == map[]
  }

  /** A stream write that fills an empty buffer. */
  lemma FillUp(s: Link, d: seq<Byte>) returns (moves: seq<Move>)
    requires Init(s) && !s.packet && |d| == BUFSZ
    ensures Run(s, moves) == s.(d := Data(d, [], [d]), h := Run(s, moves).h)
  {
    hide Run, ReaderNext;
    moves := Go(s, [], Write(d, false));
    assert Run(s, []) == s by { RunNothing(s); }
    moves := Go(s, moves, WriterStep);
    moves := Go(s, moves, WriterStep);
    assert Run(s, moves) == s.(lock := TheWriter, writer := WPut(d), h := Run(s, moves).h);
    moves := Go(s, moves, WriterStep);
    moves := Go(s, moves, WriterStep);
    assert d[..BUFSZ] == d && [] + d == d && [] + [d] == [d];
    assert Run(s, moves) == s.(d := Data(d, [], [d]), lock := TheWriter, writer := WNotify, h := Run(s, moves).h);
    moves := Go(s, moves, WriterStep);
    moves := Go(s, moves, WriterStep);
  }

  lemma RunNothing(s: Link)
    ensures Run(s, []) == s
  {
  }

  /** A stream write that finds no room. */
  lemma AboutToSleep(s: Link, moves: seq<Move>, r: Link) returns (further: seq<Move>)
    requires Run(s, moves) == r && r.f == Flags(true, false, false) && r.lock == Nobody
    requires r.writer == WIdle && !r.packet && |r.d.queue| == BUFSZ
    ensures Run(s, further) == r.(f := Flags(true, false, true), writer := WWait([0], BUFSZ), h := Run(s, further).h)
  {
    hide Run, ReaderNext;
    further := Go(s, moves, Write([0], false));
    further := Go(s, further, WriterStep);
    further := Go(s, further, WriterStep);
    further := Go(s, further, WriterStep);
  }

  /** A stream read: `cnt` bytes go, and a waiting writer's flag is cleared. */
  lemma ReadThrough(s: Link, moves: seq<Move>, r: Link, cnt: nat) returns (further: seq<Move>)
    requires Run(s, moves) == r && r.lock == Nobody && r.reader == RIdle && !r.packet && r.d.queue != []
    requires !r.writer.WAsleep? || !r.f.writerWaiting
    ensures Run(s, further) == r.(d := Taken(r.d, cnt), f := r.f.(writerWaiting := false), h := Run(s, further).h)
  {
    hide Run, WriterNext, Left, FirstOf, RestOf;
    further := Go(s, moves, Read(cnt, false));
    further := Go(s, further, ReaderStep);
    further := Go(s, further, ReaderStep);
    further := Go(s, further, ReaderStep);
    further := Go(s, further, ReaderStep);
    assert Run(s, further) == r.(d := Taken(r.d, cnt), lock := TheReader, reader := RNotify, h := Run(s, further).h);
    further := Go(s, further, ReaderStep);
    further := Go(s, further, ReaderStep);
    if r.f.writerWaiting { further := Go(s, further, ReaderStep); }
  }

  /** A read of no bytes, between a writer's look at the buffer and its sleep, takes
      the writer's flag away: the read that makes room does not wake it. */
  lemma EmptyReadOversleeps(s: Link, d: seq<Byte>) returns (moves: seq<Move>)
    requires Init(s) && !s.packet && |d| == BUFSZ
    ensures Oversleeps(Run(s, moves))
  {
    hide Run, ReaderNext;
    moves := FillUp(s, d);
    moves := AboutToSleep(s, moves, Run(s, moves));
    moves := ReadThrough(s, moves, Run(s, moves), 0);
    assert Run(s, moves).d.queue == d;
    moves := Go(s, moves, WriterStep);
    assert Run(s, moves).writer == WAsleep([0], BUFSZ);
    moves := ReadThrough(s, moves, Run(s, moves), BUFSZ);
    assert Run(s, moves).d.queue == [];
  }

  /** A reader asleep over bytes, and nobody on the way to wake it. */
  ghost predicate ReaderOversleeps(s: Link) {
    && s.reader.RAsleep? && s.f.open && s.d.queue != []
    && !WriterWakes(s) && s.writer == WIdle && s.lock == Nobody && s.shutters == map[]
  }

  /** A stream read that finds no bytes. */
  lemma AboutToNap(s: Link) returns (moves: seq<Move>)
    requires Init(s) && !s.packet
    ensures Run(s, moves) == s.(f := Flags(true, true, false), reader := RWait(1), h := Run(s, moves).h)
  {
    hide Run, WriterNext;
    RunNothing(s);
    moves := Go(s, [], Read(1, false));
    moves := Go(s, moves, ReaderStep);
    moves := Go(s, moves, ReaderStep);
    moves := Go(s, moves, ReaderStep);
  }

  /** A stream write of at most one byte: it goes in, and a waiting reader's flag is cleared. */
  lemma WriteThrough(s: Link, moves: seq<Move>, r: Link, data: seq<Byte>) returns (further: seq<Move>)
    requires Run(s, moves) == r && r.lock == Nobody && r.writer == WIdle && !r.packet && r.f.open && r.d.queue == []
    requires |data| <= 1 && (!r.reader.RAsleep? || !r.f.readerWaiting)
    ensures Run(s, further) == r.(d := Added(r.d, data), f := r.f.(readerWaiting := false), h := Run(s, further).h)
  {
    hide Run, ReaderNext, Grown;
    further := Go(s, moves, Write(data, false));
    further := Go(s, further, WriterStep);
    further := Go(s, further, WriterStep);
    assert Run(s, further) == r.(lock := TheWriter, writer := WPut(data), h := Run(s, further).h);
    further := Go(s, further, WriterStep);
    further := Go(s, further, WriterStep);
    assert data[..|data|] == data;
    assert Run(s, further) == r.(d := Added(r.d, data), lock := TheWriter, writer := WNotify, h := Run(s, further).h);
    further := Go(s, further, WriterStep);
    further := Go(s, further, WriterStep);
    if r.f.readerWaiting { further := Go(s, further, WriterStep); }
  }

  /** A write of no bytes, between a reader's look at the buffer and its sleep, takes the
      reader's flag away: the write that brings a byte does not wake it. */
  lemma EmptyWriteOversleeps(s: Link) returns (moves: seq<Move>)
    requires Init(s) && !s.packet
    ensures ReaderOversleeps(Run(s, moves))
  {
    hide Run, WriterNext;
    moves := AboutToNap(s);
    moves := WriteThrough(s, moves, Run(s, moves), []);
    assert Run(s, moves).d.queue == [];
    moves := Go(s, moves, ReaderStep);
    assert Run(s, moves).reader == RAsleep(1);
    moves := WriteThrough(s, moves, Run(s, moves), [1]);
    assert Run(s, moves).d.queue == [1];
  }
}
