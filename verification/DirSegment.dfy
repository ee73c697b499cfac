/**
 Directory slots with generation numbers (lib/fs_dir_dseg.cc): writers, which hold
 the directory's lock, rewrite a slot field by field under a busy mark; readers
 take no lock and copy the slot in any order, again and again until they see the
 same generation before and after.
 */
module DirSegment {
  import opened Common

  const TWO64: nat := 0x1_0000_0000_0000_0000
  const DIR_GEN_BUSY: nat := TWO64 - 1

  datatype Store = Store(k: nat, v: Byte)

  /** The writer's place in an update: its new generation, and the stores still to come. */
  datatype Writer =
    | Idle
    | Began(ngen: nat, todo: seq<Store>)    // generation read, slot not yet marked
    | Busy(ngen: nat, todo: seq<Store>)

  /** A reader's copy, cell by cell; `since` is how many
      contents the slot had had when it began. */
  datatype Reader =
    | Outside
    | Copying(start: nat, copy: map<nat, Byte>, since: nat)
    | Accepted(copy: map<nat, Byte>, since: nat)

  /** `commits` are the slot's contents after each update, and before the first;
      `updates` are the stores of each update begun. */
  datatype Slot = Slot(
    gen: nat, cells: seq<Byte>, writer: Writer, readers: map<nat, Reader>,
    commits: seq<seq<Byte>>, updates: seq<seq<Store>>)

  datatype Move =
    | WBegin(todo: seq<Store>)
    | WStep
    | RBegin(t: nat)
    | RCopy(t: nat, k: nat)
    | REnd(t: nat)

  function Stored(cells: seq<Byte>, w: Store): seq<Byte> {
    if w.k < |cells| then cells[w.k := w.v] else cells
  }

  function WriterNext(s: Slot): Slot {
    match s.writer
    case Idle => s
    case Began(ngen, todo) => s.(gen := DIR_GEN_BUSY, writer := Busy(ngen, todo))
    case Busy(ngen, todo) =>
      if todo == [] then s.(gen := ngen, writer := Idle, commits := s.commits + [s.cells])
      else s.(cells := Stored(s.cells, todo[0]), writer := Busy(ngen, todo[1..]))
  }

  function ReaderAt(s: Slot, t: nat): Reader {
    if t in s.readers then s.readers[t] else Outside
  }

  predicate Full(copy: map<nat, Byte>, n: nat) {
    forall k :: 0 <= k < n ==> k in copy
  }

  function Next(s: Slot, m: Move): Slot {
    match m
    case WBegin(todo) =>
      if s.writer == Idle then s.(writer := Began((s.gen + 1) % TWO64, todo), updates := s.updates + [todo]) else s
    case WStep => WriterNext(s)
    case RBegin(t) =>
      if ReaderAt(s, t).Copying? then s
      else s.(readers := s.readers[t := Copying(s.gen, map[], |s.commits|)])
    case RCopy(t, k) =>
      var r := ReaderAt(s, t);
      if r.Copying? && k < |s.cells| then s.(readers := s.readers[t := Copying(r.start, r.copy[k := s.cells[k]], r.since)]) else s
    case REnd(t) =>
      var r := ReaderAt(s, t);
      if !r.Copying? || !Full(r.copy, |s.cells|) then s
      else if r.start == DIR_GEN_BUSY || r.start != s.gen then s.(readers := s.readers[t := Outside])
      else s.(readers := s.readers[t := Accepted(r.copy, r.since)])
  }

  /** A copy agrees with a slot's contents where it has any. */
  ghost predicate Agrees(copy: map<nat, Byte>, cells: seq<Byte>) {
    forall k :: k in copy ==> k < |cells| && copy[k] == cells[k]
  }

  ghost predicate CopyOf(copy: map<nat, Byte>, cells: seq<Byte>) {
    forall k :: 0 <= k < |cells| ==> k in copy && copy[k] == cells[k]
  }

  /** The generation counts the updates; away from the mark, the slot is as the last one left it. */
  ghost predicate Counted(s: Slot) {
    && s.commits != []
    && (s.gen == DIR_GEN_BUSY || s.gen == (|s.commits| - 1) % TWO64)
    && (s.writer.Busy? ==> s.gen == DIR_GEN_BUSY)
    && (!s.writer.Busy? ==> s.gen == (|s.commits| - 1) % TWO64)
    && (!s.writer.Idle? ==> s.writer.ngen == |s.commits| % TWO64)
    && (!s.writer.Busy? ==> s.cells == s.commits[|s.commits| - 1])
    && (forall i :: 0 <= i < |s.commits| ==> |s.commits[i]| == |s.cells|)
  }

  /** While the generation a reader started from still stands, its copy is of the one
      state of the slot since then. */
  ghost predicate ReaderGood(r: Reader, s: Slot) {
    match r
    case Outside => true
    case Copying(start, copy, since) =>
      && 0 < since <= |s.commits| && (start == DIR_GEN_BUSY || start == (since - 1) % TWO64)
      && (start != DIR_GEN_BUSY && start == s.gen ==> since == |s.commits| && Agrees(copy, s.commits[since - 1]))
    case Accepted(copy, since) =>
      0 < since <= |s.commits| && Full(copy, |s.cells|) && Agrees(copy, s.commits[since - 1])
  }

  ghost predicate Good(s: Slot) {
    Counted(s) && forall t :: t in s.readers ==> ReaderGood(s.readers[t], s)
  }

  lemma CountedStep(s: Slot, m: Move)
    requires Counted(s)
    ensures Counted(Next(s, m))
  {
  }

  lemma NextGen(n: nat)
    requires n > 0
    ensures ((n - 1) % TWO64 + 1) % TWO64 == n % TWO64
  {
  }

  /** The writer's steps do no harm to a reader, as long as the generations do not
      come round again. */
  lemma WriterStepGood(s: Slot, r: Reader)
    requires Counted(s) && ReaderGood(r, s) && |WriterNext(s).commits| <= TWO64
    ensures ReaderGood(r, WriterNext(s))
  {
  }

  /** A reader's own steps: an accepted copy is of the state that is current when it is
      accepted, and was so ever since the reader began. */
  lemma ReaderStepGood(s: Slot, m: Move, t: nat)
    requires Counted(s) && ReaderGood(ReaderAt(s, t), s)
    requires m == RBegin(t) || m == REnd(t) || (m.RCopy? && m.t == t)
    ensures ReaderGood(ReaderAt(Next(s, m), t), s)
    ensures m == REnd(t) && ReaderAt(Next(s, m), t) != ReaderAt(s, t) && ReaderAt(Next(s, m), t).Accepted? ==>
      ReaderAt(Next(s, m), t).since == |s.commits|
  {
  }

  lemma StepGood(s: Slot, m: Move)
    requires Good(s) && |Next(s, m).commits| <= TWO64
    ensures Good(Next(s, m))
  {
    hide Counted, ReaderGood;
    CountedStep(s, m);
    forall t | t in Next(s, m).readers
      ensures ReaderGood(Next(s, m).readers[t], Next(s, m))
    {
      match m
      case WBegin(_) => SameGood(s, Next(s, m), s.readers[t]);
      case WStep => WriterStepGood(s, s.readers[t]);
      case RBegin(u) => OwnStep(s, m, t, u);
      case RCopy(u, _) => OwnStep(s, m, t, u);
      case REnd(u) => OwnStep(s, m, t, u);
    }
  }

  lemma SameGood(s: Slot, r: Slot, x: Reader)
    requires ReaderGood(x, s) && r.gen == s.gen && r.cells == s.cells && r.commits == s.commits
    ensures ReaderGood(x, r)
  {
  }

  lemma OwnStep(s: Slot, m: Move, t: nat, u: nat)
    requires Good(s) && t in Next(s, m).readers
    requires m == RBegin(u) || m == REnd(u) || (m.RCopy? && m.t == u)
    ensures ReaderGood(Next(s, m).readers[t], Next(s, m))
  {
    hide Counted, ReaderGood;
    OutsideGood(s);
    if t == u { ReaderStepGood(s, m, t); }
    SameGood(s, Next(s, m), Next(s, m).readers[t]);
  }

  lemma OutsideGood(s: Slot)
    ensures ReaderGood(Outside, s)
  {
  }

  // --- Whole runs ---

  ghost predicate Init(s: Slot) {
    s.gen == 0 && s.writer == Idle && s.readers == map[] && s.commits == [s.cells] && s.updates == []
  }

  function Run(s: Slot, moves: seq<Move>): Slot {
    if moves == [] then s else Next(Run(s, moves[..|moves| - 1]), moves[|moves| - 1])
  }

  lemma CommitsGrow(s: Slot, m: Move)
    ensures s.commits <= Next(s, m).commits
  {
  }

  lemma {:induction false} RunGood(s: Slot, moves: seq<Move>)
    requires Init(s) && |Run(s, moves).commits| <= TWO64
    ensures Good(Run(s, moves))
  {
    if moves != [] {
      hide Good, Next;
      CommitsGrow(Run(s, moves[..|moves| - 1]), moves[|moves| - 1]);
      RunGood(s, moves[..|moves| - 1]);
      StepGood(Run(s, moves[..|moves| - 1]), moves[|moves| - 1]);
    }
  }

  /** Whatever the interleaving, with fewer than 2^64 updates of the slot: an accepted
      copy is, byte for byte, what one update left (or what was there at first). */
  lemma AcceptedIsCommitted(s: Slot, moves: seq<Move>, t: nat)
    requires Init(s) && |Run(s, moves).commits| <= TWO64
    requires ReaderAt(Run(s, moves), t).Accepted?
    ensures var r := Run(s, moves); var a := ReaderAt(r, t);
      0 < a.since <= |r.commits| && CopyOf(a.copy, r.commits[a.since - 1])
  {
    RunGood(s, moves);
  }

  /** A reader's copy is accepted exactly if the generation is what it was when it began, and
      is not the mark. */
  lemma AcceptsExactly(s: Slot, t: nat)
    requires ReaderAt(s, t).Copying? && Full(ReaderAt(s, t).copy, |s.cells|)
    ensures var r, a := ReaderAt(s, t), ReaderAt(Next(s, REnd(t)), t);
      && (a.Accepted? <==> r.start == s.gen && s.gen != 0xFFFF_FFFF_FFFF_FFFF)
      && (a.Accepted? ==> a.copy == r.copy && a.since == r.since)
  {
  }

  /** With nobody writing, and unless the count of updates has come to one less than a multiple
      of 2^64, a reader that began since the last update is let go with its copy. */
  lemma UndisturbedIsAccepted(s: Slot, t: nat)
    requires Counted(s) && ReaderAt(s, t).Copying? && Full(ReaderAt(s, t).copy, |s.cells|)
    requires !s.writer.Busy? && ReaderAt(s, t).since == |s.commits|
    requires ReaderAt(s, t).start == (|s.commits| - 1) % 0x1_0000_0000_0000_0000
    ensures ReaderAt(Next(s, REnd(t)), t).Accepted? <==> |s.commits| % 0x1_0000_0000_0000_0000 != 0
  {
    AcceptsExactly(s, t);
    MarkComesRound(|s.commits|);
  }

  lemma MarkComesRound(n: nat)
    requires n > 0
    ensures (n - 1) % 0x1_0000_0000_0000_0000 == 0xFFFF_FFFF_FFFF_FFFF <==> n % 0x1_0000_0000_0000_0000 == 0
  {
  }

  // --- What the updates commit ---

  function StoredAll(cells: seq<Byte>, todo: seq<Store>): (r: seq<Byte>)
    ensures |r| == |cells|
    decreases |todo|
  {
    if todo == [] then cells else StoredAll(Stored(cells, todo[0]), todo[1..])
  }

  /** Each commit is the one before it with all of its update's stores. */
  ghost predicate Sequenced(s: Slot) {
    && |s.commits| > 0 && |s.updates| == |s.commits| - (if s.writer.Idle? then 1 else 0)
    && (forall i :: 0 < i < |s.commits| ==> s.commits[i] == StoredAll(s.commits[i - 1], s.updates[i - 1]))
    && (s.writer.Idle? ==> s.cells == s.commits[|s.commits| - 1])
    && (!s.writer.Idle? ==>
      StoredAll(s.cells, s.writer.todo) == StoredAll(s.commits[|s.commits| - 1], s.updates[|s.updates| - 1]))
  }

  lemma SequencedWriter(s: Slot)
    requires Sequenced(s)
    ensures Sequenced(WriterNext(s))
  {
  }

  lemma SequencedStep(s: Slot, m: Move)
    requires Sequenced(s)
    ensures Sequenced(Next(s, m))
  {
    if m == WStep { SequencedWriter(s); }
  }

  lemma {:induction false} CommitsAreUpdates(s: Slot, moves: seq<Move>)
    requires Init(s)
    ensures Sequenced(Run(s, moves))
  {
    if moves != [] {
      hide Sequenced, Next;
      CommitsAreUpdates(s, moves[..|moves| - 1]);
      SequencedStep(Run(s, moves[..|moves| - 1]), moves[|moves| - 1]);
    }
  }

  const FS_NAME_LEN: nat := 128
  const INUSE: nat := 8
  const NAME: nat := 9
  const SLOT: nat := NAME + FS_NAME_LEN

  /** `id` in 8 bytes, `inuse` in one, and the name. */
  datatype Dirent = Dirent(id: seq<Byte>, inuse: Byte, name: seq<Byte>)

  function Entry(cells: seq<Byte>): Dirent
    requires |cells| == SLOT
  {
    Dirent(cells[..INUSE], cells[INUSE], cells[NAME..])
  }

  /** Consecutive stores from a cell on. */
  function Stores(k: nat, vs: seq<Byte>): seq<Store>
    decreases |vs|
  {
    if vs == [] then [] else [Store(k, vs[0])] + Stores(k + 1, vs[1..])
  }

  /** `strncpy` of a name: padded with zeros, one byte short of the field. */
  function Padded(name: seq<Byte>): (r: seq<Byte>)
    requires |name| <= FS_NAME_LEN - 1
    ensures |r| == FS_NAME_LEN - 1
  {
    name + seq(FS_NAME_LEN - 1 - |name|, _ => 0)
  }

  function InsertStores(name: seq<Byte>, id: seq<Byte>): seq<Store>
    requires |name| <= FS_NAME_LEN - 1 && |id| == INUSE
  {
    Stores(NAME, Padded(name)) + (Stores(0, id) + [Store(INUSE, 1)])
  }

  lemma {:induction false} StoredConcat(cells: seq<Byte>, a: seq<Store>, b: seq<Store>)
    ensures StoredAll(cells, a + b) == StoredAll(StoredAll(cells, a), b)
    decreases |a|
  {
    if a == [] {
      assert a + b == b;
    } else {
      assert (a + b)[1..] == a[1..] + b;
      StoredConcat(Stored(cells, a[0]), a[1..], b);
    }
  }

  lemma StoredFirst(cells: seq<Byte>, k: nat, vs: seq<Byte>)
    requires k < |cells|
    ensures vs != [] ==> StoredAll(cells, Stores(k, vs)) == StoredAll(cells[k := vs[0]], Stores(k + 1, vs[1..]))
    ensures vs == [] ==> StoredAll(cells, Stores(k, vs)) == cells
  {
  }

  lemma {:induction false} StoredRun(cells: seq<Byte>, k: nat, vs: seq<Byte>)
    requires k < |cells| && k + |vs| <= |cells|
    ensures forall j :: 0 <= j < |cells| ==>
      StoredAll(cells, Stores(k, vs))[j] == if k <= j < k + |vs| then vs[j - k] else cells[j]
    decreases |vs|
  {
    hide StoredAll, Stores;
    StoredFirst(cells, k, vs);
    if |vs| == 1 {
      NoStores(cells[k := vs[0]], k + 1, vs[1..]);
    } else if vs != [] {
      StoredRun(cells[k := vs[0]], k + 1, vs[1..]);
    }
  }

  lemma NoStores(cells: seq<Byte>, k: nat, vs: seq<Byte>)
    requires vs == []
    ensures StoredAll(cells, Stores(k, vs)) == cells
  {
  }

  /** The same in bytes: 8 of the id, 1 that says the slot is in use, and 127 of the name,
      zeros behind it; the last of the 137 bytes stays. */
  lemma InsertBytes(cells: seq<Byte>, name: seq<Byte>, id: seq<Byte>)
    requires |cells| == 137 && |name| <= 127 && |id| == 8
    ensures var r := StoredAll(cells, InsertStores(name, id));
      && r[..8] == id && r[8] == 1 && r[136] == cells[136]
      && forall i :: 0 <= i < 127 ==> r[9 + i] == if i < |name| then name[i] else 0
  {
    hide StoredAll, InsertStores;
    var r := StoredAll(cells, InsertStores(name, id));
    InsertCommits(cells, name, id);
    assert r[..8] == Entry(r).id && r[8] == Entry(r).inuse;
    assert forall i :: 0 <= i < 128 ==> r[9 + i] == Entry(r).name[i];
  }

  /** An insert commits its entry, in use; the last byte of the name stays. */
  lemma InsertCommits(cells: seq<Byte>, name: seq<Byte>, id: seq<Byte>)
    requires |cells| == SLOT && |name| <= FS_NAME_LEN - 1 && |id| == INUSE
    ensures Entry(StoredAll(cells, InsertStores(name, id))) == Dirent(id, 1, Padded(name) + [cells[SLOT - 1]])
  {
    hide StoredAll, Stores;
    var a, b, c := Stores(NAME, Padded(name)), Stores(0, id), Stores(INUSE, [1]);
    assert c == [Store(INUSE, 1)] by { OneStore(INUSE, 1); }
    StoredConcat(cells, a, b + c);
    StoredRun(cells, NAME, Padded(name));
    var c1 := StoredAll(cells, a);
    StoredConcat(c1, b, c);
    StoredRun(c1, 0, id);
    StoredRun(StoredAll(c1, b), INUSE, [1]);
  }

  lemma OneStore(k: nat, v: Byte)
    ensures Stores(k, [v]) == [Store(k, v)]
  {
  }

  /** A remove leaves the entry's name and id and takes it out of use. */
  lemma RemoveCommits(cells: seq<Byte>)
    requires |cells| == SLOT
    ensures Entry(StoredAll(cells, [Store(INUSE, 0)])) == Entry(cells).(inuse := 0)
  {
  }

  // --- The bound is exact ---

  lemma Go(s: Slot, moves: seq<Move>, m: Move) returns (further: seq<Move>)
    ensures Run(s, further) == Next(Run(s, moves), m)
  {
    further := moves + [m];
    assert further[..|moves|] == moves;
  }

  lemma {:induction false} DoStores(s: Slot, moves: seq<Move>) returns (further: seq<Move>)
    requires Run(s, moves).writer.Busy?
    ensures var r := Run(s, moves);
      Run(s, further) == r.(cells := StoredAll(r.cells, r.writer.todo), writer := Busy(r.writer.ngen, []))
    decreases |Run(s, moves).writer.todo|
  {
    hide Run;
    if Run(s, moves).writer.todo == [] {
      further := moves;
    } else {
      further := Go(s, moves, WStep);
      further := DoStores(s, further);
    }
  }

  /** A whole update. */
  lemma Update(s: Slot, moves: seq<Move>, todo: seq<Store>) returns (further: seq<Move>)
    requires Run(s, moves).writer == Idle
    ensures var r := Run(s, moves);
      var cells := StoredAll(r.cells, todo);
      Run(s, further) == r.(gen := (r.gen + 1) % TWO64, cells := cells, commits := r.commits + [cells], updates := r.updates + [todo])
  {
    hide Run, StoredAll;
    further := Go(s, moves, WBegin(todo));
    further := Go(s, further, WStep);
    further := DoStores(s, further);
    further := Go(s, further, WStep);
  }

  /** The slot holds an entry, with a zero behind its name. */
  ghost predicate Holds(cells: seq<Byte>, name: seq<Byte>, id: seq<Byte>)
    requires |name| <= FS_NAME_LEN - 1
  {
    |cells| == SLOT && Entry(cells) == Dirent(id, 1, Padded(name) + [0])
  }

  ghost predicate EmptyOr(cells: seq<Byte>, name: seq<Byte>, id: seq<Byte>)
    requires |name| <= FS_NAME_LEN - 1
  {
    |cells| == SLOT && (cells[INUSE] == 0 || Holds(cells, name, id))
  }

  /** Any number of times: what is there is removed, and an entry inserted in its place. */
  lemma {:induction false} Replacements(s: Slot, moves: seq<Move>, name: seq<Byte>, id: seq<Byte>, n: nat)
    returns (further: seq<Move>)
    requires Run(s, moves).writer == Idle && |Run(s, moves).cells| == SLOT && Run(s, moves).cells[SLOT - 1] == 0
    requires Run(s, moves).gen < TWO64 && |name| <= FS_NAME_LEN - 1 && |id| == INUSE
    ensures var r, r1 := Run(s, moves), Run(s, further);
      && r1.writer == Idle && r1.readers == r.readers && |r1.cells| == SLOT && r1.cells[SLOT - 1] == 0
      && |r1.commits| == |r.commits| + 2 * n && r1.gen == (r.gen + 2 * n) % TWO64
      && (n > 0 ==> Holds(r1.cells, name, id))
      && r1.updates == r.updates + Turns(name, id, n)
      && r.commits <= r1.commits && forall i :: |r.commits| <= i < |r1.commits| ==> EmptyOr(r1.commits[i], name, id)
  {
    hide Run, StoredAll, InsertStores;
    if n == 0 {
      further := moves;
    } else {
      further := Replacements(s, moves, name, id, n - 1);
      ghost var c0 := Run(s, further).cells;
      ghost var g0 := Run(s, further).gen;
      further := Update(s, further, [Store(INUSE, 0)]);
      ghost var c1 := Run(s, further).cells;
      RemoveCommits(c0);
      assert c1[INUSE] == Entry(c1).inuse == 0;
      assert c1[SLOT - 1] == Entry(c1).name[FS_NAME_LEN - 1] == Entry(c0).name[FS_NAME_LEN - 1] == 0;
      further := Update(s, further, InsertStores(name, id));
      InsertCommits(c1, name, id);
      TwoMore(Run(s, moves).gen, n);
    }
  }

  /** The updates of a number of replacements. */
  function Turns(name: seq<Byte>, id: seq<Byte>, n: nat): seq<seq<Store>>
    requires |name| <= FS_NAME_LEN - 1 && |id| == INUSE
  {
    if n == 0 then [] else Turns(name, id, n - 1) + [[Store(INUSE, 0)], InsertStores(name, id)]
  }

  lemma TwoMore(g: nat, n: nat)
    requires n > 0
    ensures ((g + 2 * (n - 1)) % TWO64 + 1) % TWO64 == (g + 2 * n - 1) % TWO64
    ensures ((g + 2 * n - 1) % TWO64 + 1) % TWO64 == (g + 2 * n) % TWO64
  {
    NextGen(g + 2 * (n - 1) + 1);
    NextGen(g + 2 * n);
  }

  lemma {:induction false} CopySome(s: Slot, moves: seq<Move>, lo: nat, hi: nat) returns (further: seq<Move>)
    requires ReaderAt(Run(s, moves), 0).Copying? && lo <= hi <= |Run(s, moves).cells|
    ensures Run(s, further) == Run(s, moves).(readers := Run(s, further).readers)
    ensures ReaderAt(Run(s, further), 0).Copying?
    ensures Copied(Run(s, moves).cells, ReaderAt(Run(s, moves), 0), ReaderAt(Run(s, further), 0), lo, hi)
    decreases hi - lo
  {
    hide Run;
    if lo == hi {
      further := moves;
    } else {
      further := CopySome(s, moves, lo, hi - 1);
      further := Go(s, further, RCopy(0, hi - 1));
    }
  }

  ghost predicate Copied(cells: seq<Byte>, r: Reader, r': Reader, lo: nat, hi: nat)
    requires r.Copying? && r'.Copying? && lo <= hi <= |cells|
  {
    && r'.start == r.start && r'.since == r.since
    && (forall k :: k in r.copy ==> k in r'.copy)
    && (forall k :: lo <= k < hi ==> k in r'.copy && r'.copy[k] == cells[k])
    && (forall k :: k in r'.copy && !(lo <= k < hi) ==> k in r.copy && r'.copy[k] == r.copy[k])
  }

  /** With 2^64 updates during one copy, removals and insertions in turn, a reader can accept a
      mixture: the old name with the id that was inserted under the new one. */
  lemma TornAfterWrap(s: Slot, was: seq<Byte>, name: seq<Byte>, wasId: seq<Byte>, id: seq<Byte>)
    returns (moves: seq<Move>)
    requires |was| <= FS_NAME_LEN - 1 && |name| <= FS_NAME_LEN - 1 && |wasId| == INUSE == |id|
    requires Init(s) && Holds(s.cells, was, wasId)
    ensures var r := Run(s, moves);
      && |r.commits| == TWO64 + 1 && r.updates == s.updates + Turns(name, id, TWO64 / 2)
      && ReaderAt(r, 0).Accepted?
      && exists cells :: CopyOf(ReaderAt(r, 0).copy, cells) && Holds(cells, was, id)
          && (Padded(was) != Padded(name) && wasId != id ==> cells !in r.commits)
  {
    hide Run, Turns;
    moves := [];
    assert Run(s, moves) == s by { RunNothing(s); }
    moves := Go(s, moves, RBegin(0));
    moves := CopySome(s, moves, NAME, SLOT);
    ghost var before := ReaderAt(Run(s, moves), 0).copy;
    assert s.cells[SLOT - 1] == Entry(s.cells).name[FS_NAME_LEN - 1] == 0;
    moves := Replacements(s, moves, name, id, TWO64 / 2);
    assert Run(s, moves).gen == 0;
    ghost var now := Run(s, moves).cells;
    moves := CopySome(s, moves, 0, NAME);
    ghost var mixed := now[..NAME] + s.cells[NAME..];
    assert Holds(mixed, was, id);
    NeverCommitted(mixed, Run(s, moves).commits, s.cells, was, name, wasId, id);
    moves := Go(s, moves, REnd(0));
    assert CopyOf(ReaderAt(Run(s, moves), 0).copy, mixed);
  }

  lemma NeverCommitted(cells: seq<Byte>, commits: seq<seq<Byte>>, first: seq<Byte>,
                       was: seq<Byte>, name: seq<Byte>, wasId: seq<Byte>, id: seq<Byte>)
    requires |was| <= FS_NAME_LEN - 1 && |name| <= FS_NAME_LEN - 1
    requires Holds(cells, was, id) && Holds(first, was, wasId) && commits != [] && commits[0] == first
    requires forall i :: 1 <= i < |commits| ==> EmptyOr(commits[i], name, id)
    ensures Padded(was) != Padded(name) && wasId != id ==> cells !in commits
  {
    hide Padded;
    assert cells[INUSE] == Entry(cells).inuse == 1;
    if Padded(was) != Padded(name) {
      assert (Padded(was) + [0])[..FS_NAME_LEN - 1] == Padded(was) && (Padded(name) + [0])[..FS_NAME_LEN - 1] == Padded(name);
    }
  }

  lemma RunNothing(s: Slot)
    ensures Run(s, []) == s
  {
  }
}
