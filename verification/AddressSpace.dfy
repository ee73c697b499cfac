/**
 The user-level cache of the kernel's mapping table (lib/segment.c): a write-back
 cache with delayed unmaps. The kernel keeps a table of slots for every address
 space; a system call may fail at any time.
 */
module AddressSpace {
  import opened Common
  import opened Mappings
  import opened MapScan
  import opened MapInstall

  /** `Panic` stops the process. */
  datatype Status = Ok | EInval | EBusy | ENoMem | EFault | Panic

  type Kernel = map<nat, seq<Mapping>>

  /** First page handed out when no address is asked for. */
  const MMAP_BASE: nat := 0x100000

  ghost predicate AllSelfIndexed(k: Kernel) {
    0 !in k && forall a :: a in k ==> SelfIndexed(k[a])
  }

  ghost predicate AllDisjoint(k: Kernel) {
    forall a :: a in k ==> Disjoint(k[a])
  }

  /** Tables only lost entries. */
  ghost predicate AllShrink(k0: Kernel, k1: Kernel) {
    k1.Keys == k0.Keys && forall a :: a in k0 ==> Shrinks(k0[a], k1[a])
  }

  lemma AllShrinkThen(k0: Kernel, k1: Kernel, k2: Kernel)
    requires AllShrink(k0, k1) && AllShrink(k1, k2)
    ensures AllShrink(k0, k2)
  {
  }

  lemma AllShrinkKeeps(k0: Kernel, k1: Kernel)
    requires AllShrink(k0, k1) && AllDisjoint(k0)
    ensures AllDisjoint(k1)
  {
  }

  ghost predicate DelayedAt(ents: seq<Mapping>, k: nat) {
    exists i :: 0 <= i < |ents| && ents[i].delayed && ents[i].kslot == k
  }

  /** A table only lost slots of delayed entries. */
  ghost predicate OnlyDelayedGo(ents: seq<Mapping>, ktab: seq<Mapping>, ktab': seq<Mapping>) {
    |ktab'| == |ktab| && forall k :: 0 <= k < |ktab| ==> ktab'[k] == ktab[k] || (!ktab'[k].Used() && DelayedAt(ents, k))
  }

  /** What the kernel's table `t` of address space `b` has become, if `ents` cached that of `asref`. */
  ghost predicate FlushedAt(b: nat, asref: nat, ents: seq<Mapping>, t: seq<Mapping>, t': seq<Mapping>) {
    if b == asref then OnlyDelayedGo(ents, t, t') else t' == t
  }

  /** Nothing but delayed entries left the kernel's tables. */
  ghost predicate FlushedOnly(asref: nat, ents: seq<Mapping>, k0: Kernel, k1: Kernel) {
    k1.Keys == k0.Keys && forall b :: b in k0 ==> FlushedAt(b, asref, ents, k0[b], k1[b])
  }

  lemma FlushedShrinks(asref: nat, ents: seq<Mapping>, k0: Kernel, k1: Kernel)
    requires FlushedOnly(asref, ents, k0, k1)
    ensures AllShrink(k0, k1)
  {
  }

  /** What the cache may have held while it held another address space than `a`: reading the
      table of `a` overwrites the entries one by one, and may fail half way. */
  ghost function Seen(read: bool, a: nat, ents: seq<Mapping>, k: Kernel): seq<Mapping> {
    if read || a !in k then ents else ents + InUse(k[a])
  }

  /** The same for the tables of other address spaces than `a`. */
  ghost predicate FlushedBut(a: nat, asref: nat, ents: seq<Mapping>, k0: Kernel, k1: Kernel) {
    k1.Keys == k0.Keys && forall b :: b in k0 && b != a ==> FlushedAt(b, asref, ents, k0[b], k1[b])
  }

  /** Then only the table of `a` changes. */
  lemma FlushedThen(a: nat, asref: nat, ents: seq<Mapping>, ents1: seq<Mapping>, k0: Kernel, k1: Kernel, k2: Kernel)
    requires FlushedBut(a, asref, ents, k0, k1) && FlushedBut(a, a, ents1, k1, k2)
    ensures FlushedBut(a, asref, ents, k0, k2)
  {
    hide OnlyDelayedGo;
  }

  lemma FlushedWider(a: nat, asref: nat, ents: seq<Mapping>, more: seq<Mapping>, k0: Kernel, k1: Kernel)
    requires FlushedBut(a, asref, ents, k0, k1)
    ensures FlushedBut(a, asref, ents + more, k0, k1)
  {
    forall k: nat | DelayedAt(ents, k)
      ensures DelayedAt(ents + more, k)
    {
      var i :| 0 <= i < |ents| && ents[i].delayed && ents[i].kslot == k;
      assert (ents + more)[i] == ents[i];
    }
  }

  /** The entries once `n` of another table were read over them. */
  function Overwritten(ents: seq<Mapping>, read: seq<Mapping>, n: nat): seq<Mapping>
    requires n <= |read|
  {
    var m := if n < |ents| then n else |ents|;
    read[..m] + ents[m..]
  }

  lemma OverwrittenGo(ents0: seq<Mapping>, ents: seq<Mapping>, read: seq<Mapping>, n: nat,
                      ktab0: seq<Mapping>, ktab1: seq<Mapping>, ktab2: seq<Mapping>)
    requires OnlyDelayedGo(ents0, ktab0, ktab1) && (forall i :: 0 <= i < |ents| ==> !ents[i].delayed)
    requires n <= |read| && OnlyDelayedGo(Overwritten(ents, read, n), ktab1, ktab2)
    ensures OnlyDelayedGo(ents0 + read, ktab0, ktab2)
    ensures n == 0 ==> OnlyDelayedGo(ents0, ktab0, ktab2)
  {
    var over, all := Overwritten(ents, read, n), ents0 + read;
    forall k: nat | DelayedAt(ents0, k)
      ensures DelayedAt(all, k)
    {
      var i :| 0 <= i < |ents0| && ents0[i].delayed && ents0[i].kslot == k;
      assert all[i] == ents0[i];
    }
    forall k: nat | DelayedAt(over, k)
      ensures DelayedAt(all, k) && n > 0
    {
      var i :| 0 <= i < |over| && over[i].delayed && over[i].kslot == k;
      assert over[i] == read[i] && all[|ents0| + i] == read[i];
    }
  }

  /** Exactly the slots of delayed entries were emptied. */
  ghost predicate FlushedExactly(ents: seq<Mapping>, ktab: seq<Mapping>, ktab': seq<Mapping>) {
    |ktab'| == |ktab| && forall k :: 0 <= k < |ktab| ==> if DelayedAt(ents, k) then !ktab'[k].Used() else ktab'[k] == ktab[k]
  }

  ghost predicate FlushedUpTo(ents: seq<Mapping>, i: nat, ktab: seq<Mapping>) {
    forall j :: 0 <= j < i && j < |ents| && ents[j].delayed && ents[j].kslot < |ktab| ==> !ktab[ents[j].kslot].Used()
  }

  lemma GoneNone(ents: seq<Mapping>, ktab: seq<Mapping>)
    ensures OnlyDelayedGo(ents, ktab, ktab) && FlushedUpTo(ents, 0, ktab)
  {
  }

  lemma GoneOne(ents: seq<Mapping>, ktab0: seq<Mapping>, ktab: seq<Mapping>, i: nat)
    requires OnlyDelayedGo(ents, ktab0, ktab) && FlushedUpTo(ents, i, ktab)
    requires i < |ents| && ents[i].delayed && ents[i].kslot < |ktab|
    ensures var ktab' := ktab[ents[i].kslot := ents[i].Cleared()];
      OnlyDelayedGo(ents, ktab0, ktab') && FlushedUpTo(ents, i + 1, ktab')
  {
    assert DelayedAt(ents, ents[i].kslot);
  }

  lemma GonePast(ents: seq<Mapping>, i: nat, ktab: seq<Mapping>)
    requires FlushedUpTo(ents, i, ktab) && i < |ents| && !ents[i].delayed
    ensures FlushedUpTo(ents, i + 1, ktab)
  {
  }

  lemma GoneAll(ents: seq<Mapping>, ktab0: seq<Mapping>, ktab: seq<Mapping>)
    requires OnlyDelayedGo(ents, ktab0, ktab) && FlushedUpTo(ents, |ents|, ktab)
    ensures FlushedExactly(ents, ktab0, ktab)
  {
  }

  /** A read that fails half way is followed by a write-back of what it has read to the address
      space that the cache held: that one keeps its mappings exactly when nothing marked as
      delayed was read over an entry, with a slot that is in use there. */
  lemma FailedReadKeeps(ents: seq<Mapping>, read: seq<Mapping>, n: nat, ktab: seq<Mapping>, ktab': seq<Mapping>)
    requires n <= |read| && (forall i :: 0 <= i < |ents| ==> !ents[i].delayed)
    requires FlushedExactly(Overwritten(ents, read, n), ktab, ktab')
    ensures (forall k :: 0 <= k < |ktab| && ktab[k].Used() ==> ktab'[k] == ktab[k]) <==>
      (forall j :: 0 <= j < n && j < |ents| && read[j].delayed && read[j].kslot < |ktab| ==> !ktab[read[j].kslot].Used())
  {
    var over := Overwritten(ents, read, n);
    forall j | 0 <= j < n && j < |ents| && read[j].delayed
      ensures DelayedAt(over, read[j].kslot)
    {
      assert over[j] == read[j];
    }
  }

  /** A live page of one address space that is lost when the table of another, with a marked
      entry in its first slot, does not fit into the cache. */
  lemma FailedReadUnmaps(x: Mapping, y: Mapping, z: Mapping, ktab': seq<Mapping>)
    requires x == Mapping(ObjRef(1, 2), 0, 1, 0, {Read}, false, 10)
    requires y == Mapping(ObjRef(1, 3), 0, 1, 0, {Read}, true, 20) && z == Mapping(ObjRef(1, 4), 0, 1, 1, {Read}, false, 30)
    requires FlushedExactly(Overwritten([x], InUse([y, z]), 1), [x], ktab')
    ensures SelfIndexed([x]) && SelfIndexed([y, z]) && Coherent([x], [x]) && |InUse([y, z])| > 1
    ensures Maps([x], 10, Target(x.seg, 0, {Read})) && forall t :: !Maps(ktab', 10, t)
  {
    assert [y, z][..1] == [y] && [y][..0] == [];
    assert InUse([y]) == [y] && InUse([y, z]) == [y] + [z];
    assert Owns([x], 0, 0);
    assert [x][0].Maps(10, Target(x.seg, 0, {Read}));
    assert Overwritten([x], InUse([y, z]), 1)[0] == y;
    assert DelayedAt(Overwritten([x], InUse([y, z]), 1), 0);
  }

  lemma FlushedLess(a: nat, asref: nat, ents: seq<Mapping>, k0: Kernel, k1: Kernel)
    requires FlushedOnly(asref, ents, k0, k1)
    ensures FlushedBut(a, asref, ents, k0, k1)
  {
    hide OnlyDelayedGo;
  }

  /** A map that failed: only delayed entries left the kernel's tables; of a replacement that
      is not promised for the table it was to change. */
  ghost predicate MapFailed(opt: MapOpt, a: nat, ents: seq<Mapping>, k0: Kernel, k1: Kernel) {
    if opt == Replace then FlushedBut(a, a, ents, k0, k1) else FlushedOnly(a, ents, k0, k1)
  }

  lemma OnlyReplaceMatches(ents0: seq<Mapping>, ents: seq<Mapping>, ktab: seq<Mapping>, f: Found,
                           s: nat, e: nat, start: nat, opt: MapOpt)
    requires s <= e && ScanState(ents0, ents, ktab, |ents|, f, s, e, start, opt) && f.match_ != NOTHING
    ensures opt == Replace
  {
  }

  /** The kernel's tables over a whole call to map in `a`: read at `t1`, done with at `t2`. */
  lemma MapFailedTables(opt: MapOpt, a: nat, asref: nat, ents: seq<Mapping>, tab: seq<Mapping>, t0: Kernel, t1: Kernel, t2: Kernel)
    requires FlushedOnly(asref, ents, t0, t1) && a in t1 && t1[a] == t0[a] && MapFailed(opt, a, tab, t1, t2)
    ensures FlushedBut(a, asref, ents, t0, t2)
    ensures opt != Replace ==> OnlyDelayedGo(tab, t0[a], t2[a])
    ensures opt != Replace && AllDisjoint(t0) ==> AllDisjoint(t2)
  {
    FlushedLess(a, asref, ents, t0, t1);
    FlushedShrinks(asref, ents, t0, t1);
    if opt != Replace {
      FlushedLess(a, a, tab, t1, t2);
      FlushedShrinks(a, tab, t1, t2);
      assert FlushedAt(a, a, tab, t1[a], t2[a]);
    }
    hide FlushedAt, OnlyDelayedGo;
    FlushedThen(a, asref, ents, tab, t0, t1, t2);
    if AllDisjoint(t0) {
      AllShrinkKeeps(t0, t1);
      if opt != Replace { AllShrinkKeeps(t1, t2); }
    }
  }

  lemma GoneKeeps(ents: seq<Mapping>, ktab: seq<Mapping>, ktab': seq<Mapping>)
    requires OnlyDelayedGo(ents, ktab, ktab')
    ensures SelfIndexed(ktab) ==> SelfIndexed(ktab')
  {
    ShrinkKeeps(ktab, ktab');
  }

  lemma TableFlushed(asref: nat, ents: seq<Mapping>, k: Kernel, ktab: seq<Mapping>, ktab': seq<Mapping>)
    requires OnlyDelayedGo(ents, ktab, ktab')
    ensures FlushedOnly(asref, ents, k[asref := ktab], k[asref := ktab'])
  {
    hide OnlyDelayedGo;
  }

  lemma NothingOverwritten(ents: seq<Mapping>)
    ensures Overwritten(ents, [], 0) == ents
  {
  }

  /** The tables after a failed read: flushed at `t1`, and again, with what was read, at `t2`. */
  lemma FailedRead(a: nat, asref: nat, ents0: seq<Mapping>, ents: seq<Mapping>, n: nat, t0: Kernel, t1: Kernel, t2: Kernel)
    requires a != asref && FlushedOnly(asref, ents0, t0, t1) && (asref in t1 ==> forall i :: 0 <= i < |ents| ==> !ents[i].delayed)
    requires var read := if a in t1 then InUse(t1[a]) else []; n <= |read| && FlushedOnly(asref, Overwritten(ents, read, n), t1, t2)
    ensures FlushedOnly(asref, Seen(false, a, ents0, t0), t0, t2)
  {
    hide InUse, OnlyDelayedGo;
    if asref in t0 {
      assert FlushedAt(asref, asref, ents0, t0[asref], t1[asref]);
      assert a in t1 ==> t1[a] == t0[a];
      var read := if a in t1 then InUse(t1[a]) else [];
      assert FlushedAt(asref, asref, Overwritten(ents, read, n), t1[asref], t2[asref]);
      OverwrittenGo(ents0, ents, read, n, t0[asref], t1[asref], t2[asref]);
    }
  }

  lemma NothingFlushed(a: nat, asref: nat, ents: seq<Mapping>, t0: Kernel, tab: seq<Mapping>)
    ensures FlushedBut(a, asref, ents, t0, t0) && FlushedOnly(asref, ents, t0, t0)
    ensures a in t0 ==> OnlyDelayedGo(tab, t0[a], t0[a])
  {
  }

  /** The tables once the cache has given up another address space. */
  lemma FlushedTables(a: nat, asref: nat, ents: seq<Mapping>, tab: seq<Mapping>, t0: Kernel, t1: Kernel)
    requires FlushedOnly(asref, ents, t0, t1)
    ensures t1.Keys == t0.Keys && FlushedBut(a, asref, ents, t0, t1)
    ensures AllDisjoint(t0) ==> AllDisjoint(t1)
    ensures a in t0 && (a == asref ==> tab == ents) ==> OnlyDelayedGo(tab, t0[a], t1[a])
  {
    FlushedLess(a, asref, ents, t0, t1);
    FlushedShrinks(asref, ents, t0, t1);
    if AllDisjoint(t0) { AllShrinkKeeps(t0, t1); }
  }

  lemma ChangedTable(a: nat, asref: nat, ents: seq<Mapping>, t0: Kernel, t1: Kernel, t2: Kernel)
    requires FlushedBut(a, asref, ents, t0, t1) && a in t1 && a in t2 && t2 == t1[a := t2[a]]
    ensures FlushedBut(a, asref, ents, t0, t2)
  {
  }

  /** A scan that only lost delayed entries, so far. */
  ghost predicate Retreats(ents0: seq<Mapping>, ktab0: seq<Mapping>, ents: seq<Mapping>, ktab: seq<Mapping>) {
    && OnlyDelayedGo(ents0, ktab0, ktab)
    && NoMoreDelayed(ents0, ents)
  }

  ghost predicate NoMoreDelayed(ents: seq<Mapping>, ents': seq<Mapping>) {
    forall j :: 0 <= j < |ents'| && ents'[j].delayed ==> j < |ents| && ents'[j] == ents[j]
  }

  /** A delayed entry is cleared, in the cache and then perhaps in the kernel. */
  lemma RetreatClear(ents0: seq<Mapping>, ktab0: seq<Mapping>, ents: seq<Mapping>, ktab: seq<Mapping>, i: nat)
    requires Retreats(ents0, ktab0, ents, ktab) && i < |ents| && ents[i].delayed
    ensures var c := ents[i].Cleared();
      && Retreats(ents0, ktab0, ents[i := c], ktab)
      && (c.kslot < |ktab| ==> Retreats(ents0, ktab0, ents[i := c], ktab[c.kslot := c]))
  {
    assert ents0[i].delayed && DelayedAt(ents0, ents[i].kslot);
  }

  lemma RetreatFurther(ents0: seq<Mapping>, ktab0: seq<Mapping>, ents: seq<Mapping>, ktab: seq<Mapping>, ktab': seq<Mapping>)
    requires Retreats(ents0, ktab0, ents, ktab) && OnlyDelayedGo(ents, ktab, ktab')
    ensures OnlyDelayedGo(ents0, ktab0, ktab')
  {
    forall k | 0 <= k < |ktab| && DelayedAt(ents, k)
      ensures DelayedAt(ents0, k)
    {
      var i :| 0 <= i < |ents| && ents[i].delayed && ents[i].kslot == k;
      assert ents0[i].delayed;
    }
  }

  function DroppedEntry(m: Mapping, canDelay: bool): Mapping {
    if canDelay then m.(delayed := true) else m.Cleared()
  }

  function Dropped(ents: seq<Mapping>, i: nat, canDelay: bool): seq<Mapping>
    requires i < |ents|
  {
    ents[i := DroppedEntry(ents[i], canDelay)]
  }

  function Flushed(m: Mapping): Mapping {
    if m.delayed then m.Cleared() else m
  }

  predicate Inside(m: Mapping, from: nat, to: nat) {
    m.Live() && from <= m.va && m.End() <= to
  }

  /** Live, and no page outside. */
  ghost predicate Within(m: Mapping, from: nat, to: nat) {
    m.flags != {} && !m.delayed && from <= m.va && m.va + m.numPages <= to
  }

  /** Overlapping, or with no page between. */
  predicate Touches(m: Mapping, s: nat, e: nat) {
    m.va <= e && s <= m.End()
  }

  /** Some entry in use does not leave a page free before the range or behind it. */
  ghost predicate Taken(ents: seq<Mapping>, s: nat, pages: nat) {
    exists i :: 0 <= i < |ents| && ents[i].Used() && !(ents[i].End() < s || s + pages < ents[i].va)
  }

  /** A delayed entry of the very mapping asked for. */
  predicate Reusable(m: Mapping, seg: ObjRef, start: nat, flags: set<Flag>, pages: nat) {
    m.delayed && m.seg == seg && m.flags == flags && m.startPage == start && m.numPages == pages
  }

  ghost predicate Flagged(ents: seq<Mapping>) {
    forall j :: 0 <= j < |ents| && ents[j].Used() ==> ents[j].flags != {}
  }

  ghost function EndingFrom(ents: seq<Mapping>, s: nat): set<nat> {
    set i: nat | i < |ents| && ents[i].Used() && ents[i].End() >= s
  }

  /** The address search gets past one more entry with every retry. */
  lemma SearchAdvances(ents: seq<Mapping>, i: nat, s: nat)
    requires i < |ents| && ents[i].Used() && ents[i].End() >= s
    ensures |EndingFrom(ents, ents[i].End() + 1)| < |EndingFrom(ents, s)|
  {
    var after, before := EndingFrom(ents, ents[i].End() + 1), EndingFrom(ents, s);
    assert i in before && after <= before - {i};
    SubsetSize(after, before - {i});
  }

  lemma BreakFrees(ents: seq<Mapping>, ktab: seq<Mapping>, i: nat, s: nat, e: nat)
    requires Coherent(ents, ktab) && i < |ents| && InTheWay(ents[i], s, e)
    requires FreeFrom(ents, |ents|, |Remains(ents[i], s, e, |ents|)|)
    ensures !SlotInUse(Broken(ents, i, s, e), ents[i].kslot)
  {
    var ents', parts := Broken(ents, i, s, e), Remains(ents[i], s, e, |ents|);
    assert Owns(ents, i, ents[i].kslot);
    assert forall j :: 0 <= j < |parts| ==> ents'[|ents| + j] == parts[j] && parts[j].kslot == |ents| + j;
    forall j
      ensures !Owns(ents', j, ents[i].kslot)
    {
    }
  }

  lemma SoundTrans(ents0: seq<Mapping>, ents1: seq<Mapping>, ktab1: seq<Mapping>,
                   ents2: seq<Mapping>, ktab2: seq<Mapping>, s: nat, e: nat)
    requires Sound(ents0, ents1, ktab1, s, e) && Sound(ents1, ents2, ktab2, s, e)
    ensures Sound(ents0, ents2, ktab2, s, e)
  {
  }

  /** How many entries from `i` on still are in the way. */
  ghost function Pending(ents: seq<Mapping>, i: nat, s: nat, e: nat): nat
    decreases |ents| - i
  {
    if i >= |ents| then 0
    else Pending(ents, i + 1, s, e) + if InTheWay(ents[i], s, e) then 1 else 0
  }

  lemma {:induction false} PendingSame(ents: seq<Mapping>, ents': seq<Mapping>, i: nat, s: nat, e: nat)
    requires |ents| <= |ents'|
    requires forall j :: i <= j < |ents| ==> ents'[j] == ents[j]
    requires forall j :: |ents| <= j < |ents'| ==> !InTheWay(ents'[j], s, e)
    ensures Pending(ents', i, s, e) == Pending(ents, i, s, e)
    decreases |ents'| - i
  {
    if i < |ents'| { PendingSame(ents, ents', i + 1, s, e); }
  }

  lemma PendingCleared(ents: seq<Mapping>, i: nat, s: nat, e: nat)
    requires i < |ents| && !InTheWay(ents[i], s, e)
    ensures Pending(ents[i := ents[i].Cleared()], i + 1, s, e) == Pending(ents, i, s, e)
  {
    PendingSame(ents, ents[i := ents[i].Cleared()], i + 1, s, e);
  }

  lemma PendingBroken(ents: seq<Mapping>, i: nat, s: nat, e: nat)
    requires i < |ents| && InTheWay(ents[i], s, e) && s <= e
    ensures Pending(Broken(ents, i, s, e), i + 1, s, e) < Pending(ents, i, s, e)
  {
    PendingSame(ents, Broken(ents, i, s, e), i + 1, s, e);
  }

  lemma RenumberedMaps(x: seq<Mapping>, y: seq<Mapping>, p: nat, t: Target)
    requires Renumbered(x, y)
    ensures Maps(x, p, t) <==> Maps(y, p, t)
  {
  }

  /** The entries with their indices as kernel slots. */
  function Indexed(ents: seq<Mapping>): (r: seq<Mapping>)
    ensures |r| == |ents| && forall i :: 0 <= i < |r| ==> r[i] == ents[i].(kslot := i)
  {
    seq(|ents|, i requires 0 <= i < |ents| => ents[i].(kslot := i))
  }

  /** The kernel's table of `n` slots, grown if need be, after an upload of all entries. */
  function Uploaded(ents: seq<Mapping>, n: nat): (r: seq<Mapping>)
    ensures ents <= r && forall k :: |ents| <= k < |r| ==> r[k] == ZERO
    ensures |r| >= n && |r| >= |ents| && (|r| == n || |r| == |ents|)
  {
    ents + seq(if n > |ents| then n - |ents| else 0, _ => ZERO)
  }

  /** The entry asked for is there already, up to the delayed bit. */
  predicate NoWork(ents: seq<Mapping>, slot: nat, usm: Mapping) {
    slot < |ents| && ents[slot].(delayed := false) == usm
  }

  /** A full upload is coherent: every entry sits at its own index. */
  lemma RenumberedCoherent(ents: seq<Mapping>, ktab: seq<Mapping>)
    requires ents <= ktab && Flagged(ents)
    requires forall i :: 0 <= i < |ents| ==> ents[i].kslot == i
    requires forall k :: |ents| <= k < |ktab| ==> ktab[k] == ZERO
    ensures Coherent(ents, ktab) && SelfIndexed(ktab)
  {
    forall k | 0 <= k < |ktab| && ktab[k].Used()
      ensures SlotInUse(ents, k)
    {
      assert Owns(ents, k, k);
    }
  }

  /** What the table is once a call to map has succeeded. */
  ghost predicate MapDone(tab: seq<Mapping>, tab': seq<Mapping>, m: Mapping, opt: MapOpt) {
    && (NoExact(tab, m.va, m.End(), m.startPage, opt) ==> Resolves(tab, tab', m, opt))
    && (forall x: nat :: opt == Replace && ExactAt(tab, m.va, m.End(), m.startPage, x) ==> ResolvesBut(tab, tab', m, x))
    && (forall x: nat :: opt == Replace && OnlyExact(tab, m.va, m.End(), m.startPage, x) ==> ExactTable(tab, tab', m, x))
    && (opt == Overlap ==> exists slot: nat :: OverlapTable(tab, tab', m, slot))
    && (opt == Plain ==> forall j :: 0 <= j < |tab| ==> !Blocks(tab[j], m.va, m.End()))
    && (opt != Overlap && Disjoint(tab) ==> Disjoint(tab'))
    && (SlotsBelow(tab, |tab|) ==> SlotsBelow(tab', |tab'|))
    && |tab'| <= |tab| + 2
  }

  lemma MapDoneResolves(
    tab: seq<Mapping>, ents: seq<Mapping>, ktab: seq<Mapping>, f: Found, ndelayed: nat,
    m: Mapping, opt: MapOpt, tab': seq<Mapping>)
    requires Scannable(tab, m.va, m.End(), m.startPage, opt)
    requires Progress(tab, ents, ktab, |ents|, f, m.va, m.End(), m.startPage, opt)
    requires SameMapsOutside(tab, ents, m.va, m.End())
    requires 0 <= ChosenSlot(f, ndelayed) <= |ents|
    requires Renumbered(Written(ents, ChosenSlot(f, ndelayed), m), tab')
    ensures NoExact(tab, m.va, m.End(), m.startPage, opt) ==> Resolves(tab, tab', m, opt)
    ensures forall x: nat :: opt == Replace && ExactAt(tab, m.va, m.End(), m.startPage, x) ==> ResolvesBut(tab, tab', m, x)
  {
    MatchIsExact(tab, ents, ktab, f, m.va, m.End(), m.startPage, opt, 0);
    forall p: nat, t: Target
      ensures f.match_ == NOTHING ==>
        (Maps(tab', p, t) <==> m.Maps(p, t) || ((opt == Overlap || !(m.va <= p < m.End())) && Maps(tab, p, t)))
      ensures f.match_ != NOTHING ==>
        (Maps(tab', p, t) <==> m.Maps(p, t) || (!(m.va <= p < m.End()) && MapsBut(tab, f.match_, p, t)))
    {
      InstalledMaps(tab, ents, ktab, f, m.va, m.End(), m.startPage, opt, ndelayed, m, p, t);
      RenumberedMaps(Written(ents, ChosenSlot(f, ndelayed), m), tab', p, t);
    }
    forall x: nat | opt == Replace && ExactAt(tab, m.va, m.End(), m.startPage, x)
      ensures ResolvesBut(tab, tab', m, x)
    {
      MatchIsExact(tab, ents, ktab, f, m.va, m.End(), m.startPage, opt, x);
    }
  }

  lemma SlotsStayBelow(tab: seq<Mapping>, ents: seq<Mapping>, ktab: seq<Mapping>, f: Found, m: Mapping, opt: MapOpt)
    requires Progress(tab, ents, ktab, |ents|, f, m.va, m.End(), m.startPage, opt)
    ensures SlotsBelow(tab, |tab|) ==> SlotsBelow(ents, |ents|)
  {
  }

  lemma MapDoneTables(
    tab: seq<Mapping>, ents: seq<Mapping>, ktab: seq<Mapping>, f: Found, ndelayed: nat,
    m: Mapping, opt: MapOpt, tab': seq<Mapping>)
    requires Scannable(tab, m.va, m.End(), m.startPage, opt)
    requires Progress(tab, ents, ktab, |ents|, f, m.va, m.End(), m.startPage, opt)
    requires Disjoint(tab) ==> Disjoint(ents)
    requires 0 <= ChosenSlot(f, ndelayed) <= |ents|
    requires Renumbered(Written(ents, ChosenSlot(f, ndelayed), m), tab')
    ensures opt == Plain ==> forall j :: 0 <= j < |tab| ==> !InTheWay(tab[j], m.va, m.End())
    ensures opt != Overlap && Disjoint(tab) ==> Disjoint(tab')
    ensures |tab'| <= |tab| + 2
    ensures SlotsBelow(tab, |tab|) ==> SlotsBelow(ents, |ents|)
  {
    hide Slots, Cuts, Scannable, SlotsBelow;
    SlotsStayBelow(tab, ents, ktab, f, m, opt);
    SlotIsSafe(tab, ents, ktab, f, m.va, m.End(), m.startPage, opt, ndelayed);
    if opt == Plain { PlainIsFree(tab, ents, ktab, f, m.va, m.End(), m.startPage); }
    if opt != Overlap && Disjoint(tab) { InstalledDisjoint(ents, ChosenSlot(f, ndelayed), m); }
  }

  /** What the second pass has established, if the table it began with allows the pass. */
  ghost predicate ScanState(ents0: seq<Mapping>, ents: seq<Mapping>, ktab: seq<Mapping>, i: nat, f: Found,
                            s: nat, e: nat, start: nat, opt: MapOpt)
  {
    Scannable(ents0, s, e, start, opt) ==>
      Progress(ents0, ents, ktab, i, f, s, e, start, opt) && Sound(ents0, ents, ktab, s, e)
  }

  lemma UnmapState(ents0: seq<Mapping>, ents: seq<Mapping>, ktab: seq<Mapping>, i: nat, f: Found,
                   s: nat, e: nat, start: nat, opt: MapOpt, d: int)
    requires ScanState(ents0, ents, ktab, i, f, s, e, start, opt) && i < |ents|
    requires ents[i].kslot < |ktab|
    requires ents[i].delayed && ents[i].Overlaps(s, e) && f.overlap != NOTHING
    requires d == i || (d == f.delayed && d != NOTHING)
    ensures ScanState(ents0, ents[i := ents[i].Cleared()], ktab[ents[i].kslot := ents[i].Cleared()], i + 1,
                      f.(delayed := d), s, e, start, opt)
  {
    if Scannable(ents0, s, e, start, opt) {
      StepUnmap(ents0, ents, ktab, i, f, s, e, start, opt, d);
      ClearSound(ents0, ents, ktab, i, s, e);
    }
  }

  lemma MatchState(ents0: seq<Mapping>, ents: seq<Mapping>, ktab: seq<Mapping>, i: nat, f: Found,
                   s: nat, e: nat, start: nat)
    requires ScanState(ents0, ents, ktab, i, f, s, e, start, Replace) && i < |ents|
    requires InTheWay(ents[i], s, e) && Exact(ents[i], s, start) && f.match_ == NOTHING
    ensures ScanState(ents0, ents, ktab, i + 1, f.(match_ := i), s, e, start, Replace)
  {
    if Scannable(ents0, s, e, start, Replace) { StepMatch(ents0, ents, ktab, i, f, s, e, start); }
  }

  lemma KeepState(ents0: seq<Mapping>, ents: seq<Mapping>, ktab: seq<Mapping>, i: nat, f: Found,
                  s: nat, e: nat, start: nat, opt: MapOpt)
    requires ScanState(ents0, ents, ktab, i, f, s, e, start, opt) && i < |ents|
    requires !ents[i].delayed && (opt == Overlap || !InTheWay(ents[i], s, e))
    ensures ScanState(ents0, ents, ktab, i + 1, if ents[i].Used() then f else f.(empty := i), s, e, start, opt)
  {
    if Scannable(ents0, s, e, start, opt) { StepKeep(ents0, ents, ktab, i, f, s, e, start, opt); }
  }

  lemma DelayedState(ents0: seq<Mapping>, ents: seq<Mapping>, ktab: seq<Mapping>, i: nat, f: Found,
                     s: nat, e: nat, start: nat, opt: MapOpt, d: int)
    requires ScanState(ents0, ents, ktab, i, f, s, e, start, opt) && i < |ents|
    requires ents[i].delayed && (ents[i].Overlaps(s, e) ==> f.overlap == NOTHING)
    requires d == i || (d == f.delayed && d != NOTHING)
    ensures ScanState(ents0, ents, ktab, i + 1,
                      f.(delayed := d, overlap := if ents[i].Overlaps(s, e) then i else f.overlap), s, e, start, opt)
  {
    if Scannable(ents0, s, e, start, opt) { StepDelayed(ents0, ents, ktab, i, f, s, e, start, opt, d); }
  }

  lemma OverlapState(ents0: seq<Mapping>, ents: seq<Mapping>, ktab: seq<Mapping>, f: Found,
                     s: nat, e: nat, start: nat, opt: MapOpt)
    requires ScanState(ents0, ents, ktab, |ents|, f, s, e, start, opt)
    requires f.match_ != NOTHING && 0 <= f.overlap < |ents| && ents[f.overlap].kslot < |ktab|
    ensures ScanState(ents0, ents[f.overlap := ents[f.overlap].Cleared()],
                      ktab[ents[f.overlap].kslot := ents[f.overlap].Cleared()], |ents|, f, s, e, start, opt)
  {
    if Scannable(ents0, s, e, start, opt) {
      assert ents[f.overlap := ents[f.overlap].Cleared()] == ents;
      ClearStep(ents, ktab, f.overlap);
    }
  }

  lemma WrittenCoherent(ents: seq<Mapping>, ktab: seq<Mapping>, slot: nat, m: Mapping)
    requires Coherent(ents, ktab) && slot <= |ents| && m.flags != {} && m.kslot < |ktab|
    requires if slot < |ents| && ents[slot].Used() then m.kslot == ents[slot].kslot else !SlotInUse(ents, m.kslot)
    ensures Coherent(Written(ents, slot, m), ktab[m.kslot := m])
  {
    if slot == |ents| {
      AppendStep(ents, ktab, m);
    } else if ents[slot].Used() {
      OverwriteStep(ents, ktab, slot, m);
    } else {
      FillStep(ents, ktab, slot, m);
    }
  }

  lemma MapDoneShape(
    tab: seq<Mapping>, ents: seq<Mapping>, ktab: seq<Mapping>, f: Found, ndelayed: nat,
    m: Mapping, opt: MapOpt, tab': seq<Mapping>)
    requires Scannable(tab, m.va, m.End(), m.startPage, opt)
    requires Progress(tab, ents, ktab, |ents|, f, m.va, m.End(), m.startPage, opt)
    requires 0 <= ChosenSlot(f, ndelayed) <= |ents|
    requires Renumbered(Written(ents, ChosenSlot(f, ndelayed), m), tab')
    ensures opt == Overlap ==> OverlapTable(tab, tab', m, ChosenSlot(f, ndelayed))
    ensures forall x: nat :: opt == Replace && OnlyExact(tab, m.va, m.End(), m.startPage, x) ==> ExactTable(tab, tab', m, x)
  {
  }

  lemma ScannedMapDone(
    tab: seq<Mapping>, ents: seq<Mapping>, ktab: seq<Mapping>, f: Found, ndelayed: nat,
    m: Mapping, opt: MapOpt, tab': seq<Mapping>)
    requires ScanState(tab, ents, ktab, |ents|, f, m.va, m.End(), m.startPage, opt)
    requires 0 <= ChosenSlot(f, ndelayed) <= |ents|
    requires Renumbered(Written(ents, ChosenSlot(f, ndelayed), m), tab')
    requires SlotsBelow(ents, |ents|) ==> SlotsBelow(tab', |tab'|)
    ensures Scannable(tab, m.va, m.End(), m.startPage, opt) ==> Coherent(ents, ktab) && MapDone(tab, tab', m, opt)
  {
    if Scannable(tab, m.va, m.End(), m.startPage, opt) {
      MapDoneResolves(tab, ents, ktab, f, ndelayed, m, opt, tab');
      MapDoneTables(tab, ents, ktab, f, ndelayed, m, opt, tab');
      MapDoneShape(tab, ents, ktab, f, ndelayed, m, opt, tab');
    }
  }

  /** The entry a call to map builds, before a kernel slot is chosen. */
  function Fresh(seg: ObjRef, start: nat, flags: set<Flag>, va: nat, pages: nat): Mapping {
    Mapping(seg, start, pages, 0, flags, false, va)
  }

  /** Entry `d` is the mapping `m`, but for its place, waiting to be unmapped. */
  ghost predicate Waits(d: Mapping, m: Mapping) {
    d == m.(delayed := true, va := d.va, kslot := d.kslot)
  }

  /** The first delayed entry of the mapping `m` waits where `m` is. */
  ghost predicate Reclaims(ents: seq<Mapping>, m: Mapping) {
    exists i :: 0 <= i < |ents| && Waits(ents[i], m) && ents[i].va == m.va && forall j :: 0 <= j < i ==> !Waits(ents[j], m)
  }

  /** Where a mapping goes that may go anywhere: a delayed entry of it is taken back, if there
      is one, and otherwise it is the first fit. */
  ghost predicate WellPlaced(ents: seq<Mapping>, m: Mapping) {
    if exists i :: 0 <= i < |ents| && Waits(ents[i], m) then Reclaims(ents, m) else FirstFit(ents, m.numPages, m.va)
  }

  /** The lowest page from the base at which the range, with a page to spare on
      either side, touches no entry in use. */
  ghost predicate FirstFit(ents: seq<Mapping>, pages: nat, s: nat) {
    && s >= MMAP_BASE && !Taken(ents, s, pages)
    && forall c: nat :: MMAP_BASE <= c < s ==> Taken(ents, c, pages)
  }

  lemma TakenBack(ents: seq<Mapping>, i: nat, m: Mapping)
    requires i < |ents| && Waits(ents[i], m) && forall j :: 0 <= j < i ==> !Waits(ents[j], m)
    ensures WellPlaced(ents, m.(va := ents[i].va))
  {
    var m' := m.(va := ents[i].va);
    assert forall j :: 0 <= j < |ents| ==> (Waits(ents[j], m) <==> Waits(ents[j], m'));
  }

  lemma NoneWaits(ents: seq<Mapping>, m: Mapping, s: nat)
    requires (forall j :: 0 <= j < |ents| ==> !Waits(ents[j], m)) && FirstFit(ents, m.numPages, s)
    ensures WellPlaced(ents, m.(va := s))
  {
    assert forall j :: 0 <= j < |ents| ==> (Waits(ents[j], m) <==> Waits(ents[j], m.(va := s)));
  }

  // --- The slot of a mapping that replaces nothing ---

  function DelayedCount(tab: seq<Mapping>): nat {
    if tab == [] then 0 else DelayedCount(tab[..|tab| - 1]) + if tab[|tab| - 1].delayed then 1 else 0
  }

  /** A delayed entry that shares the range, or lies strictly inside it. */
  ghost predicate Delays(m: Mapping, s: nat, e: nat) {
    m.delayed && m.va < e && s < m.va + m.numPages
  }

  /** The slot is that of the first delayed entry in the range; without one, that of some
      delayed entry, if more than four are delayed; and otherwise the last empty one, or a new one. */
  ghost predicate SlotRule(tab: seq<Mapping>, s: nat, e: nat, slot: nat) {
    if exists j :: 0 <= j < |tab| && Delays(tab[j], s, e) then
      slot < |tab| && Delays(tab[slot], s, e) && forall j :: 0 <= j < slot ==> !Delays(tab[j], s, e)
    else if DelayedCount(tab) > 4 then slot < |tab| && tab[slot].delayed
    else if exists j :: 0 <= j < |tab| && !tab[j].Used() then
      slot < |tab| && !tab[slot].Used() && forall j :: slot < j < |tab| ==> tab[j].Used()
    else slot == |tab|
  }

  /** The new mapping is in its slot; the other delayed entries in the range are gone, and every
      other entry is as it was, up to kernel slot numbers. */
  ghost predicate Placed(tab: seq<Mapping>, tab': seq<Mapping>, m: Mapping, slot: nat) {
    && SlotRule(tab, m.va, m.End(), slot)
    && slot < |tab'| && |tab'| == (if slot < |tab| then |tab| else |tab| + 1) && UpToSlot(m, tab'[slot])
    && forall j :: 0 <= j < |tab| && j != slot ==>
      if Delays(tab[j], m.va, m.End()) then !tab'[j].Used() else UpToSlot(tab[j], tab'[j])
  }

  /** What the second pass has noted of the first `i` entries, if it replaces nothing. */
  ghost predicate Tracks(tab: seq<Mapping>, ents: seq<Mapping>, i: nat, f: Found, ndelayed: nat, s: nat, e: nat) {
    && |ents| == |tab| && i <= |tab| && f.match_ == NOTHING && ndelayed == DelayedCount(tab[..i])
    && (forall j :: i <= j < |tab| ==> ents[j] == tab[j])
    && (forall j :: 0 <= j < i ==> ents[j] == if Delays(tab[j], s, e) && j != f.overlap then tab[j].Cleared() else tab[j])
    && TracksSlots(tab, i, f, s, e)
  }

  ghost predicate TracksSlots(tab: seq<Mapping>, i: nat, f: Found, s: nat, e: nat)
    requires i <= |tab|
  {
    && (if f.overlap == NOTHING then forall j :: 0 <= j < i ==> !Delays(tab[j], s, e)
        else 0 <= f.overlap < i && Delays(tab[f.overlap], s, e) && forall j :: 0 <= j < f.overlap ==> !Delays(tab[j], s, e))
    && (if f.delayed == NOTHING then forall j :: 0 <= j < i ==> !tab[j].delayed else 0 <= f.delayed < i && tab[f.delayed].delayed)
    && (if f.empty == |tab| then forall j :: 0 <= j < i ==> tab[j].Used()
        else f.empty < i && !tab[f.empty].Used() && forall j :: f.empty < j < i ==> tab[j].Used())
  }

  lemma TracksMatch(tab: seq<Mapping>, ents: seq<Mapping>, f: Found, ndelayed: nat, s: nat, e: nat)
    requires Tracks(tab, ents, |ents|, f, ndelayed, s, e)
    ensures f.match_ == NOTHING
  {
  }

  lemma TracksNothing(tab: seq<Mapping>, s: nat, e: nat)
    ensures Tracks(tab, tab, 0, Found(NOTHING, NOTHING, NOTHING, |tab|, NOTHING, NOTHING), 0, s, e)
  {
  }

  lemma CountedOneMore(tab: seq<Mapping>, i: nat)
    requires i < |tab|
    ensures DelayedCount(tab[..i + 1]) == DelayedCount(tab[..i]) + if tab[i].delayed then 1 else 0
  {
    assert tab[..i + 1][..i] == tab[..i];
  }

  lemma {:induction false} SomeDelayed(tab: seq<Mapping>)
    requires DelayedCount(tab) > 0
    ensures exists j :: 0 <= j < |tab| && tab[j].delayed
  {
    if !tab[|tab| - 1].delayed {
      SomeDelayed(tab[..|tab| - 1]);
      var j :| 0 <= j < |tab| - 1 && tab[..|tab| - 1][j].delayed;
      assert tab[j].delayed;
    }
  }

  lemma PlacedByRule(tab: seq<Mapping>, ents: seq<Mapping>, f: Found, ndelayed: nat, m: Mapping, tab': seq<Mapping>)
    requires Tracks(tab, ents, |ents|, f, ndelayed, m.va, m.End())
    requires 0 <= ChosenSlot(f, ndelayed) <= |ents| && Renumbered(Written(ents, ChosenSlot(f, ndelayed), m), tab')
    ensures Placed(tab, tab', m, ChosenSlot(f, ndelayed))
  {
    assert tab[..|tab|] == tab;
    if ndelayed > 4 { SomeDelayed(tab); }
    hide DelayedCount;
    var slot, w := ChosenSlot(f, ndelayed), Written(ents, ChosenSlot(f, ndelayed), m);
    RuledSlot(tab, f, ndelayed, m.va, m.End());
    forall j | 0 <= j < |tab| && j != slot
      ensures if Delays(tab[j], m.va, m.End()) then !tab'[j].Used() else UpToSlot(tab[j], tab'[j])
    {
      assert w[j] == ents[j] && UpToSlot(w[j], tab'[j]);
    }
  }

  lemma RuledSlot(tab: seq<Mapping>, f: Found, ndelayed: nat, s: nat, e: nat)
    requires f.match_ == NOTHING && ndelayed == DelayedCount(tab) && TracksSlots(tab, |tab|, f, s, e)
    requires ndelayed > 4 ==> exists j :: 0 <= j < |tab| && tab[j].delayed
    ensures ChosenSlot(f, ndelayed) >= 0 && SlotRule(tab, s, e, ChosenSlot(f, ndelayed))
  {
    hide DelayedCount;
  }

  /** The pass goes on: over an entry that is not delayed, */
  lemma TracksKept(tab: seq<Mapping>, ents: seq<Mapping>, i: nat, f: Found, ndelayed: nat, s: nat, e: nat)
    requires Tracks(tab, ents, i, f, ndelayed, s, e) && i < |ents| && !ents[i].delayed
    ensures Tracks(tab, ents, i + 1, if ents[i].Used() then f else f.(empty := i), ndelayed, s, e)
  {
    CountedOneMore(tab, i);
    hide DelayedCount;
  }

  /** over a delayed one that may stay, */
  lemma TracksDelayed(tab: seq<Mapping>, ents: seq<Mapping>, i: nat, f: Found, ndelayed: nat, s: nat, e: nat, d: int)
    requires Tracks(tab, ents, i, f, ndelayed, s, e) && i < |ents| && ents[i].delayed
    requires ents[i].Overlaps(s, e) ==> f.overlap == NOTHING
    requires d == i || (d == f.delayed && d != NOTHING)
    ensures Tracks(tab, ents, i + 1, f.(delayed := d, overlap := if ents[i].Overlaps(s, e) then i else f.overlap), ndelayed + 1, s, e)
  {
    CountedOneMore(tab, i);
    hide DelayedCount;
  }

  /** and over one that goes. */
  lemma TracksUnmapped(tab: seq<Mapping>, ents: seq<Mapping>, i: nat, f: Found, ndelayed: nat, s: nat, e: nat, d: int)
    requires Tracks(tab, ents, i, f, ndelayed, s, e) && i < |ents| && ents[i].delayed
    requires ents[i].Overlaps(s, e) && f.overlap != NOTHING
    requires d == i || (d == f.delayed && d != NOTHING)
    ensures Tracks(tab, ents[i := ents[i].Cleared()], i + 1, f.(delayed := d), ndelayed + 1, s, e)
  {
    CountedOneMore(tab, i);
    hide DelayedCount;
  }

  /** An address found by the search, or taken back from a delayed entry, is free of live entries. */
  lemma ChosenIsFree(ents: seq<Mapping>, m: Mapping)
    requires Disjoint(ents) && WellPlaced(ents, m)
    ensures !Busy(ents, m.va, m.End())
  {
  }

  ghost predicate Busy(tab: seq<Mapping>, s: nat, e: nat) {
    exists i :: 0 <= i < |tab| && Blocks(tab[i], s, e)
  }

  /** A plain map that succeeds keeps the kernel's tables disjoint. */
  lemma PlainDisjoint(tab: seq<Mapping>, t: Kernel, a: nat, ents: seq<Mapping>, ktab: seq<Mapping>, t': Kernel, m: Mapping)
    requires a in t && Coherent(tab, t[a]) && Coherent(ents, ktab) && MapDone(tab, ents, m, Plain)
    requires t' == t[a := ktab]
    ensures AllDisjoint(t) ==> AllDisjoint(t')
  {
    hide Coherent, Disjoint;
    assert Disjoint(tab) ==> Disjoint(ents);
    DisjointFromCoherent(tab, t[a]);
    DisjointFromCoherent(ents, ktab);
  }

  // --- A mapping that the next re-read loses ---

  /** A delayed entry that was in a full upload and is then taken back without one is
      live here and marked there: a re-read loses it. */
  lemma TakenBackIsLost(ents: seq<Mapping>, n: nat, i: nat)
    requires Flagged(ents) && Disjoint(ents) && i < |ents| && ents[i].delayed && ents[i].numPages > 0
    ensures var es := Indexed(ents);
      var m, ktab := es[i].(delayed := false), Uploaded(es, n);
      && NoWork(es, i, m) && Coherent(es[i := m], ktab) && Disjoint(es[i := m])
      && !SameMaps(es[i := m], InUse(ktab))
  {
    var es := Indexed(ents);
    var m, ktab := es[i].(delayed := false), Uploaded(es, n);
    RenumberedCoherent(es, ktab);
    IndexedDisjoint(ents, i);
    hide Disjoint, Flagged, SameMaps, Uploaded, Coherent, InUse;
    DelayStep(es, ktab, i, false);
    MarkedEntryLost(es[i := m], ktab, i);
    InUseMaps(ktab);
    SameMapsTrans(es[i := m], InUse(ktab), ktab);
  }

  lemma IndexedDisjoint(ents: seq<Mapping>, i: nat)
    requires Disjoint(ents) && i < |ents| && ents[i].delayed && Flagged(ents)
    ensures Disjoint(Indexed(ents)[i := Indexed(ents)[i].(delayed := false)])
  {
  }

  lemma SameMapsTrans(a: seq<Mapping>, b: seq<Mapping>, c: seq<Mapping>)
    ensures SameMaps(a, b) && SameMaps(b, c) ==> SameMaps(a, c)
  {
  }

  /** What the scan of a table with one entry finds. */
  lemma ScansOne(ents: seq<Mapping>, ktab: seq<Mapping>, s: nat, e: nat, start: nat)
    requires Coherent(ents, ktab) && |ents| >= 1 && ents[0].delayed && s <= e
    ensures Progress(ents, ents, ktab, 1,
                     Found(NOTHING, if ents[0].Overlaps(s, e) then 0 else NOTHING, 0, |ents|, NOTHING, NOTHING), s, e, start, Plain)
  {
    ScanStart(ents, ktab, s, e, start, Plain);
    StepDelayed(ents, ents, ktab, 0, Found(NOTHING, NOTHING, NOTHING, |ents|, NOTHING, NOTHING), s, e, start, Plain, 0);
  }

  /** A run that gets there: mapping `a` is unmapped with a delay; `b` is mapped at the first
      free address and needs a kernel slot past the table's end, so that everything is
      uploaded; and `a` is mapped again, at its old address and in its old slot, without
      an upload. */
  lemma LostMapping(a: Mapping, b: Mapping)
    requires a == Mapping(ObjRef(1, 2), 0, 1, 0, {Read}, false, MMAP_BASE)
    requires b == Mapping(ObjRef(1, 3), 0, 1, 1, {Read}, false, MMAP_BASE + 2)
    ensures var e1 := Dropped([a], 0, true);
      var e2 := Indexed(Written(e1, 1, b));
      var ktab := Uploaded(e2, 1);
      && Coherent(e1, [a]) && WellPlaced(e1, b)
      && (forall k: nat :: SlotInUse(e1, k) <==> k == 0)
      && Progress(e1, e1, [a], 1, Found(NOTHING, NOTHING, 0, 1, NOTHING, NOTHING), b.va, b.End(), 0, Plain)
      && ChosenSlot(Found(NOTHING, NOTHING, 0, 1, NOTHING, NOTHING), 1) == 1
      && WellPlaced(e2, a)
      && Progress(e2, e2, ktab, 2, Found(NOTHING, 0, 0, 2, NOTHING, NOTHING), a.va, a.End(), 0, Plain)
      && ChosenSlot(Found(NOTHING, 0, 0, 2, NOTHING, NOTHING), 1) == 0
      && NoWork(e2, 0, a)
      && Coherent(e2[0 := a], ktab) && !SameMaps(e2[0 := a], InUse(ktab))
  {
    var e1 := Dropped([a], 0, true);
    var e2 := Indexed(Written(e1, 1, b));
    assert Owns([a], 0, 0) && Owns(e1, 0, 0);
    assert Coherent(e1, [a]);
    ScansOne(e1, [a], b.va, b.End(), 0);
    assert Taken(e1, MMAP_BASE, 1) && Taken(e1, MMAP_BASE + 1, 1) && FirstFit(e1, 1, b.va);
    assert e2[0] == e1[0] && e2[1] == b;
    assert Waits(e2[0], a) && !Waits(e1[0], b);
    RenumberedCoherent(e2, Uploaded(e2, 1));
    ScansOne(e2, Uploaded(e2, 1), a.va, a.End(), 0);
    StepKeep(e2, e2, Uploaded(e2, 1), 1, Found(NOTHING, 0, 0, 2, NOTHING, NOTHING), a.va, a.End(), 0, Plain);
    TakenBackIsLost(Written(e1, 1, b), 1, 0);
  }

  /** The first live entry that starts at an address. */
  ghost predicate FirstLive(tab: seq<Mapping>, va: nat, f: int) {
    && 0 <= f < |tab| && tab[f].Live() && tab[f].va == va
    && forall j :: 0 <= j < f ==> !(tab[j].Live() && tab[j].va == va)
  }

  lemma SlotExists(ents: seq<Mapping>, ktab: seq<Mapping>, i: nat)
    requires Coherent(ents, ktab) && i < |ents| && ents[i].Used()
    ensures ents[i].kslot < |ktab|
  {
  }

  /** Nothing but a mapping in the way of a plain call, or a full table, stops the call. */
  ghost predicate Unhindered(tab: seq<Mapping>, slots: nat, want: Option<nat>, pages: nat, start: nat, opt: MapOpt) {
    opt == Replace ==> want.Some? && RoomToReplace(tab, slots, want.value, want.value + pages, start, opt)
  }

  lemma SoundSlotExists(ents0: seq<Mapping>, ents: seq<Mapping>, ktab: seq<Mapping>, s: nat, e: nat, i: nat)
    requires Sound(ents0, ents, ktab, s, e) && i < |ents| && ents[i].Used()
    ensures ents[i].kslot < |ktab|
  {
    SlotExists(ents, ktab, i);
  }

  lemma OverlapSlotExists(ents0: seq<Mapping>, ents: seq<Mapping>, ktab: seq<Mapping>, f: Found, s: nat, e: nat, start: nat)
    requires Scannable(ents0, s, e, start, Replace) && ScanState(ents0, ents, ktab, |ents|, f, s, e, start, Replace)
    requires f.overlap != NOTHING
    ensures 0 <= f.overlap < |ents| && ents[f.overlap].kslot < |ktab|
  {
  }

  /** Parts that were cut off had room. */
  lemma PartsHadRoom(ents0: seq<Mapping>, ents: seq<Mapping>, ktab: seq<Mapping>, f: Found,
                     s: nat, e: nat, start: nat, opt: MapOpt)
    requires Scannable(ents0, s, e, start, opt) && ScanState(ents0, ents, ktab, |ents|, f, s, e, start, opt)
    requires |ents| > |ents0| ==> |ents| <= |ktab|
    ensures RoomToReplace(ents0, |ktab|, s, e, start, opt)
  {
    assert Cuts(ents0, ents, |ents|, f, s, e, start, opt);
    hide Replaceable, Trace, Swept, Slots;
  }

  class MapCache {
    const size: nat
    const reliable: bool      // the kernel refuses no call without a reason
    var ents: seq<Mapping>
    var asref: nat            // address space the cache holds, 0 for none
    var ktab: seq<Mapping>    // the kernel's table for that address space
    var kern: Kernel          // the kernel's tables for the others

    /** The kernel's tables. */
    ghost function Tables(): Kernel
      reads this
    {
      if asref == 0 then kern else kern[asref := ktab]
    }

    ghost predicate Valid()
      reads this
    {
      && AllSelfIndexed(kern)
      && (asref != 0 ==> SelfIndexed(ktab) && Coherent(ents, ktab))
    }

    /** The table a lookup in address space `a` consults. */
    ghost function Table(a: nat): seq<Mapping>
      reads this
      requires a != 0 && a in Tables()
    {
      if a == asref then ents else InUse(kern[a])
    }

    /** The table of `a` can be read into the cache. */
    ghost predicate Fits(a: nat)
      reads this
      requires a != 0
    {
      a in Tables() && |Table(a)| <= size
    }

    constructor (size: nat, kern: Kernel, reliable: bool)
      requires AllSelfIndexed(kern)
      ensures Valid() && Tables() == kern && asref == 0 && this.size == size && this.reliable == reliable
    {
      this.size := size;
      this.reliable := reliable;
      this.ents := [];
      this.ktab := [];
      this.asref := 0;
      this.kern := kern;
    }

    // --- System calls on the current address space ---

    method SysSetSlot(m: Mapping) returns (ok: bool)
      modifies `ktab
      ensures !ok ==> ktab == old(ktab)
      ensures ok ==> m.kslot < |old(ktab)| && ktab == old(ktab)[m.kslot := m]
      ensures reliable && m.kslot < |old(ktab)| ==> ok
    {
      var fault: bool := *;
      ok := m.kslot < |ktab| && (reliable || !fault);
      if ok { ktab := ktab[m.kslot := m]; }
    }

    /** Uploads the whole cached table; the kernel renumbers the slots in place. */
    method SysSetAll() returns (ok: bool)
      modifies `ktab, `ents
      ensures !ok ==> ktab == old(ktab) && ents == old(ents)
      ensures ok ==> ents == Indexed(old(ents)) && ktab == Uploaded(ents, |old(ktab)|)
      ensures reliable ==> ok
    {
      var fault: bool := *;
      ok := reliable || !fault;
      if ok {
        ents := Indexed(ents);
        ktab := Uploaded(ents, |ktab|);
      }
    }

    // --- Write-back ---

    method Flush() returns (panic: bool)
      modifies `ktab, `ents
      ensures asref == 0 ==> !panic && ents == old(ents) && ktab == old(ktab)
      ensures OnlyDelayedGo(old(ents), old(ktab), ktab)
      ensures asref != 0 && !panic ==> |ents| == |old(ents)| && forall i :: 0 <= i < |ents| ==> ents[i] == Flushed(old(ents)[i])
      ensures asref != 0 && !panic ==> FlushedExactly(old(ents), old(ktab), ktab)
      ensures !panic && Coherent(old(ents), old(ktab)) ==> Coherent(ents, ktab)
      ensures reliable && Coherent(old(ents), old(ktab)) ==> !panic
    {
      hide Coherent, OnlyDelayedGo, FlushedUpTo, FlushedExactly;
      GoneNone(ents, ktab);
      if asref == 0 { return false; }
      var i := 0;
      while i < |ents|
        invariant 0 <= i <= |ents| == |old(ents)|
        invariant OnlyDelayedGo(old(ents), old(ktab), ktab) && FlushedUpTo(old(ents), i, ktab)
        invariant forall j :: 0 <= j < i ==> ents[j] == Flushed(old(ents)[j])
        invariant forall j :: i <= j < |ents| ==> ents[j] == old(ents)[j]
        invariant Coherent(old(ents), old(ktab)) ==> Coherent(ents, ktab)
      {
        if ents[i].delayed {
          ghost var ents0, ktab0 := ents, ktab;
          if Coherent(ents, ktab) { SlotExists(ents, ktab, i); }
          ents := ents[i := ents[i].Cleared()];
          var ok := SysSetSlot(ents[i]);
          if !ok { return true; }
          GoneOne(old(ents), old(ktab), ktab0, i);
          if Coherent(ents0, ktab0) { ClearStep(ents0, ktab0, i); }
        } else {
          GonePast(old(ents), i, ktab);
        }
        i := i + 1;
      }
      GoneAll(old(ents), old(ktab), ktab);
      return false;
    }

    method Invalidate() returns (panic: bool)
      requires AllSelfIndexed(kern) && (asref != 0 ==> SelfIndexed(ktab))
      modifies `ktab, `ents, `asref, `kern
      ensures !panic ==> asref == 0 && Valid() && FlushedOnly(old(asref), old(ents), old(Tables()), kern)
      ensures reliable && (old(asref) != 0 ==> Coherent(old(ents), old(ktab))) ==> !panic
    {
      panic := Flush();
      if panic { return; }
      if asref != 0 {
        ShrinkKeeps(old(ktab), ktab);
        kern := kern[asref := ktab];
        asref := 0;
      }
    }

    /** Makes the cache hold address space `a`. If its table cannot be read, what was read of it
        is taken for entries of the address space that the cache held. */
    method Refresh(a: nat) returns (st: Status)
      requires Valid() && a != 0
      modifies `ktab, `ents, `asref, `kern
      ensures !st.Panic? ==> Valid() && FlushedOnly(old(asref), Seen(asref == a, a, old(ents), old(Tables())), old(Tables()), Tables())
      ensures st.Ok? ==> a in old(Tables()) && asref == a && ents == old(Table(a)) && ktab == old(Tables())[a]
      ensures a == old(asref) ==> st.Ok? && kern == old(kern)
      ensures !st.Ok? && !st.Panic? ==> asref == 0 && (st.EInval? ==> a !in old(Tables()))
      ensures st.Ok? || st.EInval? || st.EFault? || st.Panic?
      ensures reliable && (old(Fits(a)) || a == old(asref)) ==> st.Ok?
      ensures reliable && a !in old(Tables()) ==> st.EInval?
    {
      hide Coherent, SelfIndexed, InUse, FlushedExactly, OnlyDelayedGo, FlushedOnly, Overwritten;
      NothingFlushed(a, asref, ents, Tables(), ents);
      if a == asref { return Ok; }
      ghost var t0 := Tables();
      var panic := Flush();
      if panic { return Panic; }
      GoneKeeps(old(ents), old(ktab), ktab);
      TableFlushed(asref, old(ents), kern, old(ktab), ktab);
      ghost var ents1, t1 := ents, Tables();
      var n;
      st, n := Load(a);
      if st.Ok? {
        RefreshCoherent(kern[a]);
        assert t1 == if asref == 0 then kern else kern[asref := ktab];
        if asref != 0 { kern := kern[asref := ktab]; }
        ktab, asref := kern[a], a;
        assert Tables() == t1;
        return;
      }
      NothingOverwritten(ents1);
      panic := Invalidate();
      if panic { return Panic; }
      FailedRead(a, old(asref), old(ents), ents1, n, t0, t1, kern);
    }

    /** `sys_as_get`: reads the table of `a` over the cache, or `n` entries of it. */
    method Load(a: nat) returns (st: Status, n: nat)
      requires a != 0 && a != asref
      modifies `ents
      ensures st.Ok? ==> a in kern && ents == InUse(kern[a])
      ensures st.EInval? ==> a !in kern && n == 0 && ents == old(ents)
      ensures st.EFault? ==> a in kern && n <= |InUse(kern[a])| && ents == Overwritten(old(ents), InUse(kern[a]), n)
      ensures st.Ok? || st.EInval? || st.EFault?
      ensures a in kern && |InUse(kern[a])| > size ==> st.EFault?
      ensures reliable && a in kern && |InUse(kern[a])| <= size ==> st.Ok?
    {
      if a !in kern { return EInval, 0; }
      var read, fault: bool := InUse(kern[a]), *;
      if (fault && !reliable) || |read| > size {
        n :| n <= |read|;
        ents := Overwritten(ents, read, n);
        return EFault, n;
      }
      ents := read;
      return Ok, |read|;
    }

    // --- Unmapping and lookup ---

    /** Unmaps entry `i` now, or marks it to be unmapped later. */
    method Drop(i: nat, canDelay: bool) returns (st: Status)
      requires Valid() && asref != 0 && i < |ents| && ents[i].Live()
      modifies `ktab, `ents, `asref, `kern
      ensures !st.Panic? ==> Valid() && AllShrink(old(Tables()), Tables())
      ensures !st.Panic? ==> FlushedBut(old(asref), old(asref), old(ents), old(Tables()), Tables())
      ensures canDelay ==> st.Ok? && ktab == old(ktab)
      ensures st.Ok? ==> asref == old(asref) && kern == old(kern) && ents == Dropped(old(ents), i, canDelay)
      ensures !st.Ok? && !st.Panic? ==> st.EFault? && asref == 0
      ensures reliable ==> st.Ok?
    {
      if canDelay {
        DelayStep(ents, ktab, i, true);
        ents := ents[i := ents[i].(delayed := true)];
        return Ok;
      }
      ghost var ents0, ktab0 := ents, ktab;
      ents := ents[i := ents[i].Cleared()];
      var ok := SysSetSlot(ents[i]);
      if !ok {
        var panic := Invalidate();
        return if panic then Panic else EFault;
      }
      ClearStep(ents0, ktab0, i);
      ShrinkKeeps(ktab0, ktab);
      return Ok;
    }

    /** `segment_unmap_delayed`: unmaps the first live mapping that starts at `va`. */
    method UnmapAt(a: nat, va: nat, canDelay: bool) returns (st: Status, ghost gone: int)
      requires Valid() && a != 0
      modifies `ktab, `ents, `asref, `kern
      ensures !st.EBusy?
      ensures !st.Panic? ==> Valid() && AllShrink(old(Tables()), Tables())
      ensures !st.Panic? ==> FlushedBut(a, old(asref), Seen(asref == a, a, old(ents), old(Tables())), old(Tables()), Tables())
      ensures st.Ok? ==>
        && a in old(Tables()) && asref == a
        && FirstLive(old(Table(a)), va, gone)
        && ents == Dropped(old(Table(a)), gone, canDelay)
      ensures st.EInval? && a in old(Tables()) ==>
        && asref == a && ents == old(Table(a))
        && forall i :: 0 <= i < |ents| ==> !(ents[i].Live() && ents[i].va == va)
      ensures !st.Ok? && !st.Panic? && (st.EInval? ==> a !in old(Tables())) ==> asref == 0
      ensures reliable && (old(Fits(a)) || a == old(asref) || a !in old(Tables())) ==> st.Ok? || st.EInval?
    {
      hide Coherent, SelfIndexed, OnlyDelayedGo, InUse;
      gone := NOTHING;
      ghost var t0 := Tables();
      st := Refresh(a);
      if st.Panic? { return; }
      FlushedShrinks(old(asref), Seen(asref == a, a, old(ents), t0), t0, Tables());
      FlushedLess(a, old(asref), Seen(asref == a, a, old(ents), t0), t0, Tables());
      if !st.Ok? { return; }
      ghost var t1, ents1 := Tables(), ents;
      var i := 0;
      while i < |ents|
        invariant 0 <= i <= |ents|
        invariant forall j :: 0 <= j < i ==> !(ents[j].Live() && ents[j].va == va)
      {
        if ents[i].Live() && ents[i].va == va {
          gone := i;
          st := Drop(i, canDelay);
          if !st.Panic? {
            FlushedThen(a, old(asref), old(ents), ents1, t0, t1, Tables());
            FlushedWider(a, old(asref), old(ents), InUse(t0[a]), t0, Tables());
          }
          return;
        }
        i := i + 1;
      }
      return EInval, gone;
    }

    /** `segment_unmap_range`: unmaps the live mappings that lie inside the range. */
    method UnmapRange(a: nat, from: nat, to: nat, canDelay: bool) returns (st: Status)
      requires Valid() && a != 0
      modifies `ktab, `ents, `asref, `kern
      ensures !st.EBusy?
      ensures !st.Panic? ==> Valid() && AllShrink(old(Tables()), Tables())
      ensures !st.Panic? ==> FlushedBut(a, old(asref), Seen(asref == a, a, old(ents), old(Tables())), old(Tables()), Tables())
      ensures st.Ok? ==>
        && a in old(Tables()) && asref == a && |ents| == |old(Table(a))|
        && forall i :: 0 <= i < |ents| ==>
             ents[i] == if Within(old(Table(a))[i], from, to) then DroppedEntry(old(Table(a))[i], canDelay) else old(Table(a))[i]
      ensures !st.Ok? && !st.Panic? ==> asref == 0 && (st.EInval? ==> a !in old(Tables()))
      ensures reliable && (old(Fits(a)) || a == old(asref)) ==> st.Ok?
      ensures reliable && a !in old(Tables()) ==> st.EInval?
    {
      hide Coherent, SelfIndexed, OnlyDelayedGo, InUse, FlushedBut, AllShrink;
      ghost var t0 := Tables();
      st := Refresh(a);
      if st.Panic? { return; }
      FlushedShrinks(old(asref), Seen(asref == a, a, old(ents), t0), t0, Tables());
      FlushedLess(a, old(asref), Seen(asref == a, a, old(ents), t0), t0, Tables());
      if !st.Ok? { return; }
      ghost var ents0 := ents;
      var i := 0;
      while i < |ents|
        invariant 0 <= i <= |ents| == |ents0|
        invariant Valid() && asref == a && AllShrink(t0, Tables()) && FlushedBut(a, old(asref), old(ents), t0, Tables())
        invariant forall j :: 0 <= j < i ==>
          ents[j] == if Within(ents0[j], from, to) then DroppedEntry(ents0[j], canDelay) else ents0[j]
        invariant forall j :: i <= j < |ents| ==> ents[j] == ents0[j]
      {
        if Inside(ents[i], from, to) {
          ghost var t1, ents1 := Tables(), ents;
          st := Drop(i, canDelay);
          if st.Panic? { return; }
          AllShrinkThen(t0, t1, Tables());
          FlushedThen(a, old(asref), old(ents), ents1, t0, t1, Tables());
          FlushedWider(a, old(asref), old(ents), InUse(t0[a]), t0, Tables());
          if !st.Ok? { return; }
        }
        i := i + 1;
      }
      return Ok;
    }

    /** `segment_lookup_skip`: a live mapping that covers page `va`. */
    method Lookup(a: nat, va: nat, skip: set<Flag>) returns (st: Status, found: Option<Mapping>)
      requires Valid() && a != 0
      modifies `ktab, `ents, `asref, `kern
      ensures !st.EBusy?
      ensures !st.Panic? ==> Valid() && FlushedOnly(old(asref), Seen(asref == a, a, old(ents), old(Tables())), old(Tables()), Tables())
      ensures st.Ok? ==> a in old(Tables()) && asref == a && ents == old(Table(a)) && ktab == old(Tables())[a]
      ensures st.Ok? && found.Some? ==>
        found.value in ents && found.value.Live() && found.value.flags !! skip && found.value.va <= va < found.value.End()
      ensures st.Ok? && found.None? ==>
        forall i :: 0 <= i < |ents| && ents[i].Live() && ents[i].va <= va < ents[i].End() ==> !(ents[i].flags !! skip)
      ensures !st.Ok? && !st.Panic? ==> asref == 0 && (st.EInval? ==> a !in old(Tables()))
      ensures reliable && (old(Fits(a)) || a == old(asref)) ==> st.Ok?
      ensures reliable && a !in old(Tables()) ==> st.EInval?
    {
      hide Coherent, SelfIndexed, FlushedOnly, InUse;
      found := None;
      st := Refresh(a);
      if !st.Ok? { return; }
      var i := 0;
      while i < |ents|
        invariant 0 <= i <= |ents|
        invariant forall j :: 0 <= j < i && ents[j].Live() && ents[j].va <= va < ents[j].End() ==> !(ents[j].flags !! skip)
      {
        if ents[i].Live() && ents[i].flags !! skip && ents[i].va <= va < ents[i].End() {
          return Ok, Some(ents[i]);
        }
        i := i + 1;
      }
    }

    /** `segment_lookup_obj`: whether a live mapping of object `oid` is left. */
    method LookupObject(a: nat, oid: nat) returns (st: Status, found: bool)
      requires Valid() && a != 0
      modifies `ktab, `ents, `asref, `kern
      ensures !st.Panic? ==> Valid() && FlushedOnly(old(asref), Seen(asref == a, a, old(ents), old(Tables())), old(Tables()), Tables())
      ensures st.Ok? ==> a in old(Tables()) && asref == a && ents == old(Table(a)) && ktab == old(Tables())[a]
      ensures a == old(asref) ==> st.Ok?
      ensures st.Ok? ==> (found <==> exists i :: 0 <= i < |ents| && ents[i].Live() && ents[i].seg.id == oid)
      ensures reliable && old(Fits(a)) ==> st.Ok?
    {
      found := false;
      st := Refresh(a);
      if !st.Ok? { return; }
      var i := 0;
      while i < |ents|
        invariant 0 <= i <= |ents|
        invariant forall j :: 0 <= j < i ==> !(ents[j].Live() && ents[j].seg.id == oid)
      {
        if ents[i].Live() && ents[i].seg.id == oid { return Ok, true; }
        i := i + 1;
      }
    }

    // --- Choosing where to map ---

    /** The search for an address: first fit, unless a delayed entry can be taken back. */
    method FindAddress(seg: ObjRef, start: nat, flags: set<Flag>, pages: nat) returns (s: nat)
      ensures WellPlaced(ents, Fresh(seg, start, flags, s, pages))
    {
      ghost var m := Fresh(seg, start, flags, 0, pages);
      s := MMAP_BASE;
      var retry := true;
      while retry
        invariant s >= MMAP_BASE
        invariant forall c: nat :: MMAP_BASE <= c < s ==> Taken(ents, c, pages)
        invariant !retry ==> !Taken(ents, s, pages) && forall j :: 0 <= j < |ents| ==> !Waits(ents[j], m)
        decreases retry, |EndingFrom(ents, s)|
      {
        retry := false;
        var s0, i := s, 0;
        while i < |ents| && !retry
          invariant 0 <= i <= |ents|
          invariant s >= MMAP_BASE
          invariant forall c: nat :: MMAP_BASE <= c < s ==> Taken(ents, c, pages)
          invariant retry ==> |EndingFrom(ents, s)| < |EndingFrom(ents, s0)|
          invariant !retry ==> s == s0 && forall j :: 0 <= j < i && ents[j].Used() ==> ents[j].End() < s || s + pages < ents[j].va
          invariant forall j :: 0 <= j < i ==> !Waits(ents[j], m)
        {
          if ents[i].Used() {
            if Reusable(ents[i], seg, start, flags, pages) {
              TakenBack(ents, i, m);
              return ents[i].va;
            }
            if Touches(ents[i], s, s + pages) {
              SearchAdvances(ents, i, s);
              forall c: nat | s <= c < ents[i].End() + 1
                ensures Taken(ents, c, pages)
              {
                assert !(ents[i].End() < c || c + pages < ents[i].va);
              }
              s := ents[i].End() + 1;
              retry := true;
            }
          }
          i := i + 1;
        }
      }
      NoneWaits(ents, m, s);
    }

    /** The least kernel slot no entry in use owns. */
    method FreeSlot() returns (k: nat)
      ensures !SlotInUse(ents, k)
      ensures forall j: nat :: j < k ==> SlotInUse(ents, j)
    {
      k := 0;
      var conflict := true;
      LeastFreeSlot(ents, k);
      while conflict
        invariant forall j: nat :: j < k ==> SlotInUse(ents, j)
        invariant k <= UsedCount(ents)
        invariant !conflict ==> !SlotInUse(ents, k)
        decreases conflict, UsedCount(ents) - k
      {
        conflict := false;
        var k0, i := k, 0;
        while i < |ents|
          invariant 0 <= i <= |ents|
          invariant forall j: nat :: j < k ==> SlotInUse(ents, j)
          invariant if conflict then k0 < k else k0 == k && forall j :: 0 <= j < i ==> !Owns(ents, j, k)
        {
          if ents[i].Used() && ents[i].kslot == k {
            assert Owns(ents, i, k);
            k := k + 1;
            conflict := true;
          }
          i := i + 1;
        }
        LeastFreeSlot(ents, k);
      }
    }

    // --- Clearing the way ---

    /** Appends one part of a split entry, filing it in the kernel under the
        number of the cache slot it takes. */
    method AppendPart(part: Mapping) returns (ok: bool)
      requires SelfIndexed(ktab) && part.kslot == |ents| && part.flags != {}
      modifies `ktab, `ents
      ensures SelfIndexed(ktab)
      ensures ents == if ok then old(ents) + [part] else old(ents)
      ensures ok ==> |old(ents)| < |old(ktab)| && ktab == Filed(old(ktab), part)
      ensures |ktab| == |old(ktab)| && (reliable && |old(ents)| < |old(ktab)| ==> ok)
    {
      ok := SysSetSlot(part);
      if ok { ents := ents + [part]; }
    }

    /** Appends what remains of entry `i` outside the range. */
    method AppendParts(i: nat, s: nat, e: nat) returns (ok: bool)
      requires SelfIndexed(ktab) && i < |ents| && InTheWay(ents[i], s, e)
      modifies `ktab, `ents
      ensures SelfIndexed(ktab) && old(ents) <= ents
      ensures ok ==> var parts := Remains(old(ents)[i], s, e, |old(ents)|);
        && ents == old(ents) + parts && ktab == FiledAll(old(ktab), parts)
        && (parts != [] ==> |old(ents)| + |parts| <= |old(ktab)|)
      ensures |ktab| == |old(ktab)|
      ensures reliable && PartsFit(old(ents), i, s, e, |old(ktab)|) ==> ok
    {
      hide FiledAll;
      var m := ents[i];
      ghost var parts := Remains(m, s, e, |ents|);
      FiledFew(ktab, m, m);
      if s <= m.va && m.End() <= e { return true; }
      FiledFew(ktab, parts[0], parts[|parts| - 1]);
      assert parts == if |parts| == 1 then [parts[0]] else [parts[0], parts[1]];
      if e < m.End() {
        ok := AppendPart(BackPart(m, e, |ents|));
        if !ok { return; }
      }
      if m.va < s {
        ok := AppendPart(FrontPart(m, s, |ents|));
        if !ok { return; }
      }
      ok := true;
    }

    /** Empties entry `i` and its kernel slot. */
    method ForceClear(i: nat) returns (ok: bool)
      requires SelfIndexed(ktab) && i < |ents|
      modifies `ktab, `ents
      ensures SelfIndexed(ktab) && (!ok ==> ktab == old(ktab))
      ensures ents == old(ents)[i := old(ents)[i].Cleared()]
      ensures ok ==> ents[i].kslot < |old(ktab)| && ktab == old(ktab)[ents[i].kslot := ents[i]]
      ensures reliable && old(ents)[i].kslot < |old(ktab)| ==> ok
    {
      ents := ents[i := ents[i].Cleared()];
      ok := SysSetSlot(ents[i]);
    }

    /** Breaks up live entry `i`, which a replacement found in its way. */
    method BreakEntry(i: nat, s: nat, e: nat) returns (ok: bool)
      requires SelfIndexed(ktab) && i < |ents| && InTheWay(ents[i], s, e) && s <= e
      modifies `ktab, `ents
      ensures SelfIndexed(ktab) && |ents| >= |old(ents)|
      ensures ok ==> ents == Broken(old(ents), i, s, e) && ktab == BrokenKernel(old(ents), old(ktab), i, s, e)
      ensures ok && Coherent(old(ents), old(ktab)) ==>
        (Coherent(ents, ktab) <==> FreeFrom(old(ents), |old(ents)|, |ents| - |old(ents)|))
      ensures ok && Coherent(old(ents), old(ktab)) && FreeFrom(old(ents), |old(ents)|, |ents| - |old(ents)|)
        && (SticksOut(old(ents)[i], s, e) ==> ReversePages !in old(ents)[i].flags)
        ==> Sound(old(ents), ents, ktab, s, e) && old(ents)[i].kslot < |ktab| && !SlotInUse(ents, old(ents)[i].kslot)
      ensures ok ==> |ktab| == |old(ktab)| && PartsFit(old(ents), i, s, e, |ktab|)
      ensures reliable && Coherent(old(ents), old(ktab)) && PartsFit(old(ents), i, s, e, |old(ktab)|) ==> ok
    {
      hide Coherent, FreeFrom, SlotInUse, FiledAll, Disjoint;
      ghost var ents0, ktab0 := ents, ktab;
      if Coherent(ents, ktab) { SlotExists(ents, ktab, i); }
      ok := AppendParts(i, s, e);
      if !ok { return; }
      ok := ForceClear(i);
      if ok && Coherent(ents0, ktab0) {
        BreakExact(ents0, ktab0, i, s, e);
        if Coherent(ents, ktab) {
          BreakFrees(ents0, ktab0, i, s, e);
          if SticksOut(ents0[i], s, e) ==> ReversePages !in ents0[i].flags {
            BreakMaps(ents0, i, s, e);
          }
          if Disjoint(ents0) { BreakDisjoint(ents0, i, s, e); }
        }
      }
    }

    /** State of the second pass before entry `i`; `ents0` and `ktab0` are the tables it began with. */
    ghost predicate Scanning(ents0: seq<Mapping>, ktab0: seq<Mapping>, i: nat, f: Found,
                             s: nat, e: nat, start: nat, opt: MapOpt)
      reads this
    {
      && asref != 0 && s <= e
      && SelfIndexed(ktab) && Flagged(ents)
      && (opt != Replace ==> Retreats(ents0, ktab0, ents, ktab))
      && i <= |ents| && |ents0| <= |ents| && (opt == Plain ==> |ents| == |ents0|)
      && |ktab| == |ktab0| && (|ents| > |ents0| ==> |ents| <= |ktab|)
      && (forall j :: i <= j < |ents0| ==> ents[j] == ents0[j])
      && NOTHING <= f.match_ < |ents| && NOTHING <= f.overlap < |ents| && NOTHING <= f.delayed < |ents| && f.empty <= |ents|
      && ScanState(ents0, ents, ktab, i, f, s, e, start, opt)
    }

    /** A replacement breaks up the live entry in its way. */
    method ScanBreak(ghost ents0: seq<Mapping>, ghost ktab0: seq<Mapping>, i: nat, f: Found,
                     s: nat, e: nat, start: nat, d: int)
      returns (ok: bool)
      requires Scanning(ents0, ktab0, i, f, s, e, start, Replace)
      requires i < |ents| && InTheWay(ents[i], s, e) && !(Exact(ents[i], s, start) && f.match_ == NOTHING)
      requires d == i || (d == f.delayed && d != NOTHING)
      modifies `ktab, `ents
      ensures SelfIndexed(ktab)
      ensures ok ==>
        && Scanning(ents0, ktab0, i + 1, BreakFound(f, old(ents[i]), i, s, e, d), s, e, start, Replace)
        && Pending(ents, i + 1, s, e) < old(Pending(ents, i, s, e))
      ensures reliable && RoomToReplace(ents0, |ktab0|, s, e, start, Replace) ==> ok
    {
      ghost var ents1, ktab1 := ents, ktab;
      ghost var good := Scannable(ents0, s, e, start, Replace);
      if good {
        BrokenIsForward(ents0, ents, ktab, i, f, s, e, start);
        BreakFits(ents0, ents, ktab, i, f, s, e, start, d);
      }
      ok := BreakEntry(i, s, e);
      if !ok { return; }
      if good {
        StepBreak(ents0, ents1, ktab1, i, f, s, e, start, d, ktab);
        SoundTrans(ents0, ents1, ktab1, ents, ktab, s, e);
      }
      PendingBroken(ents1, i, s, e);
    }

    /** A second delayed entry in the way is unmapped at once. */
    method ScanUnmap(ghost ents0: seq<Mapping>, ghost ktab0: seq<Mapping>, i: nat, f: Found,
                     s: nat, e: nat, start: nat, opt: MapOpt, d: int)
      returns (ok: bool)
      requires Scanning(ents0, ktab0, i, f, s, e, start, opt)
      requires i < |ents| && ents[i].delayed && ents[i].Overlaps(s, e) && f.overlap != NOTHING
      requires d == i || (d == f.delayed && d != NOTHING)
      modifies `ktab, `ents
      ensures SelfIndexed(ktab) && (opt != Replace ==> Retreats(ents0, ktab0, ents, ktab))
      ensures ok ==>
        && Scanning(ents0, ktab0, i + 1, f.(delayed := d), s, e, start, opt) && |ents| == old(|ents|)
        && ents == old(ents)[i := old(ents)[i].Cleared()]
        && Pending(ents, i + 1, s, e) == old(Pending(ents, i, s, e))
      ensures reliable && RoomToReplace(ents0, |ktab0|, s, e, start, opt) ==> ok
    {
      hide Progress, Sound, Retreats;
      ghost var ents1, ktab1 := ents, ktab;
      if Scannable(ents0, s, e, start, opt) { SoundSlotExists(ents0, ents, ktab, s, e, i); }
      if opt != Replace { RetreatClear(ents0, ktab0, ents, ktab, i); }
      ok := ForceClear(i);
      if !ok { return; }
      UnmapState(ents0, ents1, ktab1, i, f, s, e, start, opt, d);
      PendingCleared(ents1, i, s, e);
    }

    /** A live entry in the way: replaced, broken up, or the end of the call. */
    method ScanInTheWay(ghost ents0: seq<Mapping>, ghost ktab0: seq<Mapping>, i: nat, f: Found, ndelayed: nat,
                        s: nat, e: nat, start: nat, opt: MapOpt, d: int)
      returns (st: Status, f': Found, ndelayed': nat)
      requires Scanning(ents0, ktab0, i, f, s, e, start, opt) && i < |ents|
      requires InTheWay(ents[i], s, e) && opt != Overlap
      requires d == i || (d == f.delayed && d != NOTHING)
      modifies `ktab, `ents
      ensures SelfIndexed(ktab) && (opt != Replace ==> Retreats(ents0, ktab0, ents, ktab))
      ensures st.Ok? || st.EFault? || (st.EBusy? && opt == Plain)
      ensures st.Ok? ==> opt == Replace && Scanning(ents0, ktab0, i + 1, f', s, e, start, opt)
      ensures st.Ok? ==> Pending(ents, i + 1, s, e) < old(Pending(ents, i, s, e))
      ensures st.EBusy? ==> ents == old(ents) && ktab == old(ktab)
      ensures reliable && RoomToReplace(ents0, |ktab0|, s, e, start, opt) ==> !st.EFault?
    {
      hide Progress, Sound;
      if opt != Replace { return EBusy, f, ndelayed; }
      if Exact(ents[i], s, start) && f.match_ == NOTHING {
        MatchState(ents0, ents, ktab, i, f, s, e, start);
        return Ok, f.(match_ := i), ndelayed;
      }
      f' := BreakFound(f, ents[i], i, s, e, d);
      var ok := ScanBreak(ents0, ktab0, i, f, s, e, start, d);
      return if ok then Ok else EFault, f', ndelayed + 1;
    }

    /** One entry of the second pass; on failure only the kernel table is accounted for. */
    method ScanEntry(ghost ents0: seq<Mapping>, ghost ktab0: seq<Mapping>, i: nat, f: Found, ndelayed: nat,
                     s: nat, e: nat, start: nat, opt: MapOpt, prefer: (nat, nat) -> bool)
      returns (st: Status, f': Found, ndelayed': nat)
      requires Scanning(ents0, ktab0, i, f, s, e, start, opt) && i < |ents|
      modifies `ktab, `ents
      ensures SelfIndexed(ktab) && (opt != Replace ==> Retreats(ents0, ktab0, ents, ktab))
      ensures st.Ok? || st.EFault? || (st.EBusy? && opt == Plain && old(InTheWay(ents[i], s, e)))
      ensures st.Ok? ==> Scanning(ents0, ktab0, i + 1, f', s, e, start, opt)
      ensures st.Ok? ==>
        || Pending(ents, i + 1, s, e) < old(Pending(ents, i, s, e))
        || (Pending(ents, i + 1, s, e) == old(Pending(ents, i, s, e)) && |ents| == old(|ents|))
      ensures st.Ok? && opt != Replace && Tracks(ents0, old(ents), i, f, ndelayed, s, e) ==>
        Tracks(ents0, ents, i + 1, f', ndelayed', s, e)
      ensures st.EBusy? ==> ents == old(ents) && ktab == old(ktab)
      ensures reliable && RoomToReplace(ents0, |ktab0|, s, e, start, opt) ==> !st.EFault?
    {
      hide RoomToReplace, Progress, Sound, Tracks, Retreats, SelfIndexed, Flagged;
      var m := ents[i];
      ghost var tracked := opt != Replace && Tracks(ents0, ents, i, f, ndelayed, s, e);
      var d := if f.delayed == NOTHING || prefer(i, f.delayed) then i else f.delayed;
      st, f', ndelayed' := Ok, f, ndelayed;
      if opt != Overlap && InTheWay(m, s, e) {
        st, f', ndelayed' := ScanInTheWay(ents0, ktab0, i, f, ndelayed, s, e, start, opt, d);
      } else if !m.delayed {
        KeepState(ents0, ents, ktab, i, f, s, e, start, opt);
        if tracked { TracksKept(ents0, ents, i, f, ndelayed, s, e); }
        f' := if m.Used() then f else f.(empty := i);
      } else {
        ndelayed' := ndelayed + 1;
        if m.Overlaps(s, e) && f.overlap != NOTHING {
          if tracked { TracksUnmapped(ents0, ents, i, f, ndelayed, s, e, d); }
          var ok := ScanUnmap(ents0, ktab0, i, f, s, e, start, opt, d);
          st, f' := if ok then Ok else EFault, f.(delayed := d);
        } else {
          DelayedState(ents0, ents, ktab, i, f, s, e, start, opt, d);
          if tracked { TracksDelayed(ents0, ents, i, f, ndelayed, s, e, d); }
          f' := f.(delayed := d, overlap := if m.Overlaps(s, e) then i else f.overlap);
        }
      }
    }

    /** The second pass over the table. `prefer` stands for the random choice of
        the delayed slot to evict. */
    method Scan(s: nat, e: nat, start: nat, opt: MapOpt, prefer: (nat, nat) -> bool)
      returns (st: Status, f: Found, ndelayed: nat)
      requires Valid() && asref != 0 && s <= e
      modifies `ktab, `ents
      ensures SelfIndexed(ktab) && (opt != Replace ==> Retreats(old(ents), old(ktab), ents, ktab))
      ensures st.Ok? || st.EFault? || st.EBusy?
      ensures st.Ok? ==> Scanning(old(ents), old(ktab), |ents|, f, s, e, start, opt)
      ensures st.EBusy? ==> opt == Plain && Busy(old(ents), s, e)
      ensures st.Ok? && opt != Replace ==> Tracks(old(ents), ents, |ents|, f, ndelayed, s, e)
      ensures st.EBusy? ==> Coherent(ents, ktab)
      ensures reliable && RoomToReplace(old(ents), |old(ktab)|, s, e, start, opt) ==> !st.EFault?
    {
      hide RoomToReplace, Progress, Tracks;
      TracksNothing(ents, s, e);
      f := Found(NOTHING, NOTHING, NOTHING, |ents|, NOTHING, NOTHING);
      ndelayed := 0;
      ScanStart(ents, ktab, s, e, start, opt);
      var i := 0;
      while i < |ents|
        invariant Scanning(old(ents), old(ktab), i, f, s, e, start, opt)
        invariant opt != Replace ==> Tracks(old(ents), ents, i, f, ndelayed, s, e)
        decreases Pending(ents, i, s, e), |ents| - i
      {
        st, f, ndelayed := ScanEntry(old(ents), old(ktab), i, f, ndelayed, s, e, start, opt, prefer);
        if !st.Ok? { return; }
        i := i + 1;
      }
      st := Ok;
    }

    /** A replaced entry and an overlapped one: the overlapped one is unmapped. */
    method DropOverlapped(ghost ents0: seq<Mapping>, ghost ktab0: seq<Mapping>, f: Found,
                          s: nat, e: nat, start: nat, opt: MapOpt)
      returns (ok: bool)
      requires Scanning(ents0, ktab0, |ents|, f, s, e, start, opt)
      modifies `ktab, `ents
      ensures SelfIndexed(ktab) && (opt != Replace ==> Retreats(ents0, ktab0, ents, ktab))
      ensures ok ==> Scanning(ents0, ktab0, |ents|, f, s, e, start, opt)
      ensures f.match_ == NOTHING ==> ok && ents == old(ents)
      ensures reliable && RoomToReplace(ents0, |ktab0|, s, e, start, opt) ==> ok
    {
      hide Progress, Sound;
      if f.match_ == NOTHING || f.overlap == NOTHING { return true; }
      OnlyReplaceMatches(ents0, ents, ktab, f, s, e, start, opt);
      ghost var ents1, ktab1 := ents, ktab;
      if Scannable(ents0, s, e, start, opt) { OverlapSlotExists(ents0, ents, ktab, f, s, e, start); }
      ok := ForceClear(f.overlap);
      if ok { OverlapState(ents0, ents1, ktab1, f, s, e, start, opt); }
    }

    /** Writes `usm` into cache slot `slot` and uploads it, all entries at once if need be. */
    method Upload(slot: nat, usm: Mapping) returns (ok: bool)
      requires SelfIndexed(ktab) && Flagged(ents) && slot <= |ents|
      requires usm.flags != {} && !usm.delayed
      requires if slot < |ents| && ents[slot].Used() then usm.kslot == ents[slot].kslot else !SlotInUse(ents, usm.kslot)
      modifies `ktab, `ents
      ensures SelfIndexed(ktab) && (!ok ==> ktab == old(ktab) && NoMoreDelayed(old(ents), ents))
      ensures ok ==> Renumbered(Written(old(ents), slot, usm), ents)
      ensures ok ==> ents == Written(old(ents), slot, usm) || SlotsBelow(ents, |ents|)
      ensures ok && Coherent(old(ents), old(ktab)) ==> Coherent(ents, ktab)
      ensures reliable ==> ok
    {
      ghost var ents0, ktab0 := ents, ktab;
      ents := Written(ents, slot, usm);
      ok := SysSetSlot(usm);
      if ok {
        if Coherent(ents0, ktab0) { WrittenCoherent(ents0, ktab0, slot, usm); }
        return;
      }
      ok := SysSetAll();
      if ok { RenumberedCoherent(ents, ktab); }
    }

    /** The kernel slot for a mapping written into cache slot `slot`. */
    method KernelSlotFor(slot: nat) returns (k: nat)
      requires slot <= |ents|
      ensures if slot < |ents| && ents[slot].Used() then k == ents[slot].kslot else !SlotInUse(ents, k) && k <= |ents|
      ensures slot < |ents| && !ents[slot].Used() ==> k < |ents|
    {
      if slot < |ents| && ents[slot].Used() { return ents[slot].kslot; }
      k := FreeSlot();
      LeastFreeSlot(ents, k);
      UsedSlotsCount(ents);
      if slot < |ents| { SomeUnused(ents, slot); }
    }

    /** Writes the mapping into cache slot `slot`. */
    method Install(slot: nat, m: Mapping) returns (ok: bool)
      requires SelfIndexed(ktab) && Flagged(ents) && slot <= |ents|
      requires m.flags != {} && !m.delayed
      modifies `ktab, `ents
      ensures SelfIndexed(ktab) && (!ok ==> ktab == old(ktab) && NoMoreDelayed(old(ents), ents))
      ensures ok ==> Renumbered(Written(old(ents), slot, m), ents)
      ensures ok && SlotsBelow(old(ents), |old(ents)|) ==> SlotsBelow(ents, |ents|)
      ensures ok && Coherent(old(ents), old(ktab)) ==> Coherent(ents, ktab)
      ensures reliable ==> ok
    {
      var k := KernelSlotFor(slot);
      var usm := m.(kslot := k);
      if NoWork(ents, slot, usm) {
        if Coherent(ents, ktab) { DelayStep(ents, ktab, slot, false); }
        ents := ents[slot := usm];
        return true;
      }
      ok := Upload(slot, usm);
    }

    /** Gives up on a call: flushes and drops the cache. */
    method Abandon(code: Status) returns (st: Status)
      requires AllSelfIndexed(kern) && asref != 0 && SelfIndexed(ktab)
      modifies `ktab, `ents, `asref, `kern
      ensures st == code || st.Panic?
      ensures !st.Panic? ==> asref == 0 && Valid() && FlushedOnly(old(asref), old(ents), old(Tables()), Tables())
      ensures reliable && Coherent(old(ents), old(ktab)) ==> st == code
    {
      var panic := Invalidate();
      return if panic then Panic else code;
    }

    method MapInPlace(m: Mapping, opt: MapOpt, prefer: (nat, nat) -> bool) returns (st: Status)
      requires Valid() && asref != 0 && m.flags != {} && !m.delayed
      modifies `ktab, `ents
      ensures SelfIndexed(ktab) && (!st.Ok? && opt != Replace ==> Retreats(old(ents), old(ktab), ents, ktab))
      ensures st.Ok? && Scannable(old(ents), m.va, m.End(), m.startPage, opt) ==>
        Coherent(ents, ktab) && MapDone(old(ents), ents, m, opt)
      ensures st.Ok? || st.EFault? || st.EBusy?
      ensures st.EBusy? ==> opt == Plain && Busy(old(ents), m.va, m.End())
      ensures st.Ok? && opt != Replace ==> exists slot: nat :: Placed(old(ents), ents, m, slot)
      ensures st.EBusy? ==> Coherent(ents, ktab)
      ensures reliable && RoomToReplace(old(ents), |old(ktab)|, m.va, m.End(), m.startPage, opt) ==> !st.EFault?
      ensures st.Ok? && Scannable(old(ents), m.va, m.End(), m.startPage, opt) ==>
        RoomToReplace(old(ents), |old(ktab)|, m.va, m.End(), m.startPage, opt)
    {
      hide Tracks, Placed, RoomToReplace, Coherent, SelfIndexed, Busy, MapDone;
      ghost var ents0, ktab0 := ents, ktab;
      var f, ndelayed;
      st, f, ndelayed := Scan(m.va, m.End(), m.startPage, opt, prefer);
      if !st.Ok? { return; }
      if opt != Replace { TracksMatch(ents0, ents, f, ndelayed, m.va, m.End()); }
      var ok := DropOverlapped(ents0, ktab0, f, m.va, m.End(), m.startPage, opt);
      if !ok { return EFault; }
      if Scannable(ents0, m.va, m.End(), m.startPage, opt) {
        PartsHadRoom(ents0, ents, ktab, f, m.va, m.End(), m.startPage, opt);
      }
      ghost var ents1, ktab1 := ents, ktab;
      ok := Install(ChosenSlot(f, ndelayed), m);
      if !ok { return EFault; }
      ScannedMapDone(ents0, ents1, ktab1, f, ndelayed, m, opt, ents);
      if opt != Replace {
        TracksMatch(ents0, ents1, f, ndelayed, m.va, m.End());
        PlacedByRule(ents0, ents1, f, ndelayed, m, ents);
      }
    }

    /** Maps `m` at its own address in the address space the cache holds. */
    method MapAt(m: Mapping, opt: MapOpt, prefer: (nat, nat) -> bool) returns (st: Status)
      requires Valid() && asref != 0 && m.flags != {} && !m.delayed
      modifies `ktab, `ents, `asref, `kern
      ensures st.Ok? ==> asref == old(asref) && kern == old(kern) && SelfIndexed(ktab)
      ensures st.Ok? && Scannable(old(ents), m.va, m.End(), m.startPage, opt) ==>
        Coherent(ents, ktab) && MapDone(old(ents), ents, m, opt)
      ensures !st.EInval? && !st.ENoMem?
      ensures st.EBusy? ==> opt == Plain && Busy(old(ents), m.va, m.End())
      ensures st.Ok? && opt != Replace ==> exists slot: nat :: Placed(old(ents), ents, m, slot)
      ensures !st.Ok? && !st.Panic? ==> asref == 0 && Valid() && MapFailed(opt, old(asref), old(ents), old(Tables()), Tables())
      ensures reliable && RoomToReplace(old(ents), |old(ktab)|, m.va, m.End(), m.startPage, opt) ==> st.Ok? || st.EBusy?
      ensures st.Ok? && Scannable(old(ents), m.va, m.End(), m.startPage, opt) ==>
        RoomToReplace(old(ents), |old(ktab)|, m.va, m.End(), m.startPage, opt)
    {
      hide RoomToReplace, MapDone, Coherent, SelfIndexed, OnlyDelayedGo, Retreats, Placed;
      ghost var t0 := Tables();
      st := MapInPlace(m, opt, prefer);
      ghost var ents1, ktab1, t1 := ents, ktab, Tables();
      if !st.Ok? {
        st := Abandon(st);
        if !st.Panic? {
          if opt != Replace { RetreatFurther(old(ents), old(ktab), ents1, ktab1, Tables()[old(asref)]); }
          assert MapFailed(opt, old(asref), old(ents), t0, Tables());
        }
      }
    }

    /** The call once the cache holds the address space. */
    method MapLoaded(seg: ObjRef, start: nat, flags: set<Flag>, want: Option<nat>, pages: nat,
                     opt: MapOpt, prefer: (nat, nat) -> bool)
      returns (st: Status, va: nat)
      requires Valid() && asref != 0 && Read in flags
      modifies `ktab, `ents, `asref, `kern
      ensures st.Ok? ==> asref == old(asref) && kern == old(kern) && (want.Some? ==> va == want.value)
      ensures st.Ok? && Scannable(old(ents), va, va + pages, start, opt) ==>
        Valid() && |ents| < size && MapDone(old(ents), ents, Fresh(seg, start, flags, va, pages), opt)
      ensures !st.Ok? && !st.Panic? ==>
        asref == 0 && !st.EInval? && Valid() && MapFailed(opt, old(asref), old(ents), old(Tables()), Tables())
      ensures st.EBusy? ==> opt == Plain && Busy(old(ents), va, va + pages) && (want.Some? ==> va == want.value)
      ensures st.EBusy? && want.None? ==> !Disjoint(old(ents))
      ensures st.Ok? && want.None? ==> WellPlaced(old(ents), Fresh(seg, start, flags, va, pages))
      ensures st.Ok? && opt != Replace ==> exists slot: nat :: Placed(old(ents), ents, Fresh(seg, start, flags, va, pages), slot)
      ensures !st.Panic? ==> (st.ENoMem? <==> old(|ents|) + 2 >= size)
      ensures reliable && Unhindered(old(ents), |old(ktab)|, want, pages, start, opt) ==> st.Ok? || st.EBusy? || st.ENoMem?
      ensures st.Ok? && Scannable(old(ents), va, va + pages, start, opt) ==>
        RoomToReplace(old(ents), |old(ktab)|, va, va + pages, start, opt)
    {
      hide Resolves, ResolvesBut, ExactTable, OverlapTable, NoExact, ExactAt, OnlyExact, SlotsBelow, Coherent,
        OnlyDelayedGo, SelfIndexed, Replaceable, WellPlaced, Placed;
      va := 0;
      if |ents| + 2 >= size {
        st := Abandon(ENoMem);
        return;
      }
      ghost var tab := ents;
      if want.Some? {
        va := want.value;
      } else {
        va := FindAddress(seg, start, flags, pages);
        if Disjoint(tab) { ChosenIsFree(tab, Fresh(seg, start, flags, va, pages)); }
      }
      st := MapAt(Fresh(seg, start, flags, va, pages), opt, prefer);
    }

    /** `segment_map_as_locked`: maps `pages` pages of a segment, at `want` or at an
        address of its own choosing. */
    method Map(a: nat, seg: ObjRef, start: nat, flags: set<Flag>, want: Option<nat>, pages: nat,
               opt: MapOpt, prefer: (nat, nat) -> bool)
      returns (st: Status, va: nat)
      requires Valid() && a != 0
      modifies `ktab, `ents, `asref, `kern
      ensures Read !in flags ==> st.EInval? && asref == old(asref) && ents == old(ents) && Tables() == old(Tables())
      ensures Read in flags && !st.Ok? && !st.Panic? ==> asref == 0 && (st.EInval? ==> a !in old(Tables()))
      ensures !st.Panic? ==> FlushedBut(a, old(asref), Seen(asref == a, a, old(ents), old(Tables())), old(Tables()), Tables())
      ensures !st.Ok? && !st.Panic? && opt != Replace && a in old(Tables()) ==>
        OnlyDelayedGo(old(Table(a)), old(Tables())[a], Tables()[a])
      ensures st.Ok? ==> a in old(Tables()) && asref == a && (want.Some? ==> va == want.value)
      ensures st.Ok? && want.None? ==> WellPlaced(old(Table(a)), Fresh(seg, start, flags, va, pages))
      ensures st.Ok? && opt != Replace ==> exists slot: nat :: Placed(old(Table(a)), ents, Fresh(seg, start, flags, va, pages), slot)
      ensures !st.Panic? && a in old(Tables()) ==> (st.ENoMem? ==> old(|Table(a)|) + 2 >= size)
      ensures (st.Ok? || st.EBusy?) ==> a in old(Tables()) && old(|Table(a)|) + 2 < size
      ensures st.Ok? && Scannable(old(Table(a)), va, va + pages, start, opt) ==>
        Valid() && |ents| < size && MapDone(old(Table(a)), ents, Fresh(seg, start, flags, va, pages), opt)
      ensures !st.Ok? && !st.Panic? ==> Valid()
      ensures opt == Plain && !st.Panic? && old(AllDisjoint(Tables())) ==> Valid() && AllDisjoint(Tables())
      ensures st.EBusy? ==>
        && opt == Plain && a in old(Tables())
        && Busy(old(Table(a)), va, va + pages) && (want.Some? ==> va == want.value)
        && (want.None? ==> !Disjoint(old(Table(a))))
      ensures reliable && a !in old(Tables()) ==> st.EInval?
      ensures reliable && Read in flags && (old(Fits(a)) || a == old(asref)) ==>
        Unhindered(old(Table(a)), |old(Tables())[a]|, want, pages, start, opt) ==> st.Ok? || st.EBusy? || st.ENoMem?
      ensures st.Ok? && Scannable(old(Table(a)), va, va + pages, start, opt) ==>
        RoomToReplace(old(Table(a)), |old(Tables())[a]|, va, va + pages, start, opt)
    {
      hide Resolves, ResolvesBut, ExactTable, OverlapTable, NoExact, ExactAt, OnlyExact, SlotsBelow, Coherent, Disjoint, InUse, Replaceable,
        FlushedAt, FlushedOnly, OnlyDelayedGo, SelfIndexed, MapFailed, AllDisjoint, FlushedBut, MapDone, WellPlaced, Placed;
      ghost var t0 := Tables();
      NothingFlushed(a, asref, Seen(asref == a, a, ents, t0), t0, if a in t0 then Table(a) else []);
      if Read !in flags { return EInval, 0; }
      va := 0;
      st := Refresh(a);
      if st.Panic? { return; }
      ghost var t1, tab := Tables(), ents;
      FlushedTables(a, old(asref), Seen(asref == a, a, old(ents), t0), if a in t0 then old(Table(a)) else [], t0, t1);
      if !st.Ok? { return; }
      st, va := MapLoaded(seg, start, flags, want, pages, opt, prefer);
      if st.Ok? {
        ChangedTable(a, old(asref), old(ents), t0, t1, Tables());
        if opt == Plain { PlainDisjoint(tab, t1, a, ents, ktab, Tables(), Fresh(seg, start, flags, va, pages)); }
      } else if !st.Panic? {
        MapFailedTables(opt, a, old(asref), old(ents), tab, t0, t1, Tables());
        FlushedWider(a, old(asref), old(ents), InUse(t0[a]), t0, Tables());
      }
    }
  }
}
