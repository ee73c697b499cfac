/**
 The second pass of `segment_map`: walking the cached table, deciding which
 entries are in the way of the new range, splitting or unmapping them, and
 remembering which slot the new mapping may take. Stated on values: each lemma
 is one branch of the loop body.
 */
module MapScan {
  import opened Mappings

  datatype MapOpt = Plain | Replace | Overlap

  const NOTHING: int := -1

  predicate InTheWay(m: Mapping, s: nat, e: nat) {
    m.Live() && m.Overlaps(s, e)
  }

  /** The same in so many words: live, and with pages in the range, or strictly inside it. */
  ghost predicate Blocks(m: Mapping, s: nat, e: nat) {
    m.flags != {} && !m.delayed && m.va < e && s < m.va + m.numPages
  }

  /** The entry a replacement takes over in place. */
  predicate Exact(m: Mapping, s: nat, start: nat) {
    m.va == s && m.startPage == start
  }

  predicate SticksOut(m: Mapping, s: nat, e: nat) {
    InTheWay(m, s, e) && !(s <= m.va && m.End() <= e)
  }

  /** An entry that a replacement splits, and on which side. */
  predicate CutInFront(m: Mapping, s: nat, e: nat, start: nat) {
    InTheWay(m, s, e) && !Exact(m, s, start) && m.va < s
  }

  predicate CutBehind(m: Mapping, s: nat, e: nat, start: nat) {
    InTheWay(m, s, e) && !Exact(m, s, start) && e < m.End()
  }

  /** How many parts have been cut off the entries before the `j`-th, at most one on a side. */
  ghost function PartsBefore(tab: seq<Mapping>, j: nat, s: nat, e: nat, start: nat): nat {
    (if exists k :: 0 <= k < j && k < |tab| && CutInFront(tab[k], s, e, start) then 1 else 0) +
    (if exists k :: 0 <= k < j && k < |tab| && CutBehind(tab[k], s, e, start) then 1 else 0)
  }

  /** The kernel slots from `n` on under which `c` parts of the `j`-th entry are filed belong
      to nobody, or to entries that are broken up before it. */
  ghost predicate RoomFor(tab: seq<Mapping>, j: nat, n: nat, c: nat, s: nat, e: nat, start: nat) {
    forall k :: 0 <= k < |tab| && tab[k].Used() && n <= tab[k].kslot < n + c ==>
      k < j && InTheWay(tab[k], s, e) && !Exact(tab[k], s, start)
  }

  /** When a replacement is safe: nothing delayed lies in the range, live entries
      in the range do not overlap each other, and an entry that must be split
      maps its pages forwards and finds room in the kernel for its parts. */
  ghost predicate Replaceable(tab: seq<Mapping>, s: nat, e: nat, start: nat) {
    && (forall j :: 0 <= j < |tab| && tab[j].delayed ==> !tab[j].Overlaps(s, e))
    && (forall j, k :: 0 <= j < k < |tab| && InTheWay(tab[j], s, e) && InTheWay(tab[k], s, e) ==>
          !tab[j].Overlaps(tab[k].va, tab[k].End()))
    && (forall j :: 0 <= j < |tab| && SticksOut(tab[j], s, e) && !Exact(tab[j], s, start) ==>
          && ReversePages !in tab[j].flags
          && RoomFor(tab, j, |tab| + PartsBefore(tab, j, s, e, start), |Parts(tab[j], s, e, 0)|, s, e, start))
  }

  ghost predicate Scannable(tab: seq<Mapping>, s: nat, e: nat, start: nat, opt: MapOpt) {
    s <= e && (opt == Replace ==> Replaceable(tab, s, e, start))
  }

  // --- Splitting ---

  function BackPart(m: Mapping, e: nat, slot: nat): Mapping
    requires m.va <= e <= m.End()
  {
    m.(va := e, startPage := m.startPage + (e - m.va), numPages := m.End() - e, kslot := slot)
  }

  function FrontPart(m: Mapping, s: nat, slot: nat): Mapping
    requires m.va <= s
  {
    m.(numPages := s - m.va, kslot := slot)
  }

  /** The parts of `m` outside `[s, e)`, filed from kernel slot `n` on. */
  function Parts(m: Mapping, s: nat, e: nat, n: nat): (r: seq<Mapping>)
    requires m.Overlaps(s, e)
    ensures |r| == (if e < m.End() then 1 else 0) + (if m.va < s then 1 else 0)
  {
    var back := if e < m.End() then [BackPart(m, e, n)] else [];
    back + if m.va < s then [FrontPart(m, s, n + |back|)] else []
  }

  lemma PartsTranslate(m: Mapping, s: nat, e: nat, n: nat, p: nat, t: Target)
    requires m.Live() && m.Overlaps(s, e) && ReversePages !in m.flags && !(s <= p < e) && s <= e
    ensures m.Maps(p, t) <==> Maps(Parts(m, s, e, n), p, t)
  {
    var parts := Parts(m, s, e, n);
    if m.Maps(p, t) {
      var i := if p < s then |parts| - 1 else 0;
      assert parts[i].Maps(p, t);
    }
  }

  // --- The loop invariant ---

  /** What became of an original entry. */
  predicate Kept(m0: Mapping, m: Mapping, s: nat, e: nat, opt: MapOpt) {
    m == m0 || (m == m0.Cleared() && m0.Used() && m0.Overlaps(s, e) && (m0.delayed || opt == Replace))
  }

  datatype Found = Found(match_: int, overlap: int, delayed: int, empty: nat, front: int, back: int)

  ghost predicate Trace(ents0: seq<Mapping>, ents: seq<Mapping>, i: nat, s: nat, e: nat, opt: MapOpt) {
    && |ents0| <= |ents|
    && i <= |ents|
    && (forall j :: i <= j < |ents0| ==> ents[j] == ents0[j])
    && (forall j :: 0 <= j < |ents0| ==> Kept(ents0[j], ents[j], s, e, opt))
    && (forall j :: |ents0| <= j < |ents| ==> ents[j].Live() && !ents[j].Overlaps(s, e))
  }

  /** Nothing scanned so far is left in the way. */
  ghost predicate Swept(ents: seq<Mapping>, i: nat, f: Found, s: nat, e: nat, opt: MapOpt) {
    && i <= |ents|
    && (opt != Overlap ==> forall j :: 0 <= j < i && InTheWay(ents[j], s, e) ==> j == f.match_)
    && (forall j :: 0 <= j < i && ents[j].delayed && ents[j].Overlaps(s, e) ==> j == f.overlap)
  }

  ghost predicate Slots(ents0: seq<Mapping>, ents: seq<Mapping>, ktab: seq<Mapping>, i: nat, f: Found,
                        s: nat, e: nat, start: nat, opt: MapOpt)
    requires |ents0| <= |ents|
  {
    && (f.match_ == NOTHING ||
        (0 <= f.match_ < i && f.match_ < |ents0| && opt == Replace && ents[f.match_] == ents0[f.match_]
         && InTheWay(ents[f.match_], s, e) && Exact(ents[f.match_], s, start)))
    && (opt == Replace ==> forall j :: 0 <= j < |ents0| && InTheWay(ents0[j], s, e) && Exact(ents0[j], s, start) ==> ents[j] == ents0[j])
    && (f.overlap == NOTHING ==> ents == ents0)
    && (f.overlap == NOTHING ||
        (0 <= f.overlap < i && f.overlap < |ents0| && ents0[f.overlap].Overlaps(s, e) && ents0[f.overlap].Used() && f.overlap != f.match_
         && (if opt == Replace
             then !Exact(ents0[f.overlap], s, start) && ents[f.overlap].kslot < |ktab| && !ents[f.overlap].Used() && !SlotInUse(ents, ents[f.overlap].kslot)
             else ents[f.overlap].delayed)))
    && (f.delayed == NOTHING ||
        (0 <= f.delayed < i && f.delayed < |ents0|
         && (f.overlap == NOTHING ==> ents[f.delayed].delayed)))
    && (f.empty == |ents0| || (f.empty < i && f.empty < |ents0| && !ents[f.empty].Used()))
  }

  /** At most one part was cut off on each side. */
  ghost predicate Cuts(ents0: seq<Mapping>, ents: seq<Mapping>, i: nat, f: Found, s: nat, e: nat, start: nat, opt: MapOpt)
    requires |ents0| <= |ents|
  {
    && |ents| == |ents0| + (if f.front == NOTHING then 0 else 1) + (if f.back == NOTHING then 0 else 1)
    && (f.front == NOTHING || (0 <= f.front < i && f.front < |ents0| && CutInFront(ents0[f.front], s, e, start)))
    && (f.back == NOTHING ||
        (0 <= f.back < i && f.back < |ents0| && CutBehind(ents0[f.back], s, e, start) && !ents[f.back].Used()))
    && (opt == Replace && f.front == NOTHING ==> forall k :: 0 <= k < i && k < |ents0| ==> !CutInFront(ents0[k], s, e, start))
    && (opt == Replace && f.back == NOTHING ==> forall k :: 0 <= k < i && k < |ents0| ==> !CutBehind(ents0[k], s, e, start))
    && (|ents| > |ents0| ==> opt == Replace && f.overlap != NOTHING)
    && (forall j :: |ents0| <= j < |ents| ==> ents[j].kslot == j)
  }

  ghost predicate Progress(ents0: seq<Mapping>, ents: seq<Mapping>, ktab: seq<Mapping>, i: nat, f: Found,
                           s: nat, e: nat, start: nat, opt: MapOpt)
  {
    && Trace(ents0, ents, i, s, e, opt)
    && Swept(ents, i, f, s, e, opt)
    && Slots(ents0, ents, ktab, i, f, s, e, start, opt)
    && Cuts(ents0, ents, i, f, s, e, start, opt)
  }

  /** Cache and kernel stay in step, and nothing outside the range moves. */
  ghost predicate Sound(ents0: seq<Mapping>, ents: seq<Mapping>, ktab: seq<Mapping>, s: nat, e: nat) {
    && Coherent(ents, ktab)
    && SameMapsOutside(ents0, ents, s, e)
    && (Disjoint(ents0) ==> Disjoint(ents))
  }

  lemma ScanStart(ents: seq<Mapping>, ktab: seq<Mapping>, s: nat, e: nat, start: nat, opt: MapOpt)
    requires Coherent(ents, ktab)
    ensures Sound(ents, ents, ktab, s, e)
    ensures Progress(ents, ents, ktab, 0, Found(NOTHING, NOTHING, NOTHING, |ents|, NOTHING, NOTHING), s, e, start, opt)
  {
  }

  /** An entry that is not split changes nothing about the parts. */
  lemma NothingCut(ents0: seq<Mapping>, ents: seq<Mapping>, ents': seq<Mapping>, i: nat, f: Found, f': Found,
                   s: nat, e: nat, start: nat, opt: MapOpt)
    requires |ents0| <= |ents| == |ents'| && Cuts(ents0, ents, i, f, s, e, start, opt)
    requires f'.front == f.front && f'.back == f.back && (f.overlap != NOTHING ==> f'.overlap != NOTHING)
    requires i < |ents0| && opt == Replace ==> !InTheWay(ents0[i], s, e) || Exact(ents0[i], s, start)
    requires forall j :: 0 <= j < |ents| ==> ents'[j] == ents[j] || ents'[j] == ents[j].Cleared()
    ensures Cuts(ents0, ents', i + 1, f', s, e, start, opt)
  {
  }

  lemma KeptSlots(ents0: seq<Mapping>, ents: seq<Mapping>, ktab: seq<Mapping>, i: nat, f: Found,
                  s: nat, e: nat, start: nat, opt: MapOpt)
    requires |ents0| <= |ents| && i < |ents| && (i >= |ents0| ==> ents[i].Used())
    requires Slots(ents0, ents, ktab, i, f, s, e, start, opt)
    ensures Slots(ents0, ents, ktab, i + 1, if ents[i].Used() then f else f.(empty := i), s, e, start, opt)
  {
  }

  /** The entry stays as it is: empty, out of the way, or live under `Overlap`. */
  lemma StepKeep(ents0: seq<Mapping>, ents: seq<Mapping>, ktab: seq<Mapping>, i: nat, f: Found,
                 s: nat, e: nat, start: nat, opt: MapOpt)
    requires Progress(ents0, ents, ktab, i, f, s, e, start, opt) && i < |ents|
    requires !ents[i].delayed && (opt == Overlap || !InTheWay(ents[i], s, e))
    ensures i < |ents0| || ents[i].Used()
    ensures Progress(ents0, ents, ktab, i + 1, if ents[i].Used() then f else f.(empty := i), s, e, start, opt)
  {
    hide Slots, Cuts;
    assert i < |ents0| ==> ents[i] == ents0[i];
    NothingCut(ents0, ents, ents, i, f, if ents[i].Used() then f else f.(empty := i), s, e, start, opt);
    KeptSlots(ents0, ents, ktab, i, f, s, e, start, opt);
  }

  /** A replacement finds the entry it takes over in place. */
  lemma StepMatch(ents0: seq<Mapping>, ents: seq<Mapping>, ktab: seq<Mapping>, i: nat, f: Found,
                  s: nat, e: nat, start: nat)
    requires Progress(ents0, ents, ktab, i, f, s, e, start, Replace) && i < |ents|
    requires InTheWay(ents[i], s, e) && Exact(ents[i], s, start) && f.match_ == NOTHING
    ensures Progress(ents0, ents, ktab, i + 1, f.(match_ := i), s, e, start, Replace)
  {
    NothingCut(ents0, ents, ents, i, f, f.(match_ := i), s, e, start, Replace);
    hide Cuts;
  }

  lemma NotOverReplaced(ents0: seq<Mapping>, i: nat, s: nat, e: nat, start: nat, opt: MapOpt)
    requires Scannable(ents0, s, e, start, opt) && i < |ents0| && ents0[i].delayed
    ensures opt == Replace ==> !ents0[i].Overlaps(s, e)
  {
  }

  lemma DelayedSlots(ents0: seq<Mapping>, ents: seq<Mapping>, ktab: seq<Mapping>, i: nat, f: Found,
                     s: nat, e: nat, start: nat, opt: MapOpt, d: int)
    requires i < |ents0| <= |ents| && ents[i] == ents0[i] && Slots(ents0, ents, ktab, i, f, s, e, start, opt)
    requires ents[i].delayed && (ents[i].Overlaps(s, e) ==> f.overlap == NOTHING && opt != Replace)
    requires d == i || (d == f.delayed && d != NOTHING)
    ensures Slots(ents0, ents, ktab, i + 1,
                  f.(delayed := d, overlap := if ents[i].Overlaps(s, e) then i else f.overlap), s, e, start, opt)
  {
  }

  /** A delayed entry that need not be unmapped now. */
  lemma StepDelayed(ents0: seq<Mapping>, ents: seq<Mapping>, ktab: seq<Mapping>, i: nat, f: Found,
                    s: nat, e: nat, start: nat, opt: MapOpt, d: int)
    requires Scannable(ents0, s, e, start, opt)
    requires Progress(ents0, ents, ktab, i, f, s, e, start, opt) && i < |ents|
    requires ents[i].delayed && (ents[i].Overlaps(s, e) ==> f.overlap == NOTHING)
    requires d == i || (d == f.delayed && d != NOTHING)
    ensures Progress(ents0, ents, ktab, i + 1,
                    f.(delayed := d, overlap := if ents[i].Overlaps(s, e) then i else f.overlap), s, e, start, opt)
  {
    hide Scannable, Slots, Cuts;
    assert i < |ents0| && ents[i] == ents0[i];
    NotOverReplaced(ents0, i, s, e, start, opt);
    var f' := f.(delayed := d, overlap := if ents[i].Overlaps(s, e) then i else f.overlap);
    NothingCut(ents0, ents, ents, i, f, f', s, e, start, opt);
    DelayedSlots(ents0, ents, ktab, i, f, s, e, start, opt, d);
  }

  /** A further delayed entry in the way: unmapped at once. */
  lemma StepUnmap(ents0: seq<Mapping>, ents: seq<Mapping>, ktab: seq<Mapping>, i: nat, f: Found,
                  s: nat, e: nat, start: nat, opt: MapOpt, d: int)
    requires Scannable(ents0, s, e, start, opt)
    requires Progress(ents0, ents, ktab, i, f, s, e, start, opt) && i < |ents|
    requires ents[i].kslot < |ktab|
    requires ents[i].delayed && ents[i].Overlaps(s, e) && f.overlap != NOTHING
    requires d == i || (d == f.delayed && d != NOTHING)
    ensures Progress(ents0, ents[i := ents[i].Cleared()], ktab[ents[i].kslot := ents[i].Cleared()], i + 1,
                     f.(delayed := d), s, e, start, opt)
  {
    hide RoomFor, PartsBefore;
    assert i < |ents0| && ents[i] == ents0[i];
    assert opt != Replace;
    NothingCut(ents0, ents, ents[i := ents[i].Cleared()], i, f, f.(delayed := d), s, e, start, opt);
    hide Cuts;
  }

  lemma ClearSound(ents0: seq<Mapping>, ents: seq<Mapping>, ktab: seq<Mapping>, i: nat, s: nat, e: nat)
    requires Sound(ents0, ents, ktab, s, e) && i < |ents| && ents[i].Used()
    requires s <= e && (ents[i].Live() ==> s <= ents[i].va && ents[i].End() <= e)
    ensures ents[i].kslot < |ktab|
    ensures Sound(ents0, ents[i := ents[i].Cleared()], ktab[ents[i].kslot := ents[i].Cleared()], s, e)
  {
    ClearStep(ents, ktab, i);
    ClearMaps(ents, i, s, e);
    ClearDisjoint(ents, i);
  }

  lemma ClearDisjoint(ents: seq<Mapping>, i: nat)
    requires i < |ents|
    ensures Disjoint(ents) ==> Disjoint(ents[i := ents[i].Cleared()])
  {
  }

  /** Clearing an entry changes no translation outside the range it lies in. */
  lemma ClearMaps(ents: seq<Mapping>, i: nat, s: nat, e: nat)
    requires i < |ents| && (ents[i].Live() ==> s <= ents[i].va && ents[i].End() <= e)
    ensures SameMapsOutside(ents, ents[i := ents[i].Cleared()], s, e)
  {
    var ents' := ents[i := ents[i].Cleared()];
    forall p: nat, t: Target | !(s <= p < e)
      ensures Maps(ents, p, t) <==> Maps(ents', p, t)
    {
      if Maps(ents, p, t) {
        var j :| 0 <= j < |ents| && ents[j].Maps(p, t);
        assert ents'[j].Maps(p, t);
      }
      if Maps(ents', p, t) {
        var j :| 0 <= j < |ents'| && ents'[j].Maps(p, t);
        assert ents[j].Maps(p, t);
      }
    }
  }

  // --- A replacement breaks up an entry in its way ---

  /** What is left of entry `i` once the range is cut out of it. */
  function Remains(m: Mapping, s: nat, e: nat, n: nat): (r: seq<Mapping>)
    requires m.Overlaps(s, e)
  {
    if s <= m.va && m.End() <= e then [] else Parts(m, s, e, n)
  }

  /** The kernel has slots for the parts of entry `i`. */
  ghost predicate PartsFit(ents: seq<Mapping>, i: nat, s: nat, e: nat, slots: nat)
    requires i < |ents| && ents[i].Overlaps(s, e)
  {
    var parts := Remains(ents[i], s, e, |ents|);
    parts != [] ==> |ents| + |parts| <= slots
  }

  /** A call that the kernel has room for: a replacement is safe, and any parts it cuts off
      have slots behind those of the table. */
  ghost predicate RoomToReplace(tab: seq<Mapping>, slots: nat, s: nat, e: nat, start: nat, opt: MapOpt) {
    && Scannable(tab, s, e, start, opt)
    && (opt == Replace && PartsBefore(tab, |tab|, s, e, start) > 0 ==> |tab| + PartsBefore(tab, |tab|, s, e, start) <= slots)
  }

  function Broken(ents: seq<Mapping>, i: nat, s: nat, e: nat): seq<Mapping>
    requires i < |ents| && ents[i].Overlaps(s, e)
  {
    (ents + Remains(ents[i], s, e, |ents|))[i := ents[i].Cleared()]
  }

  /** An entry that must be broken up is never a second exact match. */
  lemma BrokenIsForward(ents0: seq<Mapping>, ents: seq<Mapping>, ktab: seq<Mapping>, i: nat, f: Found,
                        s: nat, e: nat, start: nat)
    requires Replaceable(ents0, s, e, start)
    requires Progress(ents0, ents, ktab, i, f, s, e, start, Replace) && i < |ents|
    requires InTheWay(ents[i], s, e) && !(Exact(ents[i], s, start) && f.match_ == NOTHING)
    ensures i < |ents0| && ents[i] == ents0[i]
    ensures !Exact(ents[i], s, start)
    ensures SticksOut(ents[i], s, e) ==> ReversePages !in ents[i].flags
    ensures FreeFrom(ents, |ents|, |Remains(ents[i], s, e, |ents|)|)
  {
    if SticksOut(ents[i], s, e) {
      assert |ents| == |ents0| + PartsBefore(ents0, i, s, e, start);
      FoundRoom(ents0, ents, ktab, i, f, s, e, start, |Parts(ents[i], s, e, |ents|)|);
    }
  }

  /** Entries broken up before have given up their slots. */
  lemma FoundRoom(ents0: seq<Mapping>, ents: seq<Mapping>, ktab: seq<Mapping>, i: nat, f: Found,
                  s: nat, e: nat, start: nat, c: nat)
    requires Progress(ents0, ents, ktab, i, f, s, e, start, Replace)
    requires RoomFor(ents0, i, |ents|, c, s, e, start)
    ensures FreeFrom(ents, |ents|, c)
  {
    forall k: nat | |ents| <= k < |ents| + c
      ensures !SlotInUse(ents, k)
    {
      assert forall j :: !Owns(ents, j, k);
    }
  }

  function BreakFound(f: Found, m: Mapping, i: nat, s: nat, e: nat, d: int): Found {
    f.(overlap := i, delayed := d, front := if m.va < s then i else f.front, back := if e < m.End() then i else f.back)
  }

  lemma BreakTrace(ents0: seq<Mapping>, ents: seq<Mapping>, i: nat, s: nat, e: nat)
    requires Trace(ents0, ents, i, s, e, Replace) && i < |ents0|
    requires InTheWay(ents[i], s, e)
    ensures Trace(ents0, Broken(ents, i, s, e), i + 1, s, e, Replace)
  {
  }

  /** Two entries cut on the same side of the range would overlap each other. */
  lemma BreakCuts(ents0: seq<Mapping>, ents: seq<Mapping>, i: nat, f: Found, s: nat, e: nat, start: nat, d: int)
    requires Replaceable(ents0, s, e, start)
    requires i < |ents0| <= |ents| && Cuts(ents0, ents, i, f, s, e, start, Replace)
    requires InTheWay(ents[i], s, e) && ents[i] == ents0[i] && !Exact(ents[i], s, start)
    ensures Cuts(ents0, Broken(ents, i, s, e), i + 1, BreakFound(f, ents[i], i, s, e, d), s, e, start, Replace)
  {
    CutOnce(ents0, i, f, s, e, start);
    hide Replaceable;
    var ents', parts := Broken(ents, i, s, e), Remains(ents[i], s, e, |ents|);
    assert forall j :: 0 <= j < |ents| && j != i ==> ents'[j] == ents[j];
    assert forall j :: 0 <= j < |parts| ==> ents'[|ents| + j] == parts[j] && parts[j].kslot == |ents| + j;
    assert ents'[i] == ents[i].Cleared();
    hide Broken, Remains;
  }

  lemma BreakFits(ents0: seq<Mapping>, ents: seq<Mapping>, ktab: seq<Mapping>, i: nat, f: Found,
                  s: nat, e: nat, start: nat, d: int)
    requires Replaceable(ents0, s, e, start)
    requires Progress(ents0, ents, ktab, i, f, s, e, start, Replace) && i < |ents0|
    requires InTheWay(ents[i], s, e) && ents[i] == ents0[i] && !Exact(ents[i], s, start)
    ensures RoomToReplace(ents0, |ktab|, s, e, start, Replace) ==> PartsFit(ents, i, s, e, |ktab|)
  {
    BreakCuts(ents0, ents, i, f, s, e, start, d);
    assert Cuts(ents0, ents, i, f, s, e, start, Replace);
    hide Replaceable, Trace, Swept, Slots;
  }

  lemma CutOnce(ents0: seq<Mapping>, i: nat, f: Found, s: nat, e: nat, start: nat)
    requires Replaceable(ents0, s, e, start) && i < |ents0| && InTheWay(ents0[i], s, e)
    ensures 0 <= f.front < i && CutInFront(ents0[f.front], s, e, start) ==> !(ents0[i].va < s)
    ensures 0 <= f.back < i && CutBehind(ents0[f.back], s, e, start) ==> !(e < ents0[i].End())
  {
    hide RoomFor, PartsBefore;
  }

  lemma BreakSlots(ents0: seq<Mapping>, ents: seq<Mapping>, ktab: seq<Mapping>, i: nat, f: Found,
                   s: nat, e: nat, start: nat, d: int, ktab': seq<Mapping>)
    requires i < |ents0| <= |ents| && Slots(ents0, ents, ktab, i, f, s, e, start, Replace)
    requires InTheWay(ents[i], s, e) && ents[i] == ents0[i] && i != f.match_ && !Exact(ents[i], s, start)
    requires d == i || (d == f.delayed && d != NOTHING)
    requires ents[i].kslot < |ktab'| && !SlotInUse(Broken(ents, i, s, e), ents[i].kslot)
    ensures Slots(ents0, Broken(ents, i, s, e), ktab', i + 1, BreakFound(f, ents[i], i, s, e, d), s, e, start, Replace)
  {
    var ents' := Broken(ents, i, s, e);
    assert forall j :: 0 <= j < |ents| && j != i ==> ents'[j] == ents[j];
    assert ents'[i] == ents[i].Cleared();
    hide Broken;
  }

  lemma StepBreak(ents0: seq<Mapping>, ents: seq<Mapping>, ktab: seq<Mapping>, i: nat, f: Found,
                  s: nat, e: nat, start: nat, d: int, ktab': seq<Mapping>)
    requires Replaceable(ents0, s, e, start)
    requires Progress(ents0, ents, ktab, i, f, s, e, start, Replace) && i < |ents0|
    requires InTheWay(ents[i], s, e) && ents[i] == ents0[i] && i != f.match_ && !Exact(ents[i], s, start)
    requires d == i || (d == f.delayed && d != NOTHING)
    requires ents[i].kslot < |ktab'| && !SlotInUse(Broken(ents, i, s, e), ents[i].kslot)
    ensures Progress(ents0, Broken(ents, i, s, e), ktab', i + 1, BreakFound(f, ents[i], i, s, e, d), s, e, start, Replace)
  {
    BreakTrace(ents0, ents, i, s, e);
    BreakCuts(ents0, ents, i, f, s, e, start, d);
    BreakSlots(ents0, ents, ktab, i, f, s, e, start, d, ktab');
    BreakSwept(ents, i, f, s, e, d);
    hide Slots, Cuts, Swept, Trace;
  }

  lemma BreakSwept(ents: seq<Mapping>, i: nat, f: Found, s: nat, e: nat, d: int)
    requires i < |ents| && InTheWay(ents[i], s, e) && Swept(ents, i, f, s, e, Replace)
    requires forall j :: 0 <= j < i && ents[j].delayed ==> !ents[j].Overlaps(s, e)
    ensures Swept(Broken(ents, i, s, e), i + 1, BreakFound(f, ents[i], i, s, e, d), s, e, Replace)
  {
  }

  lemma BreakMaps(ents: seq<Mapping>, i: nat, s: nat, e: nat)
    requires i < |ents| && InTheWay(ents[i], s, e) && s <= e
    requires SticksOut(ents[i], s, e) ==> ReversePages !in ents[i].flags
    ensures SameMapsOutside(ents, Broken(ents, i, s, e), s, e)
  {
    var m, parts, ents' := ents[i], Remains(ents[i], s, e, |ents|), Broken(ents, i, s, e);
    forall p: nat, t: Target | !(s <= p < e)
      ensures Maps(ents, p, t) <==> Maps(ents', p, t)
    {
      if SticksOut(m, s, e) { PartsTranslate(m, s, e, |ents|, p, t); }
      if Maps(ents, p, t) {
        var j :| 0 <= j < |ents| && ents[j].Maps(p, t);
        if j != i {
          assert ents'[j].Maps(p, t);
        } else {
          var k :| 0 <= k < |parts| && parts[k].Maps(p, t);
          assert ents'[|ents| + k].Maps(p, t);
        }
      }
      if Maps(ents', p, t) {
        var j :| 0 <= j < |ents'| && ents'[j].Maps(p, t);
        if j < |ents| {
          assert ents[j].Maps(p, t);
        } else {
          assert parts[j - |ents|].Maps(p, t);
          assert ents[i].Maps(p, t);
        }
      }
    }
  }

  /** A reversed entry that sticks out is cut as if its pages ran forwards: the
      pages it keeps move. So the translations outside the range stay exactly when
      no such entry is cut. */
  lemma BreakMapsExactly(ents: seq<Mapping>, i: nat, s: nat, e: nat)
    requires i < |ents| && InTheWay(ents[i], s, e) && s <= e && Disjoint(ents)
    ensures SameMapsOutside(ents, Broken(ents, i, s, e), s, e) <==>
      !(SticksOut(ents[i], s, e) && ReversePages in ents[i].flags)
  {
    var m := ents[i];
    if SticksOut(m, s, e) && ReversePages in m.flags {
      var p := if e < m.End() then e else m.va;
      var t := Target(m.seg, m.startPage + m.numPages - (p - m.va) - 1, m.flags);
      assert m.Maps(p, t) && Maps(ents, p, t);
      BrokenElsewhere(ents, i, s, e, p, t);
    } else {
      BreakMaps(ents, i, s, e);
    }
  }

  lemma BrokenElsewhere(ents: seq<Mapping>, i: nat, s: nat, e: nat, p: nat, t: Target)
    requires i < |ents| && SticksOut(ents[i], s, e) && s <= e && Disjoint(ents)
    requires ReversePages in ents[i].flags && ents[i].Maps(p, t) && !(s <= p < e)
    ensures !Maps(Broken(ents, i, s, e), p, t)
  {
  }

  lemma BreakDisjoint(ents: seq<Mapping>, i: nat, s: nat, e: nat)
    requires i < |ents| && InTheWay(ents[i], s, e) && Disjoint(ents) && s <= e
    ensures Disjoint(Broken(ents, i, s, e))
  {
  }

  // --- The kernel's side of it ---

  function Filed(ktab: seq<Mapping>, m: Mapping): seq<Mapping> {
    if m.kslot < |ktab| then ktab[m.kslot := m] else ktab
  }

  function FiledAll(ktab: seq<Mapping>, ms: seq<Mapping>): seq<Mapping> {
    if ms == [] then ktab else Filed(FiledAll(ktab, ms[..|ms| - 1]), ms[|ms| - 1])
  }

  lemma FiledFew(ktab: seq<Mapping>, a: Mapping, b: Mapping)
    ensures FiledAll(ktab, []) == ktab && FiledAll(ktab, [a]) == Filed(ktab, a)
    ensures FiledAll(ktab, [a, b]) == Filed(Filed(ktab, a), b)
  {
    assert [a][..0] == [] && [a, b][..1] == [a];
  }

  /** The kernel's table once the parts of entry `i` are filed, under the numbers of the
      cache slots they take, and then the entry's own slot is emptied. */
  function BrokenKernel(ents: seq<Mapping>, ktab: seq<Mapping>, i: nat, s: nat, e: nat): seq<Mapping>
    requires i < |ents| && ents[i].Overlaps(s, e)
  {
    Filed(FiledAll(ktab, Remains(ents[i], s, e, |ents|)), ents[i].Cleared())
  }

  /** Breaking up an entry keeps the tables in step exactly when no entry in use, itself
      included, owns a slot that one of its parts is filed under. */
  lemma BreakExact(ents: seq<Mapping>, ktab: seq<Mapping>, i: nat, s: nat, e: nat)
    requires Coherent(ents, ktab) && i < |ents| && InTheWay(ents[i], s, e)
    requires Remains(ents[i], s, e, |ents|) != [] ==> |ents| + |Remains(ents[i], s, e, |ents|)| <= |ktab|
    ensures Coherent(Broken(ents, i, s, e), BrokenKernel(ents, ktab, i, s, e)) <==>
      FreeFrom(ents, |ents|, |Remains(ents[i], s, e, |ents|)|)
  {
    var parts := Remains(ents[i], s, e, |ents|);
    if FreeFrom(ents, |ents|, |parts|) {
      FiledCoherent(ents, ktab, parts);
      ClearStep(ents + parts, FiledAll(ktab, parts), i);
    } else {
      var k: nat :| |ents| <= k < |ents| + |parts| && SlotInUse(ents, k);
      var j :| Owns(ents, j, k);
      BreakSpoils(ents, FiledAll(ktab, parts), i, s, e, k - |ents|, j);
    }
  }

  lemma {:induction false} FiledCoherent(ents: seq<Mapping>, ktab: seq<Mapping>, parts: seq<Mapping>)
    requires Coherent(ents, ktab) && FreeFrom(ents, |ents|, |parts|) && (parts != [] ==> |ents| + |parts| <= |ktab|)
    requires forall j :: 0 <= j < |parts| ==> parts[j].kslot == |ents| + j && parts[j].flags != {}
    ensures Coherent(ents + parts, FiledAll(ktab, parts)) && |FiledAll(ktab, parts)| == |ktab|
  {
    hide Coherent;
    if parts == [] {
      assert ents + parts == ents;
    } else {
      var front, last := parts[..|parts| - 1], parts[|parts| - 1];
      FiledCoherent(ents, ktab, front);
      assert !SlotInUse(ents + front, last.kslot) by {
        assert !SlotInUse(ents, last.kslot);
        forall j
          ensures !Owns(ents + front, j, last.kslot)
        {
          assert !Owns(ents, j, last.kslot);
        }
      }
      AppendStep(ents + front, FiledAll(ktab, front), last);
      assert ents + parts == ents + front + [last];
    }
  }

  /** If it does, the part and that entry share a slot, or the part's slot is emptied. */
  lemma BreakSpoils(ents: seq<Mapping>, ktab: seq<Mapping>, i: nat, s: nat, e: nat, c: nat, j: int)
    requires i < |ents| && InTheWay(ents[i], s, e) && c < |Remains(ents[i], s, e, |ents|)|
    requires Owns(ents, j, |ents| + c)
    ensures !Coherent(Broken(ents, i, s, e), Filed(ktab, ents[i].Cleared()))
  {
    var ents' := Broken(ents, i, s, e);
    var part := ents'[|ents| + c];
    assert part == Remains(ents[i], s, e, |ents|)[c];
    assert part.Used() && part.kslot == |ents| + c;
    if j == i {
      assert !Backed(ents', Filed(ktab, ents[i].Cleared()));
    } else {
      assert ents'[j] == ents[j];
      assert !DistinctSlots(ents');
    }
  }

  /** A table with a gap, read as one entry that owns the kernel slot under which the first of
      its parts is filed: replacing a page in its middle, by a mapping that goes to the least
      free slot, loses the page behind it. */
  lemma SplitLosesPage(m: Mapping, ktab: seq<Mapping>)
    requires m == Mapping(ObjRef(1, 2), 0, 3, 1, {Read}, false, 10) && ktab == [ZERO, m, ZERO]
    ensures SelfIndexed(ktab) && Disjoint(ktab) && InUse(ktab) == [m] && Coherent([m], ktab)
    ensures var ktab' := BrokenKernel([m], ktab, 0, 11, 12);
      && !Coherent(Broken([m], 0, 11, 12), ktab')
      && Maps(ktab, 12, Target(m.seg, 2, {Read})) && Maps(Broken([m], 0, 11, 12), 12, Target(m.seg, 2, {Read}))
      && !SlotInUse(Broken([m], 0, 11, 12), 0)
      && forall n: Mapping, t: Target :: n.va == 11 && n.numPages == 1 && n.kslot == 0 ==> !Maps(Filed(ktab', n), 12, t)
  {
    hide FiledAll, InUse, Coherent, Disjoint;
    ReadWithGap(m, ktab);
    var t := Target(m.seg, 2, {Read});
    assert ktab[1].Maps(12, t);
    var parts := [BackPart(m, 12, 1), FrontPart(m, 11, 2)];
    assert Remains(m, 11, 12, 1) == parts;
    assert Broken([m], 0, 11, 12)[1].Maps(12, t);
    assert Owns([m], 0, 1);
    assert SlotInUse([m], 1) && |[m]| == 1;
    assert !FreeFrom([m], 1, 2);
    BreakExact([m], ktab, 0, 11, 12);
    FiledFew(ktab, parts[0], parts[1]);
    assert BrokenKernel([m], ktab, 0, 11, 12) == [ZERO, m.Cleared(), parts[1]];
  }

  lemma ReadWithGap(m: Mapping, ktab: seq<Mapping>)
    requires ktab == [ZERO, m, ZERO] && m.kslot == 1 && m.flags != {}
    ensures SelfIndexed(ktab) && Disjoint(ktab) && InUse(ktab) == [m] && Coherent([m], ktab)
  {
    assert ktab[..2][..1] == ktab[..1] && ktab[..1][..0] == [];
    assert InUse(ktab[..1]) == [];
    assert InUse(ktab[..2]) == InUse(ktab[..1]) + [m];
    RefreshCoherent(ktab);
  }
}
