/**
 The last part of `segment_map`: choosing the cache slot and the kernel slot of
 the new mapping, and what the table resolves to once it is written.
 */
module MapInstall {
  import opened Common
  import opened Mappings
  import opened MapScan

  const DELAY_THRESHOLD := 4

  function ChosenSlot(f: Found, ndelayed: nat): int {
    if f.match_ != NOTHING then f.match_
    else if f.overlap != NOTHING then f.overlap
    else if f.delayed != NOTHING && ndelayed > DELAY_THRESHOLD then f.delayed
    else f.empty
  }

  function Written(ents: seq<Mapping>, slot: nat, m: Mapping): seq<Mapping>
    requires slot <= |ents|
  {
    if slot < |ents| then ents[slot := m] else ents + [m]
  }

  /** Some entry other than `k` resolves `p` to `t`. */
  ghost predicate MapsBut(tab: seq<Mapping>, k: int, p: nat, t: Target) {
    exists j :: 0 <= j < |tab| && j != k && tab[j].Maps(p, t)
  }

  lemma WrittenMaps(ents: seq<Mapping>, slot: nat, m: Mapping, p: nat, t: Target)
    requires slot <= |ents|
    ensures Maps(Written(ents, slot, m), p, t) <==> m.Maps(p, t) || MapsBut(ents, slot, p, t)
    ensures Maps(ents, p, t) <==> (slot < |ents| && ents[slot].Maps(p, t)) || MapsBut(ents, slot, p, t)
  {
    var w := Written(ents, slot, m);
    if m.Maps(p, t) { assert w[slot].Maps(p, t); }
    if MapsBut(ents, slot, p, t) {
      var j :| 0 <= j < |ents| && j != slot && ents[j].Maps(p, t);
      assert w[j].Maps(p, t);
    }
    if Maps(w, p, t) {
      var j :| 0 <= j < |w| && w[j].Maps(p, t);
      if j != slot { assert ents[j].Maps(p, t); }
    }
    if Maps(ents, p, t) {
      var j :| 0 <= j < |ents| && ents[j].Maps(p, t);
    }
  }

  lemma {:induction false} SlotIsSafe(
    ents0: seq<Mapping>, ents: seq<Mapping>, ktab: seq<Mapping>, f: Found,
    s: nat, e: nat, start: nat, opt: MapOpt, ndelayed: nat)
    requires Scannable(ents0, s, e, start, opt)
    requires Progress(ents0, ents, ktab, |ents|, f, s, e, start, opt)
    ensures 0 <= ChosenSlot(f, ndelayed) <= |ents|
    ensures |ents| <= |ents0| + 2
    ensures ChosenSlot(f, ndelayed) == |ents| ==> |ents| == |ents0|
    ensures ChosenSlot(f, ndelayed) < |ents| && ChosenSlot(f, ndelayed) != f.match_ ==> !ents[ChosenSlot(f, ndelayed)].Live()
    ensures forall j :: 0 <= j < |ents| && j != ChosenSlot(f, ndelayed) && ents[j].Used() && ents[j].Overlaps(s, e) ==>
      opt == Overlap && ents[j].Live()
  {
  }

  /** Breaking up the other entries in the range leaves alone what the entries other than
      the match resolve outside it. */
  lemma MatchedMaps(
    ents0: seq<Mapping>, ents: seq<Mapping>, ktab: seq<Mapping>, f: Found,
    s: nat, e: nat, start: nat, p: nat, t: Target)
    requires Replaceable(ents0, s, e, start)
    requires Progress(ents0, ents, ktab, |ents|, f, s, e, start, Replace)
    requires SameMapsOutside(ents0, ents, s, e)
    requires f.match_ != NOTHING && !(s <= p < e)
    ensures MapsBut(ents0, f.match_, p, t) <==> MapsBut(ents, f.match_, p, t)
  {
    var x := f.match_;
    if ents0[x].va <= p < ents0[x].End() {
      LongMatchIsAlone(ents0, ents, ktab, f, s, e, start);
    } else {
      WrittenMaps(ents0, x, ents0[x], p, t);
      WrittenMaps(ents, x, ents[x], p, t);
    }
  }

  /** A match that reaches past the range leaves nothing else in it to break up. */
  lemma LongMatchIsAlone(
    ents0: seq<Mapping>, ents: seq<Mapping>, ktab: seq<Mapping>, f: Found, s: nat, e: nat, start: nat)
    requires Replaceable(ents0, s, e, start)
    requires Progress(ents0, ents, ktab, |ents|, f, s, e, start, Replace)
    requires f.match_ != NOTHING && ents0[f.match_].End() > e
    ensures ents == ents0
  {
  }

  /** Translations once `m` is written into the chosen slot. */
  lemma InstalledMaps(
    ents0: seq<Mapping>, ents: seq<Mapping>, ktab: seq<Mapping>, f: Found,
    s: nat, e: nat, start: nat, opt: MapOpt, ndelayed: nat, m: Mapping, p: nat, t: Target)
    requires Scannable(ents0, s, e, start, opt)
    requires Progress(ents0, ents, ktab, |ents|, f, s, e, start, opt)
    requires SameMapsOutside(ents0, ents, s, e)
    requires m.va == s && m.End() == e
    requires 0 <= ChosenSlot(f, ndelayed) <= |ents|
    ensures f.match_ == NOTHING ==>
      (Maps(Written(ents, ChosenSlot(f, ndelayed), m), p, t) <==>
       m.Maps(p, t) || ((opt == Overlap || !(s <= p < e)) && Maps(ents0, p, t)))
    ensures f.match_ != NOTHING ==>
      (Maps(Written(ents, ChosenSlot(f, ndelayed), m), p, t) <==>
       m.Maps(p, t) || (!(s <= p < e) && MapsBut(ents0, f.match_, p, t)))
  {
    var slot := ChosenSlot(f, ndelayed);
    if f.match_ != NOTHING && !(s <= p < e) { MatchedMaps(ents0, ents, ktab, f, s, e, start, p, t); }
    WrittenMaps(ents, slot, m, p, t);
    SlotIsSafe(ents0, ents, ktab, f, s, e, start, opt, ndelayed);
    if MapsBut(ents, slot, p, t) && s <= p < e {
      var j :| 0 <= j < |ents| && j != slot && ents[j].Maps(p, t);
      assert ents[j].Overlaps(s, e);
    }
    if opt == Overlap && s <= p < e {
      OverlapKeeps(ents0, ents, s, e, p, t);
    }
  }

  /** Mapping over live entries leaves them all in place. */
  lemma OverlapKeeps(ents0: seq<Mapping>, ents: seq<Mapping>, s: nat, e: nat, p: nat, t: Target)
    requires Trace(ents0, ents, |ents|, s, e, Overlap) && |ents| == |ents0|
    ensures Maps(ents0, p, t) <==> Maps(ents, p, t)
  {
  }

  lemma InstalledDisjoint(ents: seq<Mapping>, slot: nat, m: Mapping)
    requires slot <= |ents| && Disjoint(ents)
    requires forall j :: 0 <= j < |ents| && j != slot && ents[j].Used() ==> !ents[j].Overlaps(m.va, m.End())
    ensures Disjoint(Written(ents, slot, m))
  {
  }

  // --- What a successful call does to the table ---

  /** The new mapping owns its range (or shares it, under `Overlap`); every other page is as before. */
  ghost predicate Resolves(tab: seq<Mapping>, tab': seq<Mapping>, m: Mapping, opt: MapOpt) {
    forall p: nat, t: Target ::
      Maps(tab', p, t) <==> m.Maps(p, t) || ((opt == Overlap || !(m.va <= p < m.End())) && Maps(tab, p, t))
  }

  /** The same when entry `x` was replaced in place: its other pages are gone. */
  ghost predicate ResolvesBut(tab: seq<Mapping>, tab': seq<Mapping>, m: Mapping, x: int) {
    forall p: nat, t: Target ::
      Maps(tab', p, t) <==> m.Maps(p, t) || (!(m.va <= p < m.End()) && MapsBut(tab, x, p, t))
  }

  ghost predicate NoExact(tab: seq<Mapping>, s: nat, e: nat, start: nat, opt: MapOpt) {
    opt == Replace ==> forall j :: 0 <= j < |tab| ==> !(Blocks(tab[j], s, e) && tab[j].va == s && tab[j].startPage == start)
  }

  /** Entry `x` is replaced in place. */
  ghost predicate ExactAt(tab: seq<Mapping>, s: nat, e: nat, start: nat, x: nat) {
    x < |tab| && Blocks(tab[x], s, e) && tab[x].va == s && tab[x].startPage == start
  }

  /** Entry `x` is replaced in place and nothing else is in the range. */
  ghost predicate OnlyExact(tab: seq<Mapping>, s: nat, e: nat, start: nat, x: nat) {
    && ExactAt(tab, s, e, start, x)
    && forall j :: 0 <= j < |tab| && j != x && tab[j].Used() ==> !tab[j].Overlaps(s, e)
  }

  predicate UpToSlot(m: Mapping, m': Mapping) {
    m' == m.(kslot := m'.kslot)
  }

  /** Equal up to kernel slot numbers. */
  ghost predicate Renumbered(x: seq<Mapping>, y: seq<Mapping>) {
    |x| == |y| && forall i :: 0 <= i < |x| ==> UpToSlot(x[i], y[i])
  }

  /** `m` was replaced in place of entry `x` alone. */
  ghost predicate ExactTable(tab: seq<Mapping>, tab': seq<Mapping>, m: Mapping, x: nat) {
    x < |tab| && Renumbered(tab[x := m], tab')
  }

  /** `m` was added in a slot that held nothing live; live entries stayed. */
  ghost predicate OverlapTable(tab: seq<Mapping>, tab': seq<Mapping>, m: Mapping, slot: nat) {
    && slot < |tab'| && |tab| <= |tab'| <= |tab| + 1
    && (|tab'| == |tab| + 1 ==> slot == |tab|)
    && UpToSlot(m, tab'[slot])
    && (slot < |tab| ==> !tab[slot].Live())
    && forall j :: 0 <= j < |tab| && j != slot ==> UpToSlot(tab[j], tab'[j]) || (tab[j].delayed && !tab'[j].Used())
  }

  lemma MatchIsExact(
    ents0: seq<Mapping>, ents: seq<Mapping>, ktab: seq<Mapping>, f: Found,
    s: nat, e: nat, start: nat, opt: MapOpt, x: nat)
    requires Scannable(ents0, s, e, start, opt)
    requires Progress(ents0, ents, ktab, |ents|, f, s, e, start, opt)
    ensures NoExact(ents0, s, e, start, opt) ==> f.match_ == NOTHING
    ensures opt == Replace && ExactAt(ents0, s, e, start, x) ==> f.match_ == x
    ensures opt == Replace && OnlyExact(ents0, s, e, start, x) ==> f.overlap == NOTHING
  {
  }

  /** An ordinary mapping succeeds only when nothing live is in its way. */
  lemma PlainIsFree(
    ents0: seq<Mapping>, ents: seq<Mapping>, ktab: seq<Mapping>, f: Found, s: nat, e: nat, start: nat)
    requires Progress(ents0, ents, ktab, |ents|, f, s, e, start, Plain)
    ensures forall j :: 0 <= j < |ents0| ==> !InTheWay(ents0[j], s, e)
  {
  }

  // --- The free kernel slot ---

  function UsedCount(ents: seq<Mapping>): nat {
    if |ents| == 0 then 0
    else UsedCount(ents[..|ents| - 1]) + if ents[|ents| - 1].Used() then 1 else 0
  }

  ghost function UsedSlots(ents: seq<Mapping>): set<nat> {
    if |ents| == 0 then {}
    else UsedSlots(ents[..|ents| - 1]) + if ents[|ents| - 1].Used() then {ents[|ents| - 1].kslot} else {}
  }

  lemma {:induction false} UsedSlotsCount(ents: seq<Mapping>)
    ensures |UsedSlots(ents)| <= UsedCount(ents) <= |ents|
  {
    if |ents| > 0 { UsedSlotsCount(ents[..|ents| - 1]); }
  }

  lemma {:induction false} SomeUnused(ents: seq<Mapping>, i: nat)
    requires i < |ents| && !ents[i].Used()
    ensures UsedCount(ents) < |ents|
  {
    UsedSlotsCount(ents[..|ents| - 1]);
    if i < |ents| - 1 { SomeUnused(ents[..|ents| - 1], i); }
  }

  lemma {:induction false} InUsedSlots(ents: seq<Mapping>, i: nat)
    requires i < |ents| && ents[i].Used()
    ensures ents[i].kslot in UsedSlots(ents)
  {
    if i < |ents| - 1 { InUsedSlots(ents[..|ents| - 1], i); }
  }

  ghost function Below(k: nat): (r: set<nat>)
    ensures |r| == k && forall j :: j in r <==> 0 <= j < k
  {
    if k == 0 then {} else Below(k - 1) + {k - 1}
  }

  /** If every slot below `k` is in use, `k` is at most the number of entries in use. */
  lemma LeastFreeSlot(ents: seq<Mapping>, k: nat)
    requires forall j: nat :: j < k ==> SlotInUse(ents, j)
    ensures k <= UsedCount(ents)
  {
    UsedSlotsCount(ents);
    forall j | j in Below(k)
      ensures j in UsedSlots(ents)
    {
      assert SlotInUse(ents, j);
      var i :| Owns(ents, i, j);
      InUsedSlots(ents, i);
    }
    SubsetSize(Below(k), UsedSlots(ents));
  }
}
