/**
 Values of the address-space mapper: segment mappings, the cached table and the
 kernel's slot table, and what it means for the one to be a cache of the other.
 Addresses are page numbers.
 */
module Mappings {

  /** The bits of a mapping's flag word, except the delayed-unmap bit, which is
      kept apart as `delayed`. */
  datatype Flag = Exec | Write | Read | ReversePages | Cloexec | AnonMmap | VectorPf | Stack

  datatype ObjRef = ObjRef(container: nat, id: nat)

  /** What a page resolves to: a page of a segment, with access flags. */
  datatype Target = Target(seg: ObjRef, page: int, flags: set<Flag>)

  datatype Mapping = Mapping(
    seg: ObjRef, startPage: nat, numPages: nat, kslot: nat,
    flags: set<Flag>, delayed: bool, va: nat)
  {
    function End(): nat { va + numPages }

    /** The flag word is not zero. */
    predicate Used() { flags != {} || delayed }

    /** In use and not waiting to be unmapped. */
    predicate Live() { flags != {} && !delayed }

    predicate Overlaps(s: nat, e: nat) { va < e && s < End() }

    /** The translation of page `p` through this mapping, as the library sees it. */
    ghost predicate Maps(p: nat, t: Target) {
      && flags != {} && !delayed
      && va <= p < va + numPages
      && t == Target(seg,
                     if ReversePages in flags then startPage + numPages - (p - va) - 1 else startPage + (p - va),
                     flags)
    }

    function Cleared(): Mapping { this.(flags := {}, delayed := false) }
  }

  /** Ranges overlap, if neither is empty, exactly where they share a page. */
  lemma OverlapsMeans(m: Mapping, s: nat, e: nat)
    requires m.numPages > 0 && s < e
    ensures m.Overlaps(s, e) <==> exists p: nat :: Shares(m, s, e, p)
  {
    if m.Overlaps(s, e) { assert Shares(m, s, e, if m.va <= s then s else m.va); }
  }

  ghost predicate Shares(m: Mapping, s: nat, e: nat, p: nat) {
    m.va <= p < m.va + m.numPages && s <= p < e
  }

  const ZERO := Mapping(ObjRef(0, 0), 0, 0, 0, {}, false, 0)

  /** Page `p` resolves to `t` through some live entry of the table. */
  ghost predicate Maps(tab: seq<Mapping>, p: nat, t: Target) {
    exists i :: 0 <= i < |tab| && tab[i].Maps(p, t)
  }

  ghost predicate SameMaps(a: seq<Mapping>, b: seq<Mapping>) {
    forall p: nat, t: Target :: Maps(a, p, t) <==> Maps(b, p, t)
  }

  ghost predicate SameMapsOutside(a: seq<Mapping>, b: seq<Mapping>, s: nat, e: nat) {
    forall p: nat, t: Target :: !(s <= p < e) ==> (Maps(a, p, t) <==> Maps(b, p, t))
  }

  /** No two entries in use overlap, delayed ones included. */
  ghost predicate Disjoint(tab: seq<Mapping>) {
    forall i, j :: 0 <= i < j < |tab| && tab[i].Used() && tab[j].Used() ==>
      !tab[i].Overlaps(tab[j].va, tab[j].End())
  }

  /** The kernel files a mapping under its own slot number; a slot in use has
      some flag besides the delayed bit. */
  ghost predicate SelfIndexed(ktab: seq<Mapping>) {
    forall k :: 0 <= k < |ktab| && ktab[k].Used() ==> ktab[k].kslot == k && ktab[k].flags != {}
  }

  ghost predicate Backed(ents: seq<Mapping>, ktab: seq<Mapping>) {
    forall i :: 0 <= i < |ents| && ents[i].Used() ==>
      && ents[i].kslot < |ktab|
      && ents[i].flags != {}
      && ktab[ents[i].kslot].(delayed := ents[i].delayed) == ents[i]
  }

  ghost predicate DistinctSlots(ents: seq<Mapping>) {
    forall i, j :: 0 <= i < j < |ents| && ents[i].Used() && ents[j].Used() ==> ents[i].kslot != ents[j].kslot
  }

  ghost predicate Owns(ents: seq<Mapping>, i: int, k: nat) {
    0 <= i < |ents| && ents[i].Used() && ents[i].kslot == k
  }

  ghost predicate SlotInUse(ents: seq<Mapping>, k: nat) {
    exists i :: Owns(ents, i, k)
  }

  ghost predicate Owned(ents: seq<Mapping>, ktab: seq<Mapping>) {
    forall k :: 0 <= k < |ktab| && ktab[k].Used() ==> SlotInUse(ents, k)
  }

  /** The kernel table is exactly the cached entries in use, up to the delayed bit. */
  ghost predicate Coherent(ents: seq<Mapping>, ktab: seq<Mapping>) {
    Backed(ents, ktab) && DistinctSlots(ents) && Owned(ents, ktab)
  }

  ghost predicate SlotsBelow(ents: seq<Mapping>, n: nat) {
    forall i :: 0 <= i < |ents| && ents[i].Used() ==> ents[i].kslot < n
  }

  /** No entry in use owns one of `c` slots from `n` on. */
  ghost predicate FreeFrom(ents: seq<Mapping>, n: nat, c: nat) {
    forall k: nat :: n <= k < n + c ==> !SlotInUse(ents, k)
  }

  /** `b` is `a` with some used slots emptied. */
  ghost predicate Shrinks(a: seq<Mapping>, b: seq<Mapping>) {
    |a| == |b| && forall k :: 0 <= k < |a| ==> b[k] == a[k] || !b[k].Used()
  }

  // --- Elementary steps that keep cache and kernel coherent ---

  lemma ClearStep(ents: seq<Mapping>, ktab: seq<Mapping>, i: nat)
    requires Coherent(ents, ktab) && i < |ents|
    requires ents[i].Used() || (ents[i].kslot < |ktab| && !SlotInUse(ents, ents[i].kslot))
    ensures ents[i].kslot < |ktab|
    ensures Coherent(ents[i := ents[i].Cleared()], ktab[ents[i].kslot := ents[i].Cleared()])
  {
    var c := ents[i].Cleared();
    var ents', ktab' := ents[i := c], ktab[ents[i].kslot := c];
    forall j | 0 <= j < |ents| && ents'[j].Used()
      ensures ents'[j].kslot != ents[i].kslot
    {
      assert Owns(ents, j, ents[j].kslot);
    }
    forall k | 0 <= k < |ktab'| && ktab'[k].Used()
      ensures SlotInUse(ents', k)
    {
      var j :| Owns(ents, j, k);
      assert Owns(ents', j, k);
    }
  }

  /** Writing `m` over an entry in use, at that entry's own kernel slot. */
  lemma OverwriteStep(ents: seq<Mapping>, ktab: seq<Mapping>, i: nat, m: Mapping)
    requires Coherent(ents, ktab) && i < |ents| && ents[i].Used()
    requires m.flags != {} && m.kslot == ents[i].kslot
    ensures Coherent(ents[i := m], ktab[m.kslot := m])
  {
    var ents', ktab' := ents[i := m], ktab[m.kslot := m];
    assert Owns(ents', i, m.kslot);
    forall k | 0 <= k < |ktab'| && ktab'[k].Used()
      ensures SlotInUse(ents', k)
    {
      if k != m.kslot {
        var j :| Owns(ents, j, k);
        assert Owns(ents', j, k);
      }
    }
  }

  /** Writing `m` over an empty entry, at a kernel slot within the table:
      coherent exactly when no entry in use already owns that slot. */
  lemma FillStep(ents: seq<Mapping>, ktab: seq<Mapping>, i: nat, m: Mapping)
    requires Coherent(ents, ktab) && i < |ents| && !ents[i].Used()
    requires m.flags != {} && m.kslot < |ktab|
    ensures Coherent(ents[i := m], ktab[m.kslot := m]) <==> !SlotInUse(ents, m.kslot)
  {
    var ents', ktab' := ents[i := m], ktab[m.kslot := m];
    assert Owns(ents', i, m.kslot);
    if SlotInUse(ents, m.kslot) {
      var j :| Owns(ents, j, m.kslot);
      assert Owns(ents', j, m.kslot);
      assert !DistinctSlots(ents');
    } else {
      forall j | 0 <= j < |ents| && ents[j].Used()
        ensures ents[j].kslot != m.kslot
      {
        assert Owns(ents, j, ents[j].kslot);
      }
      forall k | 0 <= k < |ktab'| && ktab'[k].Used()
        ensures SlotInUse(ents', k)
      {
        if k != m.kslot {
          var j :| Owns(ents, j, k);
          assert Owns(ents', j, k);
        }
      }
    }
  }

  /** The same for an entry appended at the end of the cached table. */
  lemma AppendStep(ents: seq<Mapping>, ktab: seq<Mapping>, m: Mapping)
    requires Coherent(ents, ktab)
    requires m.flags != {} && m.kslot < |ktab|
    ensures Coherent(ents + [m], ktab[m.kslot := m]) <==> !SlotInUse(ents, m.kslot)
  {
    var padded := ents + [ZERO];
    assert Coherent(padded, ktab) by {
      forall k | 0 <= k < |ktab| && ktab[k].Used()
        ensures SlotInUse(padded, k)
      {
        var j :| Owns(ents, j, k);
        assert Owns(padded, j, k);
      }
    }
    FillStep(padded, ktab, |ents|, m);
    assert padded[|ents| := m] == ents + [m];
    if SlotInUse(padded, m.kslot) {
      var j :| Owns(padded, j, m.kslot);
      assert Owns(ents, j, m.kslot);
    }
    if SlotInUse(ents, m.kslot) {
      var j :| Owns(ents, j, m.kslot);
      assert Owns(padded, j, m.kslot);
    }
  }

  /** Setting or clearing the delayed bit never touches the kernel. */
  lemma DelayStep(ents: seq<Mapping>, ktab: seq<Mapping>, i: nat, d: bool)
    requires Coherent(ents, ktab) && i < |ents| && ents[i].flags != {}
    ensures Coherent(ents[i := ents[i].(delayed := d)], ktab)
  {
    var ents' := ents[i := ents[i].(delayed := d)];
    forall k | 0 <= k < |ktab| && ktab[k].Used()
      ensures SlotInUse(ents', k)
    {
      var j :| Owns(ents, j, k);
      assert Owns(ents', j, k);
    }
  }

  lemma DisjointFromCoherent(ents: seq<Mapping>, ktab: seq<Mapping>)
    requires Coherent(ents, ktab)
    ensures Disjoint(ents) <==> Disjoint(ktab)
    ensures SelfIndexed(ktab)
  {
  }

  lemma ShrinkKeeps(a: seq<Mapping>, b: seq<Mapping>)
    requires Shrinks(a, b)
    ensures SelfIndexed(a) ==> SelfIndexed(b)
    ensures Disjoint(a) ==> Disjoint(b)
  {
  }

  // --- Reading the kernel table back into the cache ---

  /** The entries `sys_as_get` returns: the slots in use, in slot order. */
  function InUse(ktab: seq<Mapping>): (r: seq<Mapping>) {
    if |ktab| == 0 then []
    else
      var last := ktab[|ktab| - 1];
      InUse(ktab[..|ktab| - 1]) + if last.Used() then [last] else []
  }

  lemma {:induction false} InUseContents(ktab: seq<Mapping>)
    requires SelfIndexed(ktab)
    ensures |InUse(ktab)| <= |ktab|
    ensures forall i :: 0 <= i < |InUse(ktab)| ==>
      var m := InUse(ktab)[i]; m.Used() && m.kslot < |ktab| && ktab[m.kslot] == m
    ensures forall i, j :: 0 <= i < j < |InUse(ktab)| ==> InUse(ktab)[i].kslot < InUse(ktab)[j].kslot
    ensures forall k :: 0 <= k < |ktab| && ktab[k].Used() ==> SlotInUse(InUse(ktab), k)
  {
    if |ktab| > 0 {
      var init, last := ktab[..|ktab| - 1], ktab[|ktab| - 1];
      InUseContents(init);
      forall k | 0 <= k < |ktab| && ktab[k].Used()
        ensures SlotInUse(InUse(ktab), k)
      {
        if k < |init| {
          assert init[k].Used();
          var i :| Owns(InUse(init), i, k);
          assert Owns(InUse(ktab), i, k);
        } else {
          assert Owns(InUse(ktab), |InUse(init)|, k);
        }
      }
    }
  }

  lemma InUseMaps(ktab: seq<Mapping>)
    requires SelfIndexed(ktab)
    ensures SameMaps(InUse(ktab), ktab)
  {
    hide InUse, SelfIndexed;
    var ents := InUse(ktab);
    InUseContents(ktab);
    forall p: nat, t: Target
      ensures Maps(ents, p, t) <==> Maps(ktab, p, t)
    {
      if Maps(ents, p, t) {
        var i :| 0 <= i < |ents| && ents[i].Maps(p, t);
        assert ktab[ents[i].kslot].Maps(p, t);
      }
      if Maps(ktab, p, t) {
        var k :| 0 <= k < |ktab| && ktab[k].Maps(p, t);
        var i :| Owns(ents, i, k);
        assert ents[i].Maps(p, t);
      }
    }
  }

  /** A freshly read cache is coherent and resolves pages as the kernel's copy says. */
  lemma RefreshCoherent(ktab: seq<Mapping>)
    requires SelfIndexed(ktab)
    ensures Coherent(InUse(ktab), ktab)
    ensures SameMaps(InUse(ktab), ktab)
    ensures Disjoint(InUse(ktab)) <==> Disjoint(ktab)
  {
    hide InUse, SameMaps, Disjoint;
    InUseContents(ktab);
    InUseMaps(ktab);
    DisjointFromCoherent(InUse(ktab), ktab);
  }

  /** With no delayed bits on either side of a live entry, cache and kernel agree. */
  lemma UnmarkedSameMaps(ents: seq<Mapping>, ktab: seq<Mapping>)
    requires Coherent(ents, ktab)
    requires forall i :: 0 <= i < |ents| ==> !ents[i].delayed
    requires forall i :: 0 <= i < |ents| && ents[i].Live() && ents[i].numPages > 0 ==> !ktab[ents[i].kslot].delayed
    ensures SameMaps(ents, ktab)
  {
  }

  /** A live entry whose kernel copy is marked delayed is lost on a re-read. */
  lemma MarkedEntryLost(ents: seq<Mapping>, ktab: seq<Mapping>, i: nat)
    requires Coherent(ents, ktab) && Disjoint(ents)
    requires i < |ents| && ents[i].Live() && ents[i].numPages > 0 && ktab[ents[i].kslot].delayed
    ensures !SameMaps(ents, ktab)
  {
    var m := ents[i];
    var t := Target(m.seg, if ReversePages in m.flags then m.startPage + m.numPages - 1 else m.startPage, m.flags);
    assert m.Maps(m.va, t);
    if Maps(ktab, m.va, t) {
      var k :| 0 <= k < |ktab| && ktab[k].Maps(m.va, t);
      var j :| Owns(ents, j, k);
      assert ents[j].va == ktab[k].va && ents[j].End() == ktab[k].End();
      assert i < j ==> ents[i].Overlaps(ents[j].va, ents[j].End());
      assert j < i ==> ents[j].Overlaps(ents[i].va, ents[i].End());
    }
  }

  /** Dropping a flushed cache and reading it back gives the same translations
      exactly when no live entry with pages is marked delayed in the kernel. */
  lemma RereadPreservesMaps(ents: seq<Mapping>, ktab: seq<Mapping>)
    requires Coherent(ents, ktab) && Disjoint(ents)
    requires forall i :: 0 <= i < |ents| ==> !ents[i].delayed
    ensures SameMaps(ents, InUse(ktab)) <==>
      forall i :: 0 <= i < |ents| && ents[i].Live() && ents[i].numPages > 0 ==> !ktab[ents[i].kslot].delayed
  {
    DisjointFromCoherent(ents, ktab);
    RefreshCoherent(ktab);
    if i :| 0 <= i < |ents| && ents[i].Live() && ents[i].numPages > 0 && ktab[ents[i].kslot].delayed {
      MarkedEntryLost(ents, ktab, i);
    } else {
      UnmarkedSameMaps(ents, ktab);
    }
  }

  // --- Slot numbers ---

  /** No free slot lies below one in use. */
  ghost predicate GapFree(ktab: seq<Mapping>) {
    forall j, k :: 0 <= j < k < |ktab| && ktab[k].Used() ==> ktab[j].Used()
  }

  lemma {:induction false} InUseOfFull(ktab: seq<Mapping>)
    requires forall k :: 0 <= k < |ktab| ==> ktab[k].Used()
    ensures InUse(ktab) == ktab
  {
    if ktab != [] { InUseOfFull(ktab[..|ktab| - 1]); }
  }

  lemma {:induction false} GapFreeBelow(ktab: seq<Mapping>)
    requires SelfIndexed(ktab) && GapFree(ktab)
    ensures SlotsBelow(InUse(ktab), |InUse(ktab)|)
  {
    if ktab != [] {
      if ktab[|ktab| - 1].Used() { InUseOfFull(ktab); } else { GapFreeBelow(ktab[..|ktab| - 1]); }
    }
  }

  /** Slot numbers that increase and stay below their number are the indices. */
  lemma {:induction false} IncreasingSlots(ents: seq<Mapping>, i: nat)
    requires forall i, j :: 0 <= i < j < |ents| ==> ents[i].kslot < ents[j].kslot
    requires forall i :: 0 <= i < |ents| ==> ents[i].kslot < |ents|
    requires i < |ents|
    ensures ents[i].kslot == i
  {
    AtLeastIndex(ents, i);
    AtMostIndex(ents, i);
  }

  lemma {:induction false} AtLeastIndex(ents: seq<Mapping>, i: nat)
    requires i < |ents| && forall i, j :: 0 <= i < j < |ents| ==> ents[i].kslot < ents[j].kslot
    ensures ents[i].kslot >= i
  {
    if i > 0 { AtLeastIndex(ents, i - 1); }
  }

  lemma {:induction false} AtMostIndex(ents: seq<Mapping>, i: nat)
    requires i < |ents| && forall i, j :: 0 <= i < j < |ents| ==> ents[i].kslot < ents[j].kslot
    requires forall i :: 0 <= i < |ents| ==> ents[i].kslot < |ents|
    ensures ents[i].kslot <= i
    decreases |ents| - i
  {
    if i < |ents| - 1 { AtMostIndex(ents, i + 1); }
  }

  /** Slot numbers lie below the entry count after a re-read exactly when the
      kernel's table has no gap. */
  lemma RereadSlotsBelow(ktab: seq<Mapping>)
    requires SelfIndexed(ktab)
    ensures SlotsBelow(InUse(ktab), |InUse(ktab)|) <==> GapFree(ktab)
  {
    if GapFree(ktab) {
      GapFreeBelow(ktab);
    } else {
      var ents := InUse(ktab);
      InUseContents(ktab);
      if SlotsBelow(ents, |ents|) {
        forall j, k | 0 <= j < k < |ktab| && ktab[k].Used()
          ensures ktab[j].Used()
        {
          var i :| Owns(ents, i, k);
          IncreasingSlots(ents, i);
          IncreasingSlots(ents, j);
        }
      }
    }
  }

  /** A kernel table with a gap: slot 0 is free and slot 1 in use. */
  lemma RereadBreaksSlotsBelow()
    returns (ktab: seq<Mapping>)
    ensures SelfIndexed(ktab) && Disjoint(ktab)
    ensures !SlotsBelow(InUse(ktab), |InUse(ktab)|)
  {
    ktab := [ZERO, Mapping(ObjRef(1, 2), 0, 1, 1, {Read}, false, 10)];
    assert ktab[1].Used() && !ktab[0].Used();
    RereadSlotsBelow(ktab);
  }
}
