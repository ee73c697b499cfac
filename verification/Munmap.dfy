/**
 `munmap` (lib/mmap.c): unmapping part of an anonymous mapping by mapping the
 chunk to its right over it, and then shrinking it to the chunk on its left.
 */
module Munmap {
  import opened Common
  import opened Mappings
  import opened MapScan
  import opened MapInstall
  import opened AddressSpace

  const PGSIZE: nat := 4096

  datatype Result = Done(unref: bool) | Einval | Enosys | Eperm | Dead

  /** Entry `x`, not at address 0, holds pages `[p, p + n)`. */
  ghost predicate Hosts(tab: seq<Mapping>, x: nat, p: nat, n: nat) {
    && x < |tab| && tab[x].Live()
    && 0 < tab[x].va <= p < tab[x].End() && p + n <= tab[x].End()
  }

  function LeftChunk(o: Mapping, p: nat): Mapping
    requires o.va <= p
  {
    Fresh(o.seg, o.startPage, o.flags, o.va, p - o.va)
  }

  function RightChunk(o: Mapping, p: nat, n: nat): Mapping
    requires o.va <= p && p + n <= o.End()
  {
    Fresh(o.seg, o.startPage + (p - o.va) + n, o.flags, p + n, o.End() - (p + n))
  }

  /** Exactly the pages `[p, p + n)` lose their translation. */
  ghost predicate Removes(tab: seq<Mapping>, tab': seq<Mapping>, p: nat, n: nat) {
    forall q: nat, t: Target :: Maps(tab', q, t) <==> Maps(tab, q, t) && !(p <= q < p + n)
  }

  /** Entry `x` gave way to its two chunks. */
  ghost predicate Chunked(tab: seq<Mapping>, tab': seq<Mapping>, x: nat, p: nat, n: nat)
    requires Hosts(tab, x, p, n)
  {
    && Disjoint(tab')
    && forall q: nat, t: Target :: Maps(tab', q, t) <==>
         MapsBut(tab, x, q, t) || LeftChunk(tab[x], p).Maps(q, t) || RightChunk(tab[x], p, n).Maps(q, t)
  }

  /** Whether cutting pages out of `o` keeps the others: always if its pages run
      forwards; if backwards, only when nothing is cut off `o`. */
  predicate CutsCleanly(o: Mapping, p: nat, n: nat) {
    ReversePages !in o.flags || (o.va == p && (p + n == o.End() || n == 0))
  }

  lemma ChunksTranslate(o: Mapping, p: nat, n: nat, q: nat, t: Target)
    requires o.Live() && o.va <= p < o.End() && p + n <= o.End() && CutsCleanly(o, p, n)
    ensures LeftChunk(o, p).Maps(q, t) || RightChunk(o, p, n).Maps(q, t) <==> o.Maps(q, t) && !(p <= q < p + n)
  {
  }

  lemma Apart(tab: seq<Mapping>, x: nat)
    requires Disjoint(tab) && x < |tab| && tab[x].Used()
    ensures forall j :: 0 <= j < |tab| && j != x && tab[j].Used() ==> !tab[j].Overlaps(tab[x].va, tab[x].End())
  {
  }

  lemma OthersElsewhere(tab: seq<Mapping>, x: nat, q: nat, t: Target)
    requires Disjoint(tab) && x < |tab| && tab[x].Used()
    ensures MapsBut(tab, x, q, t) ==> !(tab[x].va <= q < tab[x].End())
  {
  }

  /** The page whose translation a backward mapping gets wrong. */
  lemma BackwardsCutIsWrong(tab: seq<Mapping>, tab': seq<Mapping>, x: nat, p: nat, n: nat)
    requires Disjoint(tab) && Hosts(tab, x, p, n) && Chunked(tab, tab', x, p, n)
    requires !CutsCleanly(tab[x], p, n)
    ensures !Removes(tab, tab', p, n)
  {
    var o := tab[x];
    var q := if o.va < p then o.va else p + n;
    var t := Target(o.seg, o.startPage + o.numPages - (q - o.va) - 1, o.flags);
    assert o.Maps(q, t);
    OthersElsewhere(tab, x, q, t);
    assert Maps(tab, q, t);
    assert !LeftChunk(o, p).Maps(q, t) && !RightChunk(o, p, n).Maps(q, t);
    assert !Maps(tab', q, t);
  }

  /** The chunks keep exactly the other pages if and only if the cut is clean. */
  lemma ChunkedRemoves(tab: seq<Mapping>, tab': seq<Mapping>, x: nat, p: nat, n: nat)
    requires Disjoint(tab) && Hosts(tab, x, p, n) && Chunked(tab, tab', x, p, n)
    ensures Removes(tab, tab', p, n) <==> CutsCleanly(tab[x], p, n)
    ensures Disjoint(tab')
  {
    if CutsCleanly(tab[x], p, n) {
      forall q: nat, t: Target
        ensures Maps(tab', q, t) <==> Maps(tab, q, t) && !(p <= q < p + n)
      {
        ChunksTranslate(tab[x], p, n, q, t);
        OthersElsewhere(tab, x, q, t);
        WrittenMaps(tab, x, ZERO, q, t);
      }
    } else {
      BackwardsCutIsWrong(tab, tab', x, p, n);
    }
  }

  /** The table between the two steps: entry `x` as it was, the right chunk
      somewhere, and nothing else where entry `x` loses pages. */
  ghost predicate Halfway(tab: seq<Mapping>, mid: seq<Mapping>, x: nat, p: nat, n: nat)
    requires Hosts(tab, x, p, n)
  {
    var o := tab[x];
    && x < |mid| && UpToSlot(o, mid[x])
    && (forall j :: 0 <= j < |mid| && j != x && mid[j].Used() ==> !mid[j].Overlaps(o.va, p + n))
    && Disjoint(mid[x := ZERO])
    && forall q: nat, t: Target :: MapsBut(mid, x, q, t) <==> MapsBut(tab, x, q, t) || RightChunk(o, p, n).Maps(q, t)
  }

  lemma HalfwayNoRight(tab: seq<Mapping>, x: nat, p: nat, n: nat)
    requires Disjoint(tab) && Hosts(tab, x, p, n) && p + n == tab[x].End()
    ensures Halfway(tab, tab, x, p, n)
  {
  }

  lemma OverlapMaps(tab: seq<Mapping>, mid: seq<Mapping>, m: Mapping, slot: nat, x: nat, q: nat, t: Target)
    requires OverlapTable(tab, mid, m, slot) && x != slot
    ensures MapsBut(mid, x, q, t) <==> MapsBut(tab, x, q, t) || m.Maps(q, t)
    ensures MapsBut(mid, slot, q, t) <==> Maps(tab, q, t)
  {
  }

  lemma HalfwayApart(tab: seq<Mapping>, mid: seq<Mapping>, x: nat, p: nat, n: nat, slot: nat)
    requires Disjoint(tab) && Hosts(tab, x, p, n) && OverlapTable(tab, mid, RightChunk(tab[x], p, n), slot)
    ensures x < |mid| && UpToSlot(tab[x], mid[x]) && x != slot
    ensures forall j :: 0 <= j < |mid| && j != x && mid[j].Used() ==> !mid[j].Overlaps(tab[x].va, p + n)
    ensures Disjoint(mid[x := ZERO])
    ensures Disjoint(mid[slot := mid[slot].Cleared()])
  {
    var o, r := tab[x], RightChunk(tab[x], p, n);
    Apart(tab, x);
    forall j | 0 <= j < |tab| && j != x && j != slot && mid[j].Used()
      ensures UpToSlot(tab[j], mid[j]) && !mid[j].Overlaps(o.va, o.End())
    {
    }
    forall i, j | 0 <= i < j < |mid| && i != x && j != x && mid[i].Used() && mid[j].Used()
      ensures !mid[i].Overlaps(mid[j].va, mid[j].End())
    {
      if i == slot { assert UpToSlot(r, mid[i]); } else { assert UpToSlot(tab[i], mid[i]); }
      if j == slot { assert UpToSlot(r, mid[j]); } else { assert UpToSlot(tab[j], mid[j]); }
    }
  }

  lemma HalfwayRight(tab: seq<Mapping>, mid: seq<Mapping>, x: nat, p: nat, n: nat, slot: nat)
    requires Disjoint(tab) && Hosts(tab, x, p, n) && OverlapTable(tab, mid, RightChunk(tab[x], p, n), slot)
    ensures Halfway(tab, mid, x, p, n)
  {
    HalfwayApart(tab, mid, x, p, n, slot);
    forall q: nat, t: Target
      ensures MapsBut(mid, x, q, t) <==> MapsBut(tab, x, q, t) || RightChunk(tab[x], p, n).Maps(q, t)
    {
      OverlapMaps(tab, mid, RightChunk(tab[x], p, n), slot, x, q, t);
    }
  }

  /** Halfway, the left chunk replaces entry `x` and touches nothing else. */
  lemma LeftReplaces(tab: seq<Mapping>, mid: seq<Mapping>, x: nat, p: nat, n: nat)
    requires Hosts(tab, x, p, n) && Halfway(tab, mid, x, p, n) && tab[x].va < p
    ensures OnlyExact(mid, tab[x].va, p, tab[x].startPage, x)
    ensures Scannable(mid, tab[x].va, p, tab[x].startPage, Replace)
    ensures forall slots: nat :: RoomToReplace(mid, slots, tab[x].va, p, tab[x].startPage, Replace)
  {
    assert PartsBefore(mid, |mid|, tab[x].va, p, tab[x].startPage) == 0;
  }

  lemma HalfwayHasHost(tab: seq<Mapping>, mid: seq<Mapping>, x: nat, p: nat, n: nat)
    requires Hosts(tab, x, p, n) && Halfway(tab, mid, x, p, n)
    ensures x < |mid| && mid[x].Live() && mid[x].va == tab[x].va
  {
  }

  lemma ChunkedByReplace(tab: seq<Mapping>, mid: seq<Mapping>, tab': seq<Mapping>, x: nat, p: nat, n: nat)
    requires Hosts(tab, x, p, n) && Halfway(tab, mid, x, p, n)
    requires ExactTable(mid, tab', LeftChunk(tab[x], p), x)
    ensures Chunked(tab, tab', x, p, n)
  {
    var l := LeftChunk(tab[x], p);
    assert Disjoint(mid[x := l]) by {
      assert mid[x := ZERO][x := l] == mid[x := l];
      InstalledDisjoint(mid[x := ZERO], x, l);
    }
    assert Disjoint(tab');
    forall q: nat, t: Target
      ensures Maps(tab', q, t) <==> MapsBut(tab, x, q, t) || l.Maps(q, t) || RightChunk(tab[x], p, n).Maps(q, t)
    {
      RenumberedMaps(mid[x := l], tab', q, t);
      WrittenMaps(mid, x, l, q, t);
    }
  }

  lemma ChunkedByUnmap(tab: seq<Mapping>, mid: seq<Mapping>, x: nat, p: nat, n: nat)
    requires Hosts(tab, x, p, n) && Halfway(tab, mid, x, p, n) && tab[x].va == p
    ensures Chunked(tab, Dropped(mid, x, false), x, p, n)
  {
    var tab' := Dropped(mid, x, false);
    assert Disjoint(tab') by { assert mid[x := ZERO][x := tab'[x]] == tab'; }
    forall q: nat, t: Target
      ensures Maps(tab', q, t) <==> MapsBut(tab, x, q, t) || LeftChunk(tab[x], p).Maps(q, t) || RightChunk(tab[x], p, n).Maps(q, t)
    {
      WrittenMaps(mid, x, tab'[x], q, t);
    }
  }

  /** Unmapping zero pages at the start maps the entry twice and drops either copy. */
  lemma ChunkedByUndo(tab: seq<Mapping>, mid: seq<Mapping>, x: nat, p: nat, slot: nat)
    requires Disjoint(tab) && Hosts(tab, x, p, 0) && tab[x].va == p
    requires OverlapTable(tab, mid, RightChunk(tab[x], p, 0), slot)
    ensures Chunked(tab, Dropped(mid, slot, false), x, p, 0)
  {
    var tab' := Dropped(mid, slot, false);
    HalfwayApart(tab, mid, x, p, 0, slot);
    forall q: nat, t: Target
      ensures Maps(tab', q, t) <==> MapsBut(tab, x, q, t) || LeftChunk(tab[x], p).Maps(q, t) || RightChunk(tab[x], p, 0).Maps(q, t)
    {
      OverlapMaps(tab, mid, RightChunk(tab[x], p, 0), slot, x, q, t);
      WrittenMaps(mid, slot, tab'[slot], q, t);
      WrittenMaps(tab, x, ZERO, q, t);
    }
  }

  lemma FoundIsHost(tab: seq<Mapping>, x: nat, p: nat, n: nat, o: Mapping)
    requires Disjoint(tab) && Hosts(tab, x, p, n)
    requires o in tab && o.Live() && o.va <= p < o.End()
    ensures o == tab[x]
  {
  }

  /** The first live mapping at a page, if any, is not empty. */
  ghost predicate FirstHasPages(tab: seq<Mapping>, p: nat) {
    forall f :: FirstLive(tab, p, f) ==> tab[f].numPages > 0
  }

  /** What unmapping comes to. An entry without a left chunk is unmapped by its address; an
      empty mapping that comes before it goes instead, and the pages stay. */
  ghost predicate Unmapped(tab: seq<Mapping>, tab': seq<Mapping>, x: nat, p: nat, n: nat)
    requires Hosts(tab, x, p, n)
  {
    if tab[x].va < p || FirstHasPages(tab, p) then Chunked(tab, tab', x, p, n)
    else
      && (Removes(tab, tab', p, n) <==> n == 0)
      && (n > 0 ==> (Disjoint(tab') <==> p + n == tab[x].End()))
  }

  lemma UnmappedIsHost(tab: seq<Mapping>, mid: seq<Mapping>, x: nat, p: nat, n: nat, slot: nat, gone: nat)
    requires Disjoint(tab) && Hosts(tab, x, p, n) && tab[x].va == p
    requires if p + n == tab[x].End() then mid == tab else OverlapTable(tab, mid, RightChunk(tab[x], p, n), slot)
    requires gone < |mid| && mid[gone].Live() && mid[gone].va == p && mid[gone].numPages > 0
    ensures Chunked(tab, Dropped(mid, gone, false), x, p, n)
  {
    if p + n == tab[x].End() {
      HalfwayNoRight(tab, x, p, n);
      ChunkedByUnmap(tab, mid, x, p, n);
    } else if gone == slot {
      assert UpToSlot(RightChunk(tab[x], p, n), mid[slot]);
      ChunkedByUndo(tab, mid, x, p, slot);
    } else {
      assert UpToSlot(tab[gone], mid[gone]);
      HalfwayRight(tab, mid, x, p, n, slot);
      ChunkedByUnmap(tab, mid, x, p, n);
    }
  }

  /** An empty mapping goes: nothing stops being mapped. */
  lemma EmptyGoes(tab: seq<Mapping>, mid: seq<Mapping>, x: nat, p: nat, n: nat, slot: nat, gone: nat)
    requires Disjoint(tab) && Hosts(tab, x, p, n) && tab[x].va == p
    requires if p + n == tab[x].End() then mid == tab else OverlapTable(tab, mid, RightChunk(tab[x], p, n), slot)
    requires gone < |mid| && mid[gone].numPages == 0
    ensures var tab' := Dropped(mid, gone, false);
      && (Removes(tab, tab', p, n) <==> n == 0)
      && (Disjoint(tab') <==> p + n == tab[x].End())
  {
    var tab', o := Dropped(mid, gone, false), tab[x];
    if p + n != o.End() { HalfwayApart(tab, mid, x, p, n, slot); }
    assert x != gone && UpToSlot(o, tab'[x]);
    var t := Target(o.seg, if ReversePages in o.flags then o.startPage + o.numPages - 1 else o.startPage, o.flags);
    assert o.Maps(p, t) && tab'[x].Maps(p, t);
    assert Maps(tab, p, t) && Maps(tab', p, t);
    if p + n != o.End() {
      assert gone != slot && UpToSlot(RightChunk(o, p, n), tab'[slot]);
      assert tab'[x].Overlaps(tab'[slot].va, tab'[slot].End()) && tab'[slot].Overlaps(tab'[x].va, tab'[x].End());
      if n == 0 { NothingGoes(tab, mid, x, p, slot, gone); }
    }
  }

  lemma NothingGoes(tab: seq<Mapping>, mid: seq<Mapping>, x: nat, p: nat, slot: nat, gone: nat)
    requires Hosts(tab, x, p, 0) && tab[x].va == p && x != slot
    requires OverlapTable(tab, mid, RightChunk(tab[x], p, 0), slot)
    requires gone < |mid| && gone != slot && mid[gone].numPages == 0
    ensures Removes(tab, Dropped(mid, gone, false), p, 0)
  {
    var tab', r := Dropped(mid, gone, false), RightChunk(tab[x], p, 0);
    forall q: nat, t: Target
      ensures Maps(tab', q, t) <==> Maps(tab, q, t)
    {
      OverlapMaps(tab, mid, r, slot, x, q, t);
      WrittenMaps(mid, gone, tab'[gone], q, t);
      WrittenMaps(tab, x, ZERO, q, t);
      assert mid[slot].Maps(q, t) <==> tab[x].Maps(q, t);
    }
  }

  lemma UnmappedFirst(tab: seq<Mapping>, mid: seq<Mapping>, x: nat, p: nat, n: nat, slot: nat, gone: int)
    requires Disjoint(tab) && Hosts(tab, x, p, n) && tab[x].va == p
    requires if p + n == tab[x].End() then mid == tab else OverlapTable(tab, mid, RightChunk(tab[x], p, n), slot)
    requires FirstLive(mid, p, gone)
    ensures Unmapped(tab, Dropped(mid, gone, false), x, p, n)
  {
    hide Chunked, Disjoint, Removes;
    if mid[gone].numPages > 0 {
      UnmappedIsHost(tab, mid, x, p, n, slot, gone);
      if !FirstHasPages(tab, p) {
        CopyGoes(tab, mid, x, p, n, slot, gone);
        ChunkedRemoves(tab, Dropped(mid, gone, false), x, p, n);
      }
    } else {
      assert FirstLive(tab, p, gone) by {
        assert mid != tab ==> UpToSlot(RightChunk(tab[x], p, n), mid[slot]);
        assert mid != tab ==> UpToSlot(tab[gone], mid[gone]);
        assert forall j :: 0 <= j < |tab| && tab[j].Live() && mid != tab ==> UpToSlot(tab[j], mid[j]);
      }
      EmptyGoes(tab, mid, x, p, n, slot, gone);
    }
  }

  /** Only the copy that unmapping no pages makes can come before an empty mapping. */
  lemma CopyGoes(tab: seq<Mapping>, mid: seq<Mapping>, x: nat, p: nat, n: nat, slot: nat, gone: nat)
    requires Disjoint(tab) && Hosts(tab, x, p, n) && tab[x].va == p
    requires if p + n == tab[x].End() then mid == tab else OverlapTable(tab, mid, RightChunk(tab[x], p, n), slot)
    requires FirstLive(mid, p, gone) && mid[gone].numPages > 0 && !FirstHasPages(tab, p)
    ensures n == 0
  {
    var f: nat :| FirstLive(tab, p, f) && tab[f].numPages == 0;
    if p + n != tab[x].End() {
      assert UpToSlot(tab[f], mid[f]) && gone <= f;
      assert UpToSlot(RightChunk(tab[x], p, n), mid[slot]);
    }
  }

  function Want(va: nat): Option<nat> {
    if va == 0 then None else Some(va)
  }

  /** Maps the chunk right of the unmapped pages over the original mapping. */
  method MapRight(c: MapCache, a: nat, o: Mapping, p: nat, n: nat, prefer: (nat, nat) -> bool, ghost x: nat)
    returns (st: Status, ghost slot: nat)
    requires c.Valid() && a != 0 && c.asref == a
    requires Disjoint(c.ents) && Hosts(c.ents, x, p, n) && o == c.ents[x]
    modifies c
    ensures !st.Panic? ==> c.Valid()
    ensures st.Ok? ==> c.asref == a && Halfway(old(c.ents), c.ents, x, p, n)
    ensures st.Ok? ==> if p + n == o.End() then c.ents == old(c.ents)
                       else OverlapTable(old(c.ents), c.ents, RightChunk(o, p, n), slot)
    ensures c.reliable && Read in o.flags && old(|c.ents|) + 2 < c.size ==> st.Ok? && |c.ents| <= old(|c.ents|) + 1
  {
    hide Coherent, Halfway, OverlapTable, ResolvesBut, Resolves, NoExact, InUse, SelfIndexed, Shrinks, Disjoint;
    slot := 0;
    var right := o.End() - (p + n);
    if right == 0 {
      HalfwayNoRight(c.ents, x, p, n);
      return Ok, slot;
    }
    var va;
    st, va := c.Map(a, o.seg, o.startPage + (p - o.va) + n, o.flags, Want(p + n), right, Overlap, prefer);
    if !st.Ok? { return; }
    slot :| OverlapTable(old(c.ents), c.ents, RightChunk(o, p, n), slot);
    HalfwayRight(old(c.ents), c.ents, x, p, n, slot);
    assert |c.ents| <= |old(c.ents)| + 1;
  }

  /** Shrinks the original mapping to its left chunk, or drops it. */
  method ShrinkLeft(c: MapCache, a: nat, o: Mapping, p: nat, n: nat, prefer: (nat, nat) -> bool,
                    ghost tab: seq<Mapping>, ghost x: nat, ghost slot: nat)
    returns (st: Status)
    requires c.Valid() && a != 0 && c.asref == a
    requires Disjoint(tab) && Hosts(tab, x, p, n) && o == tab[x] && Halfway(tab, c.ents, x, p, n)
    requires if p + n == o.End() then c.ents == tab else OverlapTable(tab, c.ents, RightChunk(o, p, n), slot)
    modifies c
    ensures !st.Panic? ==> c.Valid()
    ensures st.Ok? ==> c.asref == a && Unmapped(tab, c.ents, x, p, n)
    ensures c.reliable && Read in o.flags && old(|c.ents|) + 2 < c.size ==> st.Ok?
  {
    hide Coherent, Chunked, Removes, FirstLive, FirstHasPages, Halfway, OverlapTable, OnlyExact, ResolvesBut, Resolves, NoExact, Scannable, InUse, SelfIndexed, Shrinks, Disjoint;
    ghost var mid := c.ents;
    HalfwayHasHost(tab, mid, x, p, n);
    if o.va < p {
      LeftReplaces(tab, mid, x, p, n);
      var va;
      st, va := c.Map(a, o.seg, o.startPage, o.flags, Want(o.va), p - o.va, Replace, prefer);
      if st.Ok? { ChunkedByReplace(tab, mid, c.ents, x, p, n); }
    } else {
      ghost var gone;
      st, gone := c.UnmapAt(a, o.va, false);
      if st.Ok? { UnmappedFirst(tab, mid, x, p, n, slot, gone); }
    }
  }

  /** Exactly the pages go if and only if the cut is clean; but where an empty mapping comes
      first, if and only if there are none to go, and the table is left with an overlap if
      there was a right chunk. */
  ghost predicate UnmappedCleanly(tab: seq<Mapping>, tab': seq<Mapping>, x: nat, p: nat, n: nat)
    requires Hosts(tab, x, p, n)
  {
    var first := tab[x].va < p || FirstHasPages(tab, p);
    && (Removes(tab, tab', p, n) <==> if first then CutsCleanly(tab[x], p, n) else n == 0)
    && (first ==> Disjoint(tab'))
    && (!first && n > 0 ==> (Disjoint(tab') <==> p + n == tab[x].End()))
  }

  lemma UnmappedRemoves(tab: seq<Mapping>, tab': seq<Mapping>, x: nat, p: nat, n: nat)
    requires Disjoint(tab) && Hosts(tab, x, p, n) && Unmapped(tab, tab', x, p, n)
    ensures UnmappedCleanly(tab, tab', x, p, n)
  {
    hide Removes, Disjoint, Chunked, FirstHasPages;
    if tab[x].va < p || FirstHasPages(tab, p) { ChunkedRemoves(tab, tab', x, p, n); }
  }

  /** An empty mapping before a page at the same address: the page survives its unmapping. */
  lemma PageSurvives(empty: Mapping, o: Mapping)
    requires empty == Mapping(ObjRef(1, 2), 0, 0, 0, {Read}, false, 20)
    requires o == Mapping(ObjRef(1, 3), 0, 1, 1, {Read, AnonMmap}, false, 20)
    ensures var tab := [empty, o];
      && Disjoint(tab) && Hosts(tab, 1, 20, 1) && FirstLive(tab, 20, 0)
      && !Removes(tab, Dropped(tab, 0, false), 20, 1)
  {
    EmptyGoes([empty, o], [empty, o], 1, 20, 1, 0, 0);
  }

  /** A live mapping of an object is left. */
  ghost predicate StillMapped(tab: seq<Mapping>, id: nat) {
    exists i :: 0 <= i < |tab| && tab[i].Live() && tab[i].seg.id == id
  }

  /** `munmap` of a range inside one live mapping. */
  method Munmap(c: MapCache, a: nat, start: nat, length: nat, prefer: (nat, nat) -> bool, ghost x: nat)
    returns (r: Result)
    requires c.Valid() && a in c.Tables() && a != 0
    requires start % PGSIZE == 0 ==>
      Disjoint(c.Table(a)) && Hosts(c.Table(a), x, start / PGSIZE, (length + PGSIZE - 1) / PGSIZE)
    modifies c
    ensures start % PGSIZE != 0 ==> r.Einval?
    ensures !r.Dead? ==> c.Valid()
    ensures r.Done? ==> c.asref == a
    ensures r.Done? ==> UnmappedCleanly(old(c.Table(a)), c.ents, x, start / PGSIZE, (length + PGSIZE - 1) / PGSIZE)
    ensures r.Done? ==>
      (r.unref <==> AnonMmap in old(c.Table(a))[x].flags && !StillMapped(c.ents, old(c.Table(a))[x].seg.id))
    ensures r.Enosys? ==>
      var o := old(c.Table(a))[x];
      AnonMmap !in o.flags && !(o.va * PGSIZE == start && o.numPages == (length + PGSIZE - 1) / PGSIZE)
    ensures c.reliable && old(|c.Table(a)|) + 3 < c.size ==>
      start % PGSIZE == 0 && Read in old(c.Table(a))[x].flags ==> r.Enosys? || r.Done?
    ensures c.reliable && old(|c.Table(a)|) <= c.size ==> (r.Einval? <==> start % PGSIZE != 0)
  {
    hide Coherent, Unmapped, UnmappedCleanly, Halfway, OverlapTable, InUse, SelfIndexed, Shrinks, Disjoint, FirstLive;
    if start % PGSIZE != 0 { return Einval; }
    var p, n := start / PGSIZE, (length + PGSIZE - 1) / PGSIZE;
    ghost var tab := c.Table(a);
    var st, found := c.Lookup(a, p, {});
    if st.Panic? { return Dead; }
    if !st.Ok? { return Einval; }
    assert found.Some?;
    var o := found.value;
    FoundIsHost(tab, x, p, n, o);
    if AnonMmap !in o.flags {
      if o.va != p || o.numPages != n { return Enosys; }
      ghost var gone;
      st, gone := c.UnmapAt(a, p, false);
      if st.Panic? { return Dead; }
      if !st.Ok? { return Einval; }
      UnmappedFirst(tab, tab, x, p, n, 0, gone);
      UnmappedRemoves(tab, c.ents, x, p, n);
      return Done(false);
    }
    ghost var slot;
    st, slot := MapRight(c, a, o, p, n, prefer, x);
    if st.Panic? { return Dead; }
    if !st.Ok? { return Eperm; }
    st := ShrinkLeft(c, a, o, p, n, prefer, tab, x, slot);
    if st.Panic? { return Dead; }
    if !st.Ok? {
      if p + n < o.End() {
        ghost var gone;
        st, gone := c.UnmapAt(a, p + n, false);
        if st.Panic? { return Dead; }
      }
      return Eperm;
    }
    UnmappedRemoves(tab, c.ents, x, p, n);
    var left;
    st, left := c.LookupObject(a, o.seg.id);
    return Done(st.Ok? && !left);
  }
}
