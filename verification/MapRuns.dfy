/** Every run of ordinary mapping calls on the cache. */
module MapRuns {
  import opened Common
  import opened Mappings
  import opened MapScan
  import opened MapInstall
  import opened AddressSpace

  datatype Call =
    | CallMap(seg: ObjRef, start: nat, flags: set<Flag>, want: Option<nat>, pages: nat)
    | CallUnmap(va: nat, canDelay: bool)
    | CallUnmapRange(from: nat, to: nat, canDelay: bool)
    | CallLookup(page: nat, skip: set<Flag>)
    | CallFlush

  /** The slot numbers that a call on address space `a` finds lie below the entry
      count: those in the cache, or those that it reads from a table without gaps. */
  ghost predicate Compact(c: MapCache, a: nat)
    reads c
  {
    if c.asref == a then SlotsBelow(c.ents, |c.ents|) else a in c.Tables() && GapFree(c.Tables()[a])
  }

  lemma CompactTable(c: MapCache, a: nat)
    requires c.Valid() && a != 0 && a in c.Tables()
    ensures Compact(c, a) <==> SlotsBelow(c.Table(a), |c.Table(a)|)
  {
    if c.asref != a { RereadSlotsBelow(c.kern[a]); }
  }

  lemma DroppedCompact(ents: seq<Mapping>, ents': seq<Mapping>)
    requires SlotsBelow(ents, |ents|) && |ents'| == |ents|
    requires forall i :: 0 <= i < |ents| && ents'[i].Used() ==> ents[i].Used() && ents'[i].kslot == ents[i].kslot
    ensures SlotsBelow(ents', |ents'|)
  {
  }

  /** A call that failed and did not leave the cache as it was has dropped it. */
  predicate Harmless(st: Status) { st.Ok? || st.EInval? }

  predicate AllHarmless(results: seq<Status>) {
    forall i :: 0 <= i < |results| ==> Harmless(results[i])
  }

  lemma OneMore(results: seq<Status>, st: Status)
    ensures AllHarmless(results + [st]) <==> AllHarmless(results) && Harmless(st)
  {
    assert (results + [st])[|results|] == st && forall i :: 0 <= i < |results| ==> (results + [st])[i] == results[i];
  }

  /** No call but a map fails other than for what it was asked: for a busy range, or a full table. */
  predicate Expected(call: Call, st: Status) {
    st.Ok? || st.EInval? || (call.CallMap? && (st.ENoMem? || (st.EBusy? && call.want.Some?)))
  }

  lemma {:induction false} InUseFits(ktab: seq<Mapping>, held: set<nat>)
    requires forall k :: 0 <= k < |ktab| && ktab[k].Used() ==> k in held
    ensures |InUse(ktab)| <= |held|
  {
    if ktab != [] {
      var k := |ktab| - 1;
      InUseFits(ktab[..k], held - {k});
    }
  }

  /** What the kernel holds of a cached table, and what a flush leaves of it, fits the cache again. */
  lemma FlushedFits(ents: seq<Mapping>, ktab: seq<Mapping>, ktab': seq<Mapping>)
    requires Coherent(ents, ktab) && OnlyDelayedGo(ents, ktab, ktab')
    ensures |InUse(ktab')| <= |ents|
  {
    forall k | 0 <= k < |ktab'| && ktab'[k].Used()
      ensures k in UsedSlots(ents)
    {
      assert SlotInUse(ents, k);
      var i :| Owns(ents, i, k);
      InUsedSlots(ents, i);
    }
    InUseFits(ktab', UsedSlots(ents));
    UsedSlotsCount(ents);
  }

  lemma TableCoherent(c: MapCache, a: nat)
    requires c.Valid() && a != 0 && a in c.Tables()
    ensures Coherent(c.Table(a), c.Tables()[a])
  {
    if a != c.asref { RefreshCoherent(c.kern[a]); }
  }

  /** One call on address space `a`; no outcome but a panic spoils the tables. As long
      as the cache is not dropped, slot numbers stay below the entry count. */
  method Step(c: MapCache, a: nat, call: Call, prefer: (nat, nat) -> bool) returns (st: Status)
    requires c.Valid() && AllDisjoint(c.Tables()) && a != 0
    modifies c
    ensures !st.Panic? ==> c.Valid() && AllDisjoint(c.Tables())
    ensures !st.Panic? && c.asref == a && old(Compact(c, a)) ==> Compact(c, a)
    ensures !st.Panic? && !Harmless(st) ==> c.asref == 0
    ensures !st.Panic? && c.asref == a ==> a in old(c.Tables())
    ensures Harmless(st) && old(c.asref) == a ==> c.asref == a
    ensures Harmless(st) && c.asref != a && a in old(c.Tables()) ==> a in c.Tables() && c.Tables()[a] == old(c.Tables())[a]
    ensures Harmless(st) && a in c.Tables() ==> a in old(c.Tables())
    ensures st.EBusy? ==> call.CallMap? && call.want.Some?
    ensures c.reliable && old(c.Fits(a)) ==> Expected(call, st) && c.Fits(a)
  {
    hide Coherent, SelfIndexed, Shrinks, FlushedAt, FlushedOnly, OnlyDelayedGo, Disjoint, InUse, Resolves, ResolvesBut, NoExact, OnlyExact, ExactTable, OverlapTable, GapFree;
    ghost var t0 := c.Tables();
    ghost var compact := Compact(c, a);
    ghost var ents0 := if a in t0 then c.Table(a) else [];
    if a in t0 { CompactTable(c, a); }
    match call
    case CallMap(seg, start, flags, want, pages) =>
      if a in t0 {
        TableDisjoint(c, a);
        TableCoherent(c, a);
      }
      var va;
      st, va := c.Map(a, seg, start, flags, want, pages, Plain, prefer);
      if (st.ENoMem? || st.EBusy?) && a in t0 { FlushedFits(ents0, t0[a], c.Tables()[a]); }
    case CallUnmap(va, canDelay) =>
      ghost var gone;
      st, gone := c.UnmapAt(a, va, canDelay);
      if !st.Panic? { AllShrinkKeeps(t0, c.Tables()); }
      if st.Ok? && compact { DroppedCompact(ents0, c.ents); }
    case CallUnmapRange(from, to, canDelay) =>
      st := c.UnmapRange(a, from, to, canDelay);
      if !st.Panic? { AllShrinkKeeps(t0, c.Tables()); }
      if st.Ok? && compact { DroppedCompact(ents0, c.ents); }
    case CallLookup(page, skip) =>
      var found;
      ghost var asref, ents := c.asref, c.ents;
      st, found := c.Lookup(a, page, skip);
      if !st.Panic? {
        FlushedShrinks(asref, Seen(c.asref == a, a, ents, t0), t0, c.Tables());
        AllShrinkKeeps(t0, c.Tables());
      }
    case CallFlush =>
      ghost var asref, ents := c.asref, c.ents;
      st := FlushAll(c);
      if !st.Panic? {
        FlushedShrinks(asref, ents, t0, c.Tables());
        AllShrinkKeeps(t0, c.Tables());
      }
      if st.Ok? && compact && c.asref == a { DroppedCompact(ents0, c.ents); }
  }

  lemma TableDisjoint(c: MapCache, a: nat)
    requires c.Valid() && AllDisjoint(c.Tables()) && a != 0 && a in c.Tables()
    ensures Disjoint(c.Table(a))
  {
    if a == c.asref { DisjointFromCoherent(c.ents, c.ktab); } else { RefreshCoherent(c.kern[a]); }
  }

  /** `segment_unmap_flush` */
  method FlushAll(c: MapCache) returns (st: Status)
    requires c.Valid()
    modifies c
    ensures st.Ok? || st.Panic?
    ensures c.reliable ==> st.Ok?
    ensures st.Ok? ==> c.Valid() && FlushedOnly(old(c.asref), old(c.ents), old(c.Tables()), c.Tables())
    ensures st.Ok? ==> c.asref == old(c.asref) && c.kern == old(c.kern)
    ensures st.Ok? ==> |c.ents| == |old(c.ents)| && forall i :: 0 <= i < |c.ents| ==>
      c.ents[i] == if c.asref == 0 then old(c.ents)[i] else Flushed(old(c.ents)[i])
  {
    var panic := c.Flush();
    if panic { return Panic; }
    ShrinkKeeps(old(c.ktab), c.ktab);
    return Ok;
  }

  /** Any sequence of calls, whatever fails on the way. `read` is the kernel's table that
      the cache was last read from, if that was during the run. */
  method Run(c: MapCache, a: nat, calls: seq<Call>, prefer: (nat, nat) -> bool)
    returns (panic: bool, results: seq<Status>, ghost read: Option<seq<Mapping>>)
    requires c.Valid() && AllDisjoint(c.Tables()) && a != 0
    modifies c
    ensures |results| <= |calls|
    ensures !panic ==> c.Valid() && AllDisjoint(c.Tables()) && |results| == |calls|
    ensures !panic && c.asref != 0 ==> Coherent(c.ents, c.Tables()[c.asref]) && Disjoint(c.ents)
    ensures !panic && c.asref == a && (if read.None? then old(Compact(c, a)) else GapFree(read.value)) ==>
      SlotsBelow(c.ents, |c.ents|)
    ensures read.Some? && AllHarmless(results) ==>
      old(c.asref) != a && a in old(c.Tables()) && read.value == old(c.Tables())[a]
    ensures !panic && old(Compact(c, a)) && AllHarmless(results) ==> Compact(c, a)
    ensures forall i :: 0 <= i < |results| && results[i].EBusy? ==> calls[i].CallMap? && calls[i].want.Some?
    ensures c.reliable && old(c.Fits(a)) ==> !panic && forall i :: 0 <= i < |results| ==> Expected(calls[i], results[i])
  {
    hide Coherent, SelfIndexed, Disjoint, SlotsBelow, GapFree, AllHarmless;
    panic, results, read := false, [], None;
    while |results| < |calls|
      invariant |results| <= |calls|
      invariant c.Valid() && AllDisjoint(c.Tables())
      invariant c.asref == a && (if read.None? then old(Compact(c, a)) else GapFree(read.value)) ==> Compact(c, a)
      invariant AllHarmless(results) && old(Compact(c, a)) ==> Compact(c, a)
      invariant AllHarmless(results) && old(c.asref) == a ==> c.asref == a && read.None?
      invariant AllHarmless(results) && c.asref != a ==> read.None? && (a in old(c.Tables()) ==> a in c.Tables() && c.Tables()[a] == old(c.Tables())[a])
      invariant AllHarmless(results) && c.asref != a && a in c.Tables() ==> a in old(c.Tables())
      invariant AllHarmless(results) && read.Some? ==> a in old(c.Tables()) && read.value == old(c.Tables())[a]
      invariant forall i :: 0 <= i < |results| && results[i].EBusy? ==> calls[i].CallMap? && calls[i].want.Some?
      invariant c.reliable && old(c.Fits(a)) ==> c.Fits(a) && forall i :: 0 <= i < |results| ==> Expected(calls[i], results[i])
    {
      ghost var held, t := c.asref == a, c.Tables();
      var st := Step(c, a, calls[|results|], prefer);
      if st.Panic? { return true, results, read; }
      if !held && c.asref == a { read := Some(t[a]); }
      OneMore(results, st);
      ghost var before := results;
      results := results + [st];
      assert forall i :: 0 <= i < |before| ==> before[i] == results[i];
    }
    if c.asref != 0 { TableDisjoint(c, c.asref); }
  }
}
