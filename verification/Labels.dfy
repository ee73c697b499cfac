/**
 Labels (lib/cpplabel.cc, lib/label.c, inc/label.h): a sparse array of entries,
 with slots reused, that stands for a total function from handles to levels.
 */
module Labels {
  const TWO61: nat := 0x2000_0000_0000_0000
  const LB_LEVEL_STAR: Level := 4
  const LB_LEVEL_UNDEF: Level := 5

  type Handle = h: nat | h < TWO61
  type Level = l: nat | l < 8

  // --- Entries ---

  function Code(h: Handle, l: Level): nat { h + l * TWO61 }
  function HandleOf(e: nat): Handle { e % TWO61 }
  function LevelOf(e: nat): Level
    requires e < 8 * TWO61
  {
    e / TWO61
  }

  lemma CodeRoundTrip(h: Handle, l: Level)
    ensures Code(h, l) < 8 * TWO61 && HandleOf(Code(h, l)) == h && LevelOf(Code(h, l)) == l
  {
  }

  /** Every 64-bit word is the code of one handle, of 61 bits, and one level, of 3. */
  lemma EveryWordCodes(e: nat)
    ensures e < 0x1_0000_0000_0000_0000 <==> e < 8 * TWO61
    ensures e < 8 * TWO61 ==> Code(HandleOf(e), LevelOf(e)) == e
  {
  }

  // --- The orders ---

  /** 0 if the order holds, and otherwise an error code. */
  type Comparator = (Level, Level) -> int
  type Merger = (Level, Level, Comparator) -> Level

  const E_LABEL := 6

  function LeqStarlo(a: Level, b: Level): int {
    if a == LB_LEVEL_STAR then 0
    else if b == LB_LEVEL_STAR then -E_LABEL
    else if a <= b then 0
    else -E_LABEL
  }

  function LeqStarhi(a: Level, b: Level): int {
    if b == LB_LEVEL_STAR then 0
    else if a == LB_LEVEL_STAR then -E_LABEL
    else if a <= b then 0
    else -E_LABEL
  }

  function Max(a: Level, b: Level, leq: Comparator): Level { if leq(a, b) == 0 then b else a }
  function Min(a: Level, b: Level, leq: Comparator): Level { if leq(a, b) == 0 then a else b }
  function StarTo(l: Level, arg: Level): Level { if l == LB_LEVEL_STAR then arg else l }
  function NonstarTo(l: Level, arg: Level): Level { if l != LB_LEVEL_STAR then arg else l }

  ghost predicate TotalOrder(leq: Comparator) {
    && (forall a, b :: leq(a, b) == 0 || leq(b, a) == 0)
    && (forall a, b :: leq(a, b) == 0 && leq(b, a) == 0 ==> a == b)
    && (forall a, b, c :: leq(a, b) == 0 && leq(b, c) == 0 ==> leq(a, c) == 0)
  }

  /** How high a level is if `*` is below the others, and if it is above them. */
  ghost function Low(l: Level): int { if l == 4 then -1 else l }
  ghost function High(l: Level): int { if l == 4 then 8 else l }

  /** The orders are those of the heights: ordinary levels as numbers, `*` at one end. */
  lemma StarloIsTotal()
    ensures TotalOrder(LeqStarlo)
    ensures forall a, b :: LeqStarlo(a, b) == if Low(a) <= Low(b) then 0 else -E_LABEL
  {
  }

  lemma StarhiIsTotal()
    ensures TotalOrder(LeqStarhi)
    ensures forall a, b :: LeqStarhi(a, b) == if High(a) <= High(b) then 0 else -E_LABEL
  {
  }

  /** The merge operations give one of the levels, the higher or the lower of the two. */
  lemma MergersMean(a: Level, b: Level)
    ensures Low(Max(a, b, LeqStarlo)) == if Low(a) <= Low(b) then Low(b) else Low(a)
    ensures Low(Min(a, b, LeqStarlo)) == if Low(a) <= Low(b) then Low(a) else Low(b)
    ensures High(Max(a, b, LeqStarhi)) == if High(a) <= High(b) then High(b) else High(a)
    ensures High(Min(a, b, LeqStarhi)) == if High(a) <= High(b) then High(a) else High(b)
  {
  }

  // --- What a label stands for ---

  /** A label's contents: its entries and the level of every other handle. */
  datatype Rep = Rep(ents: seq<nat>, def: Level) {
    predicate Valid() {
      && (forall i :: 0 <= i < |ents| ==> ents[i] < 8 * TWO61)
      && (forall i, j :: 0 <= i < j < |ents| ==> HandleOf(ents[i]) != HandleOf(ents[j]))
    }

    /** The level of a handle. */
    function At(h: Handle): Level
      requires Valid()
    {
      var i := Find(ents, h);
      if i < |ents| then LevelOf(ents[i]) else def
    }
  }

  /** The place of a handle's entry, or the number of entries. */
  function Find(ents: seq<nat>, h: Handle): (i: nat)
    ensures i <= |ents|
    ensures i < |ents| ==> HandleOf(ents[i]) == h
    ensures forall j :: 0 <= j < i ==> HandleOf(ents[j]) != h
  {
    if ents == [] then 0
    else if HandleOf(ents[0]) == h then 0
    else 1 + Find(ents[1..], h)
  }

  lemma AtEntry(r: Rep, i: nat)
    requires r.Valid() && i < |r.ents|
    ensures r.At(HandleOf(r.ents[i])) == LevelOf(r.ents[i])
  {
  }

  lemma OwnPlace(r: Rep, i: nat)
    requires r.Valid() && i < |r.ents|
    ensures Find(r.ents, HandleOf(r.ents[i])) == i
  {
  }

  lemma AtDefault(r: Rep, h: Handle)
    requires r.Valid() && forall i :: 0 <= i < |r.ents| ==> HandleOf(r.ents[i]) != h
    ensures r.At(h) == r.def
  {
  }

  /** The entries with one written over a slot, or behind the others. */
  function Put(ents: seq<nat>, i: nat, e: nat): seq<nat>
    requires i <= |ents|
  {
    if i < |ents| then ents[i := e] else ents + [e]
  }

  /** Writing an entry over a handle's own slot, over a slot that says no more than the
      default, or behind the others, changes that handle's level and no other. */
  lemma Overwrite(r: Rep, i: nat, h: Handle, l: Level)
    requires r.Valid() && i <= |r.ents|
    requires Find(r.ents, h) < |r.ents| ==> i == Find(r.ents, h)
    requires Find(r.ents, h) == |r.ents| ==> i == |r.ents| || LevelOf(r.ents[i]) == r.def
    ensures var s := Rep(Put(r.ents, i, Code(h, l)), r.def);
      s.Valid() && s.At(h) == l && forall g: Handle :: g != h ==> s.At(g) == r.At(g)
  {
    CodeRoundTrip(h, l);
    var s := Rep(Put(r.ents, i, Code(h, l)), r.def);
    assert s.ents[i] == Code(h, l);
    assert s.Valid();
    AtEntry(s, i);
    forall g: Handle | g != h
      ensures s.At(g) == r.At(g)
    {
      OtherLevels(r, s, i, g);
    }
  }

  lemma OtherLevels(r: Rep, s: Rep, i: nat, g: Handle)
    requires r.Valid() && s.Valid() && i <= |r.ents| && s.def == r.def
    requires i < |s.ents| && s.ents == Put(r.ents, i, s.ents[i]) && HandleOf(s.ents[i]) != g
    requires i < |r.ents| && HandleOf(r.ents[i]) == g ==> LevelOf(r.ents[i]) == r.def
    ensures s.At(g) == r.At(g)
  {
    var j := Find(r.ents, g);
    if j < |r.ents| && j != i {
      assert s.ents[j] == r.ents[j];
      AtEntry(s, j);
    } else {
      AtDefault(s, g);
    }
  }

  /** `label` of lib/cpplabel.cc. A label over borrowed storage (`dynamic` false) cannot grow. */
  class Label {
    var rep: Rep
    var size: nat
    const dynamic: bool

    /** The entries fit into their array. */
    ghost predicate Valid()
      reads this
    {
      rep.Valid() && |rep.ents| <= size
    }

    constructor (def: Level)
      ensures Valid() && dynamic && rep == Rep([], def) && size == 0
    {
      rep, size, dynamic := Rep([], def), 0, true;
    }

    /** A label over a given array, which cannot grow. */
    constructor Static(n: nat)
      ensures Valid() && !dynamic && size == n && rep == Rep([], LB_LEVEL_UNDEF)
    {
      rep, size, dynamic := Rep([], LB_LEVEL_UNDEF), n, false;
    }

    /** A copy can always grow. */
    constructor Copy(o: Label)
      requires o.Valid()
      ensures Valid() && dynamic && size == o.size && rep == o.rep
    {
      rep, size, dynamic := o.rep, o.size, true;
    }

    /** No entry says the default, and there is no place for one more. */
    ghost predicate Stuck()
      reads this
      requires Valid()
    {
      !dynamic && |rep.ents| >= size && forall i :: 0 <= i < |rep.ents| ==> LevelOf(rep.ents[i]) != rep.def
    }

    /** `slot_find` */
    method SlotFind(h: Handle) returns (i: nat)
      requires Valid()
      ensures i == Find(rep.ents, h)
    {
      i := 0;
      while i < |rep.ents|
        invariant 0 <= i <= |rep.ents|
        invariant forall j :: 0 <= j < i ==> HandleOf(rep.ents[j]) != h
      {
        if HandleOf(rep.ents[i]) == h { return; }
        i := i + 1;
      }
    }

    /** `slot_grow`: a slot that says no more than the default, or a new one. */
    method SlotGrow() returns (i: nat, ok: bool)
      requires Valid()
      modifies `size
      ensures !ok <==> old(Stuck())
      ensures size == old(size) || (ok && i == |rep.ents| >= old(size) && size == if old(size) >= 8 then 2 * old(size) else old(size) + 8)
      ensures ok && i == |rep.ents| ==> |rep.ents| < size
      ensures ok ==> i <= |rep.ents| && (i == |rep.ents| || LevelOf(rep.ents[i]) == rep.def)
    {
      i := 0;
      while i < |rep.ents|
        invariant 0 <= i <= |rep.ents| && forall j :: 0 <= j < i ==> LevelOf(rep.ents[j]) != rep.def
      {
        if LevelOf(rep.ents[i]) == rep.def { return i, true; }
        i := i + 1;
      }
      if |rep.ents| >= size {
        if !dynamic { return i, false; }
        size := size + if size >= 8 then size else 8;
      }
      ok := true;
    }

    method Get(h: Handle) returns (l: Level)
      requires Valid()
      ensures l == rep.At(h)
    {
      var i := SlotFind(h);
      l := if i < |rep.ents| then LevelOf(rep.ents[i]) else rep.def;
    }

    /** `set`: changes one handle's level and no other's, or nothing at all. */
    method Set(h: Handle, l: Level) returns (ok: bool)
      requires Valid()
      modifies this
      ensures size == old(size) || (old(size) == |old(rep).ents| < |rep.ents| && size == if old(size) >= 8 then 2 * old(size) else old(size) + 8)
      ensures Valid() && (!ok <==> old(Stuck()) && Find(old(rep).ents, h) == |old(rep).ents|) && (!ok ==> rep == old(rep))
      ensures ok ==> rep.def == old(rep).def && rep.At(h) == l
      ensures ok ==> forall g: Handle :: g != h ==> rep.At(g) == old(rep).At(g)
      ensures var i := Find(old(rep).ents, h);
        i < |old(rep).ents| ==> ok && rep.ents == old(rep).ents[i := Code(h, l)]
    {
      var i := SlotFind(h);
      if i == |rep.ents| {
        i, ok := SlotGrow();
        if !ok { return; }
      }
      Overwrite(rep, i, h, l);
      rep := Rep(Put(rep.ents, i, Code(h, l)), rep.def);
      ok := true;
    }

    method Reset(def: Level)
      modifies this
      ensures Valid() && rep == Rep([], def) && size == old(size)
    {
      rep := Rep([], def);
    }

    /** `operator=`: the function of another label; a label assigned to itself loses its
        entries, because it is reset before they are read. */
    method Assign(src: Label) returns (ok: bool)
      requires src.Valid()
      modifies this
      ensures Valid() && (dynamic ==> ok)
      ensures ok && src != this ==> rep.def == src.rep.def && forall h: Handle :: rep.At(h) == src.rep.At(h)
      ensures src == this ==> ok && rep == Rep([], old(rep).def)
    {
      Reset(src.rep.def);
      var i := 0;
      while i < |src.rep.ents|
        invariant 0 <= i <= |src.rep.ents| && Valid() && rep.def == src.rep.def == old(src.rep).def
        invariant forall h: Handle :: rep.At(h) == if Find(src.rep.ents, h) < i then src.rep.At(h) else rep.def
        invariant src == this ==> rep.ents == []
      {
        var h := HandleOf(src.rep.ents[i]);
        var l := src.Get(h);
        ok := Set(h, l);
        if !ok { return; }
        i := i + 1;
      }
      ok := true;
    }

    /** `compare`: 0 exactly when the comparison holds at the default and at every handle. */
    method Compare(b: Label, cmp: Comparator) returns (r: int)
      requires Valid() && b.Valid() && forall x, y :: cmp(x, y) <= 0
      ensures r <= 0 && (r == 0 <==> Below(rep, b.rep, cmp))
    {
      r := cmp(rep.def, b.rep.def);
      if r < 0 { return; }
      r := CompareAt(rep.ents, b, cmp);
      if r < 0 { return; }
      r := CompareAt(b.rep.ents, b, cmp);
      if r < 0 { return; }
      ComparedEverywhere(rep, b.rep, cmp);
    }

    /** One of the two loops of `compare`: over the handles of one label's entries. */
    method CompareAt(ents: seq<nat>, b: Label, cmp: Comparator) returns (r: int)
      requires Valid() && b.Valid() && forall x, y :: cmp(x, y) <= 0
      ensures r <= 0
      ensures r == 0 <==> ComparedAt(rep, b.rep, ents, cmp)
    {
      var i := 0;
      while i < |ents|
        invariant 0 <= i <= |ents| && ComparedAt(rep, b.rep, ents[..i], cmp)
      {
        var h := HandleOf(ents[i]);
        var x := Get(h);
        var y := b.Get(h);
        r := cmp(x, y);
        if r < 0 { return; }
        assert ents[..i + 1] == ents[..i] + [ents[i]];
        i := i + 1;
      }
      assert ents[..i] == ents;
      r := 0;
    }

    /** `merge`: the pointwise combination of two labels, in a third. */
    method Merge(b: Label, out: Label, m: Merger, cmp: Comparator) returns (ok: bool)
      requires Valid() && b.Valid() && out != this && out != b
      modifies out
      ensures out.Valid() && (out.dynamic ==> ok)
      ensures ok ==> Merged(rep, b.rep, out.rep, m, cmp)
    {
      out.Reset(m(rep.def, b.rep.def, cmp));
      ok := MergeAt(rep.ents, b, out, m, cmp, {});
      if !ok { return; }
      ok := MergeAt(b.rep.ents, b, out, m, cmp, Handles(rep.ents));
      if !ok { return; }
      forall h: Handle
        ensures out.rep.At(h) == m(rep.At(h), b.rep.At(h), cmp)
      {
        InHandles(rep.ents, h);
        InHandles(b.rep.ents, h);
      }
    }

    /** One of the two loops of `merge`; `done` are the handles merged before it. */
    method MergeAt(ents: seq<nat>, b: Label, out: Label, m: Merger, cmp: Comparator, ghost done: set<Handle>) returns (ok: bool)
      requires Valid() && b.Valid() && out.Valid() && out != this && out != b
      requires forall h: Handle :: out.rep.At(h) == if h in done then m(rep.At(h), b.rep.At(h), cmp) else out.rep.def
      modifies out
      ensures out.Valid() && (out.dynamic ==> ok) && out.rep.def == old(out.rep).def
      ensures ok ==> forall h: Handle ::
        out.rep.At(h) == if h in done + Handles(ents) then m(rep.At(h), b.rep.At(h), cmp) else out.rep.def
    {
      hide Rep.At, Rep.Valid, HandleOf, Handles;
      var i := 0;
      while i < |ents|
        invariant 0 <= i <= |ents| && out.Valid() && out.rep.def == old(out.rep).def
        invariant forall h: Handle ::
          out.rep.At(h) == if h in done + Handles(ents[..i]) then m(rep.At(h), b.rep.At(h), cmp) else out.rep.def
      {
        var h := HandleOf(ents[i]);
        var x := Get(h);
        var y := b.Get(h);
        ok := out.Set(h, m(x, y, cmp));
        if !ok { return; }
        HandlesStep(ents, i);
        i := i + 1;
      }
      assert ents[..i] == ents;
      ok := true;
    }

    /** `transform`: every handle's level, and the default, changed in place. */
    method Transform(t: (Level, Level) -> Level, arg: Level)
      requires Valid()
      modifies this
      ensures Valid() && rep.def == t(old(rep).def, arg)
      ensures forall h: Handle :: rep.At(h) == t(old(rep).At(h), arg)
    {
      hide Changed, Code, Stuck;
      rep := rep.(def := t(rep.def, arg));
      var i := 0;
      ChangedNone(rep.ents, t, arg);
      while i < |rep.ents|
        invariant 0 <= i <= |rep.ents| && Valid() && rep.def == t(old(rep).def, arg)
        invariant Changed(old(rep).ents, rep.ents, i, t, arg)
      {
        var h := HandleOf(rep.ents[i]);
        var l := Get(h);
        OwnPlace(rep, i);
        ChangedStep(old(rep), rep, i, t, arg);
        var _ := Set(h, t(l, arg));
        i := i + 1;
      }
      ChangedAll(old(rep), rep, t, arg);
    }
  }

  /** The first `i` levels have been changed. */
  ghost predicate Changed(was: seq<nat>, ents: seq<nat>, i: nat, t: (Level, Level) -> Level, arg: Level) {
    |ents| == |was| && forall j :: 0 <= j < |ents| ==>
      && ents[j] < 8 * TWO61 && was[j] < 8 * TWO61 && HandleOf(ents[j]) == HandleOf(was[j])
      && LevelOf(ents[j]) == if j < i then t(LevelOf(was[j]), arg) else LevelOf(was[j])
  }

  lemma ChangedNone(ents: seq<nat>, t: (Level, Level) -> Level, arg: Level)
    requires forall j :: 0 <= j < |ents| ==> ents[j] < 8 * TWO61
    ensures Changed(ents, ents, 0, t, arg)
  {
  }

  lemma ChangedStep(was: Rep, r: Rep, i: nat, t: (Level, Level) -> Level, arg: Level)
    requires was.Valid() && r.Valid() && i < |r.ents| && Changed(was.ents, r.ents, i, t, arg)
    ensures Changed(was.ents, r.ents[i := Code(HandleOf(r.ents[i]), t(LevelOf(r.ents[i]), arg))], i + 1, t, arg)
  {
    CodeRoundTrip(HandleOf(r.ents[i]), t(LevelOf(r.ents[i]), arg));
    hide HandleOf, LevelOf, Code;
  }

  lemma ChangedAll(was: Rep, r: Rep, t: (Level, Level) -> Level, arg: Level)
    requires was.Valid() && r.Valid() && Changed(was.ents, r.ents, |r.ents|, t, arg) && r.def == t(was.def, arg)
    ensures forall h: Handle :: r.At(h) == t(was.At(h), arg)
  {
    forall h: Handle
      ensures r.At(h) == t(was.At(h), arg)
    {
      SamePlace(r.ents, was.ents, h);
    }
  }

  /** The kernel interface's `ulabel` of lib/label.c: slots are not reused, and a full
      label grows by doubling if the caller lets it. */
  class ULabel {
    var rep: Rep
    var size: nat

    ghost predicate Valid()
      reads this
    {
      rep.Valid() && |rep.ents| <= size && size > 0
    }

    /** `label_alloc` */
    constructor ()
      ensures Valid() && rep == Rep([], 0) && size == 16
    {
      rep, size := Rep([], 0), 16;
    }

    /** `label_find_slot` */
    method FindSlot(h: Handle) returns (i: nat)
      requires Valid()
      ensures i == Find(rep.ents, h)
    {
      i := 0;
      while i < |rep.ents|
        invariant 0 <= i <= |rep.ents|
        invariant forall j :: 0 <= j < i ==> HandleOf(rep.ents[j]) != h
      {
        if HandleOf(rep.ents[i]) == h { return; }
        i := i + 1;
      }
    }

    /** `label_set_level`: fails only for a new handle in a full label. `memory` is the
        answer of the allocator. */
    method SetLevel(h: Handle, l: Level, grow: bool, memory: bool) returns (ok: bool)
      requires Valid()
      modifies this
      ensures Valid()
      ensures !ok <==> !(grow && memory) && |old(rep).ents| == old(size) && Find(old(rep).ents, h) == old(size)
      ensures !ok ==> rep == old(rep)
      ensures size == old(size) || (ok && size == 2 * |old(rep).ents| == 2 * old(size) && |rep.ents| == old(size) + 1)
      ensures ok ==> rep.def == old(rep).def && rep.At(h) == l
      ensures ok ==> forall g: Handle :: g != h ==> rep.At(g) == old(rep).At(g)
    {
      var slot := FindSlot(h);
      if slot == |rep.ents| && |rep.ents| == size {
        if !grow || !memory { return false; }
        size := size * 2;
      }
      Overwrite(rep, slot, h, l);
      rep := Rep(Put(rep.ents, slot, Code(h, l)), rep.def);
      ok := true;
    }

    /** `label_get_level` */
    method GetLevel(h: Handle) returns (l: Level)
      requires Valid()
      ensures l == rep.At(h)
    {
      var slot := FindSlot(h);
      l := if slot == |rep.ents| then rep.def else LevelOf(rep.ents[slot]);
    }

    /** `label_compare`: 0 exactly when the comparison holds at every handle and at the default. */
    method Compare(b: ULabel, cmp: Comparator) returns (r: int)
      requires Valid() && b.Valid() && forall x, y :: cmp(x, y) <= 0
      ensures r <= 0 && (r == 0 <==> Below(rep, b.rep, cmp))
    {
      r := CompareEntries(rep.ents, b, cmp);
      if r < 0 { return; }
      r := CompareEntries(b.rep.ents, b, cmp);
      if r < 0 { return; }
      r := cmp(rep.def, b.rep.def);
      if r < 0 { return; }
      ComparedEverywhere(rep, b.rep, cmp);
    }

    /** One of the two loops of `label_compare` */
    method CompareEntries(ents: seq<nat>, b: ULabel, cmp: Comparator) returns (r: int)
      requires Valid() && b.Valid() && forall x, y :: cmp(x, y) <= 0
      ensures r <= 0
      ensures r == 0 <==> ComparedAt(rep, b.rep, ents, cmp)
    {
      var i := 0;
      while i < |ents|
        invariant 0 <= i <= |ents| && ComparedAt(rep, b.rep, ents[..i], cmp)
      {
        var h := HandleOf(ents[i]);
        var x := GetLevel(h);
        var y := b.GetLevel(h);
        r := cmp(x, y);
        if r < 0 { return; }
        assert ents[..i + 1] == ents[..i] + [ents[i]];
        i := i + 1;
      }
      assert ents[..i] == ents;
      r := 0;
    }

    /** `label_change_star` */
    method ChangeStar(l: Level)
      requires Valid()
      modifies this
      ensures Valid() && rep.def == StarTo(old(rep).def, l)
      ensures forall h: Handle :: rep.At(h) == StarTo(old(rep).At(h), l)
    {
      var i := 0;
      while i < |rep.ents|
        invariant 0 <= i <= |rep.ents| == |old(rep).ents| && Valid() && rep.def == old(rep).def
        invariant forall j :: 0 <= j < |rep.ents| ==> HandleOf(rep.ents[j]) == HandleOf(old(rep).ents[j])
        invariant forall j :: 0 <= j < |rep.ents| ==>
          LevelOf(rep.ents[j]) == if j < i then StarTo(LevelOf(old(rep).ents[j]), l) else LevelOf(old(rep).ents[j])
      {
        if LevelOf(rep.ents[i]) == LB_LEVEL_STAR {
          CodeRoundTrip(HandleOf(rep.ents[i]), l);
          rep := rep.(ents := rep.ents[i := Code(HandleOf(rep.ents[i]), l)]);
        }
        i := i + 1;
      }
      if rep.def == LB_LEVEL_STAR { rep := rep.(def := l); }
      forall h: Handle
        ensures rep.At(h) == StarTo(old(rep).At(h), l)
      {
        SamePlace(rep.ents, old(rep).ents, h);
      }
    }
  }

  /** The comparison holds at the default and at every handle. */
  ghost predicate Below(a: Rep, b: Rep, cmp: Comparator)
    requires a.Valid() && b.Valid()
  {
    cmp(a.def, b.def) == 0 && forall h: Handle :: cmp(a.At(h), b.At(h)) == 0
  }

  /** The comparison holds at the handles of some entries. */
  ghost predicate ComparedAt(a: Rep, b: Rep, ents: seq<nat>, cmp: Comparator)
    requires a.Valid() && b.Valid()
  {
    forall e :: e in ents ==> cmp(a.At(HandleOf(e)), b.At(HandleOf(e))) == 0
  }

  /** It is enough to compare at the entries of both labels and at the default. */
  lemma ComparedEverywhere(a: Rep, b: Rep, cmp: Comparator)
    requires a.Valid() && b.Valid()
    requires cmp(a.def, b.def) == 0 && ComparedAt(a, b, a.ents, cmp) && ComparedAt(a, b, b.ents, cmp)
    ensures Below(a, b, cmp)
  {
    forall h: Handle
      ensures cmp(a.At(h), b.At(h)) == 0
    {
      var i, j := Find(a.ents, h), Find(b.ents, h);
      if i < |a.ents| {
        assert a.ents[i] in a.ents;
      } else if j < |b.ents| {
        assert b.ents[j] in b.ents;
      }
    }
  }

  ghost predicate Merged(a: Rep, b: Rep, out: Rep, m: Merger, cmp: Comparator)
    requires a.Valid() && b.Valid() && out.Valid()
  {
    out.def == m(a.def, b.def, cmp) && forall h: Handle :: out.At(h) == m(a.At(h), b.At(h), cmp)
  }

  ghost function Handles(ents: seq<nat>): (r: set<Handle>)
    ensures ents == [] ==> r == {}
  {
    set e | e in ents :: HandleOf(e)
  }

  lemma InHandles(ents: seq<nat>, h: Handle)
    ensures h in Handles(ents) <==> Find(ents, h) < |ents|
  {
  }

  lemma HandlesStep(ents: seq<nat>, i: nat)
    requires i < |ents|
    ensures Handles(ents[..i + 1]) == Handles(ents[..i]) + {HandleOf(ents[i])}
  {
  }

  lemma SamePlace(a: seq<nat>, b: seq<nat>, h: Handle)
    requires |a| == |b| && forall j :: 0 <= j < |a| ==> HandleOf(a[j]) == HandleOf(b[j])
    ensures Find(a, h) == Find(b, h)
  {
  }

  // --- The algebra ---

  /** A merge with `Max` is the least upper bound of two labels, in any total order. */
  lemma MaxIsLub(a: Rep, b: Rep, out: Rep, c: Rep, leq: Comparator)
    requires a.Valid() && b.Valid() && out.Valid() && c.Valid() && TotalOrder(leq) && Merged(a, b, out, Max, leq)
    ensures Below(a, out, leq) && Below(b, out, leq)
    ensures Below(a, c, leq) && Below(b, c, leq) ==> Below(out, c, leq)
  {
  }

  /** A merge with `Min` is the greatest lower bound. */
  lemma MinIsGlb(a: Rep, b: Rep, out: Rep, c: Rep, leq: Comparator)
    requires a.Valid() && b.Valid() && out.Valid() && c.Valid() && TotalOrder(leq) && Merged(a, b, out, Min, leq)
    ensures Below(out, a, leq) && Below(out, b, leq)
    ensures Below(c, a, leq) && Below(c, b, leq) ==> Below(c, out, leq)
  {
  }
}
