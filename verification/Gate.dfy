/**
 The labels a gate call asks for (lib/gateinvoke.cc): what the caller brings, the
 gate's own label and clearance, and the optional labels cs, ds and dr.
 */
module Gate {
  import opened Labels

  /** What the levels at one handle go into: the gate's label and clearance, the caller's
      label, and the optional labels, where given. */
  datatype Levels = Levels(gate: Level, clear: Level, caller: Level,
                           cs: Level, hasCs: bool, ds: Level, hasDs: bool, dr: Level, hasDr: bool)

  /** The gate's own level, or that of ds where that is lower, `*` being lowest. */
  ghost function Own(v: Levels): Level {
    if v.hasDs && Low(v.ds) < Low(v.gate) then v.ds else v.gate
  }

  /** A height that is at least that of the gate's own level, of the caller's, with `*`
      counted as 0, and of cs, `*` being highest. */
  ghost predicate Covers(v: Levels, x: int) {
    && High(Own(v)) <= x && (if v.caller == 4 then 0 else v.caller) <= x
    && (v.hasCs ==> High(v.cs) <= x)
  }

  /** The target level is the least that covers them: it drops no taint of the caller's, and it
      is `*` exactly where the gate, ds or cs is. */
  ghost predicate TargetPromised(v: Levels, tgt: Level) {
    && Covers(v, High(tgt))
    && (forall x :: Covers(v, x) ==> High(tgt) <= x)
    && (tgt != 4 ==> (v.caller != 4 ==> v.caller <= tgt) && (v.hasCs ==> v.cs <= tgt))
    && (tgt == 4 <==> v.gate == 4 || (v.hasDs && v.ds == 4) || (v.hasCs && v.cs == 4))
  }

  /** The clearance is the least that is at least the gate's, 0, dr and the target level if dr
      is given, and 3 where caller and target are both `*`; `*` is lowest. */
  ghost predicate ClearPromised(v: Levels, tgt: Level, clear: Level) {
    && Clears(v, tgt, Low(clear))
    && forall x :: Clears(v, tgt, x) ==> Low(clear) <= x
  }

  ghost predicate Clears(v: Levels, tgt: Level, x: int) {
    && Low(v.clear) <= x && 0 <= x
    && (v.hasDr ==> Low(v.dr) <= x && Low(tgt) <= x)
    && (v.caller == 4 && tgt == 4 ==> 3 <= x)
  }

  function TargetLevel(v: Levels): Level {
    var own := if v.hasDs then Min(v.gate, v.ds, LeqStarlo) else v.gate;
    var t := Max(own, StarTo(v.caller, 0), LeqStarhi);
    if v.hasCs then Max(t, v.cs, LeqStarhi) else t
  }

  function ClearLevel(v: Levels, tgt: Level): Level {
    var c := if v.hasDr then Max(Max(v.clear, v.dr, LeqStarlo), tgt, LeqStarlo) else v.clear;
    Max(c, StarTo(NonstarTo(Max(tgt, v.caller, LeqStarlo), 0), 3), LeqStarlo)
  }

  lemma TargetLevelPromised(v: Levels)
    ensures TargetPromised(v, TargetLevel(v))
  {
    assert Covers(v, High(TargetLevel(v)));
  }

  lemma ClearLevelPromised(v: Levels, tgt: Level)
    ensures ClearPromised(v, tgt, ClearLevel(v, tgt))
  {
    assert Clears(v, tgt, Low(ClearLevel(v, tgt)));
  }

  lemma LevelsPromised(v: Levels)
    ensures TargetPromised(v, TargetLevel(v))
    ensures ClearPromised(v, TargetLevel(v), ClearLevel(v, TargetLevel(v)))
  {
    TargetLevelPromised(v);
    ClearLevelPromised(v, TargetLevel(v));
  }

  method Copy(src: Label) returns (l: Label)
    requires src.Valid()
    ensures fresh(l) && l.Valid() && l.dynamic && l.rep.def == src.rep.def
    ensures forall h: Handle :: l.rep.At(h) == src.rep.At(h)
  {
    l := new Label(LB_LEVEL_UNDEF);
    var _ := l.Assign(src);
  }

  /** `l = merge(l, b)`, through a temporary label. */
  method MergeInto(l: Label, b: Label, m: Merger, cmp: Comparator)
    requires l.Valid() && b.Valid() && l != b && l.dynamic
    modifies l
    ensures l.Valid() && l.rep.def == m(old(l.rep).def, b.rep.def, cmp)
    ensures forall h: Handle :: l.rep.At(h) == m(old(l.rep).At(h), b.rep.At(h), cmp)
  {
    hide Rep.At, Rep.Valid;
    var tmp := new Label(LB_LEVEL_UNDEF);
    var _ := l.Merge(b, tmp, m, cmp);
    var _ := l.Assign(tmp);
  }

  /** The level of an optional label at a handle, or anything. */
  ghost function At(l: Label?, h: Handle): Level
    requires l != null ==> l.Valid()
    reads l
  {
    if l == null then 0 else l.rep.At(h)
  }

  ghost function Def(l: Label?): Level
    reads l
  {
    if l == null then 0 else l.rep.def
  }

  /** The levels at one handle, and the default levels. */
  ghost function LevelsAt(gate: Label, clear: Label, caller: Label, cs: Label?, ds: Label?, dr: Label?, h: Handle): Levels
    requires gate.Valid() && clear.Valid() && caller.Valid()
    requires (cs != null ==> cs.Valid()) && (ds != null ==> ds.Valid()) && (dr != null ==> dr.Valid())
    reads gate, clear, caller, cs, ds, dr
  {
    Levels(gate.rep.At(h), clear.rep.At(h), caller.rep.At(h),
           At(cs, h), cs != null, At(ds, h), ds != null, At(dr, h), dr != null)
  }

  ghost function Defaults(gate: Label, clear: Label, caller: Label, cs: Label?, ds: Label?, dr: Label?): Levels
    reads gate, clear, caller, cs, ds, dr
  {
    Levels(gate.rep.def, clear.rep.def, caller.rep.def, Def(cs), cs != null, Def(ds), ds != null, Def(dr), dr != null)
  }

  /** The first part of `gate_compute_labels` */
  method TargetLabel(gate: Label, caller: Label, cs: Label?, ds: Label?) returns (tgt: Label)
    requires gate.Valid() && caller.Valid() && (cs != null ==> cs.Valid()) && (ds != null ==> ds.Valid())
    ensures fresh(tgt) && tgt.Valid()
    ensures tgt.rep.def == TargetLevel(Defaults(gate, gate, caller, cs, ds, null))
    ensures forall h: Handle :: tgt.rep.At(h) == TargetLevel(LevelsAt(gate, gate, caller, cs, ds, null, h))
  {
    hide Rep.At, Rep.Valid, LeqStarlo, LeqStarhi;
    tgt := Copy(gate);
    if ds != null { MergeInto(tgt, ds, Min, LeqStarlo); }
    var threadLabel := Copy(caller);
    threadLabel.Transform(StarTo, 0);
    MergeInto(tgt, threadLabel, Max, LeqStarhi);
    if cs != null { MergeInto(tgt, cs, Max, LeqStarhi); }
  }

  /** The rest of it */
  method TargetClearance(gateClear: Label, tgt: Label, caller: Label, dr: Label?) returns (clear: Label)
    requires gateClear.Valid() && tgt.Valid() && caller.Valid() && (dr != null ==> dr.Valid())
    ensures fresh(clear) && clear.Valid()
    ensures clear.rep.def == ClearLevel(Defaults(tgt, gateClear, caller, null, null, dr), tgt.rep.def)
    ensures forall h: Handle ::
      clear.rep.At(h) == ClearLevel(LevelsAt(tgt, gateClear, caller, null, null, dr, h), tgt.rep.At(h))
  {
    hide Rep.At, Rep.Valid, LeqStarlo, LeqStarhi;
    clear := Copy(gateClear);
    if dr != null {
      var tmp := new Label(LB_LEVEL_UNDEF);
      var _ := clear.Merge(dr, tmp, Max, LeqStarlo);
      var _ := tmp.Merge(tgt, clear, Max, LeqStarlo);
    }
    var commonStar3 := new Label(LB_LEVEL_UNDEF);
    var _ := tgt.Merge(caller, commonStar3, Max, LeqStarlo);
    commonStar3.Transform(NonstarTo, 0);
    commonStar3.Transform(StarTo, 3);
    MergeInto(clear, commonStar3, Max, LeqStarlo);
  }

  /** `gate_compute_labels`: the promises hold at every handle and at the default. */
  method GateComputeLabels(gate: Label, gateClear: Label, caller: Label, cs: Label?, ds: Label?, dr: Label?)
    returns (tgt: Label, clear: Label)
    requires gate.Valid() && gateClear.Valid() && caller.Valid()
    requires (cs != null ==> cs.Valid()) && (ds != null ==> ds.Valid()) && (dr != null ==> dr.Valid())
    ensures tgt.Valid() && clear.Valid()
    ensures forall h: Handle :: TargetPromised(LevelsAt(gate, gateClear, caller, cs, ds, dr, h), tgt.rep.At(h))
    ensures forall h: Handle ::
      ClearPromised(LevelsAt(gate, gateClear, caller, cs, ds, dr, h), tgt.rep.At(h), clear.rep.At(h))
    ensures TargetPromised(Defaults(gate, gateClear, caller, cs, ds, dr), tgt.rep.def)
    ensures ClearPromised(Defaults(gate, gateClear, caller, cs, ds, dr), tgt.rep.def, clear.rep.def)
  {
    hide Rep.At, Rep.Valid, LeqStarlo, LeqStarhi, Min, Max, TargetPromised, ClearPromised;
    tgt := TargetLabel(gate, caller, cs, ds);
    clear := TargetClearance(gateClear, tgt, caller, dr);
    forall h: Handle { LevelsPromised(LevelsAt(gate, gateClear, caller, cs, ds, dr, h)); }
    LevelsPromised(Defaults(gate, gateClear, caller, cs, ds, dr));
  }
}
