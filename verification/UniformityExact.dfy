/** Exactly when a register is uniform and when it is varying. */
module UniformityExact {
  import opened Isa
  import opened Ptx
  import opened Uniformity

  /** Literals, registers known to be uniform, and what a block or a warp shares. */
  predicate UniformSource(o: Operand, values: Facts, names: Names) {
    match o
    case Imm(_) => true
    case FloatImm(_) => true
    case RegOp(r) => r in values && values[r] == Uniform
    case Addr(r) => r in values && values[r] == Uniform
    case Sym(n) =>
      match names(n)
      case Geometry(Ctaid(_)) => true
      case Geometry(Ntid(_)) => true
      case Geometry(Nctaid(_)) => true
      case Geometry(WarpId) => true
      case _ => false
  }

  /** Registers known to be varying, and the thread and lane indices. */
  predicate VaryingSource(o: Operand, values: Facts, names: Names) {
    match o
    case Imm(_) => false
    case FloatImm(_) => false
    case RegOp(r) => r in values && values[r] == Varying
    case Addr(r) => r in values && values[r] == Varying
    case Sym(n) =>
      match names(n)
      case Geometry(Tid(_)) => true
      case Geometry(LaneId) => true
      case _ => false
  }

  predicate Combines(i: Instr) { (i.base.Pure? && !i.base.op.Mov?) || i.base.Fma? || i.base.Setp? }

  predicate FromParameter(i: Instr) { |i.operands| == 2 && i.operands[1].Sym? }

  predicate BecomesUniform(i: Instr, values: Facts, names: Names) {
    if i.base.Ld? then FromParameter(i)
    else if i.base == Pure(Mov) then
      |i.operands| == 2 && !i.operands[1].Addr? && UniformSource(i.operands[1], values, names)
    else
      Combines(i) && |i.operands| > 1 && forall k | 1 <= k < |i.operands| :: UniformSource(i.operands[k], values, names)
  }

  predicate BecomesVarying(i: Instr, values: Facts, names: Names) {
    if i.base.Ld? then !FromParameter(i)
    else if i.base == Pure(Mov) then
      |i.operands| == 2 && !i.operands[1].Addr? && VaryingSource(i.operands[1], values, names)
    else Combines(i) && exists k :: 1 <= k < |i.operands| && VaryingSource(i.operands[k], values, names)
  }

  lemma SourceExactly(o: Operand, values: Facts, names: Names)
    ensures OperandUniformity(o, values, names) == Uniform <==> UniformSource(o, values, names)
    ensures OperandUniformity(o, values, names) == Varying <==> VaryingSource(o, values, names)
  {
  }

  lemma ResultExactly(i: Instr, values: Facts, names: Names)
    requires i.operands != []
    ensures ResultUniformity(i, values, names) == Uniform <==> BecomesUniform(i, values, names)
    ensures ResultUniformity(i, values, names) == Varying <==> BecomesVarying(i, values, names)
  {
    hide OperandUniformity, UniformSource, VaryingSource;
    var sources := i.operands[1..];
    var states := OperandStates(sources, values, names);
    forall k | 1 <= k < |i.operands|
      ensures states[k - 1] == Uniform <==> UniformSource(i.operands[k], values, names)
      ensures states[k - 1] == Varying <==> VaryingSource(i.operands[k], values, names)
    {
      assert sources[k - 1] == i.operands[k];
      SourceExactly(i.operands[k], values, names);
    }
    if AnyVarying(states) {
      var k :| 0 <= k < |states| && states[k].Varying?;
      assert VaryingSource(i.operands[k + 1], values, names);
    }
    if k :| 1 <= k < |i.operands| && VaryingSource(i.operands[k], values, names) {
      assert states[k - 1].Varying?;
    }
    if forall k | 1 <= k < |i.operands| :: UniformSource(i.operands[k], values, names) {
      assert AllUniform(states);
    }
    if AllUniform(states) {
      forall k | 1 <= k < |i.operands|
        ensures UniformSource(i.operands[k], values, names)
      {
        assert states[k - 1].Uniform?;
      }
    }
  }

  /** The registers an instruction writes for the analysis. */
  predicate Writes(item: Item, r: Reg) {
    && item.Code? && (item.inst.base.Ld? || item.inst.base.Pure? || item.inst.base.Fma? || item.inst.base.Setp?)
    && item.inst.operands != [] && item.inst.operands[0] == RegOp(r)
  }

  /** After an item its register is uniform or varying exactly in these cases, and the others are what they were. */
  lemma StateExactly(p: Program, names: Names, k: nat, r: Reg)
    requires k < |p|
    ensures
      var before, after := ValuesBefore(p, names, k), ValuesBefore(p, names, k + 1);
      if Writes(p[k], r) then
        && r in after
        && (after[r] == Uniform <==> BecomesUniform(p[k].inst, before, names))
        && (after[r] == Varying <==> BecomesVarying(p[k].inst, before, names))
      else (r in after <==> r in before) && (r in after ==> after[r] == before[r])
  {
    hide ResultUniformity, BecomesUniform, BecomesVarying;
    if Writes(p[k], r) {
      ResultExactly(p[k].inst, ValuesBefore(p, names, k), names);
    }
  }

  /* ---------- what the geometry is ---------- */

  ghost predicate AgreeInWarps(s: Special) {
    forall l: Launch, block: nat, t: nat, u: nat | ValidLaunch(l) && SameWarp(l, t, u) ::
      SpecialValue(l, block, t, s) == SpecialValue(l, block, u, s)
  }

  /** Apart from the warp number, an index is uniform exactly when all lanes of every warp of every launch agree on it. */
  lemma GeometryExactly(s: Special, names: Names, n: nat)
    requires names(n) == Geometry(s) && !s.WarpId?
    ensures UniformSource(Sym(n), map[], names) <==> AgreeInWarps(s)
    ensures VaryingSource(Sym(n), map[], names) <==> !AgreeInWarps(s)
  {
    var box := if s == Tid(Y) then Dim(1, 2, 1) else if s == Tid(Z) then Dim(1, 1, 2) else Dim(2, 1, 1);
    var l := Launch(box, Dim(1, 1, 1), 2);
    if s.Tid? || s.LaneId? {
      assert SameWarp(l, 0, 1);
      assert SpecialValue(l, 0, 0, s) != SpecialValue(l, 0, 1, s);
    }
  }
}
