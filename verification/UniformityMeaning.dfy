/** Two lanes of a warp that run in lockstep agree on every register classified as uniform. */
module UniformityMeaning {
  import opened Isa
  import M = Machine
  import opened Ptx
  import opened Uniformity

  /** The symbols of a lane: parameters are shared, geometry is read from the launch. */
  predicate ReadsGeometry(unit: Unit, names: Names, l: Launch, block: nat, thread: nat, n: nat)
    requires ValidLaunch(l)
  {
    names(n).Geometry? ==> unit.symbol(n) == M.Wrap(SpecialValue(l, block, thread, names(n).special))
  }

  ghost predicate SameWarpUnits(a: Unit, b: Unit, names: Names, l: Launch, block: nat, t: nat, u: nat)
    requires ValidLaunch(l)
  {
    && SameWarp(l, t, u)
    && a.(symbol := b.symbol) == b
    && (forall n: nat :: ReadsGeometry(a, names, l, block, t, n) && ReadsGeometry(b, names, l, block, u, n))
    && (forall n: nat | names(n).Parameter? :: a.symbol(n) == b.symbol(n))
  }

  /** The warp number is not read, or it is uniform. */
  ghost predicate WarpIdSafe(names: Names, l: Launch)
    requires ValidLaunch(l)
  {
    RowsFitWarps(l) || forall n: nat :: names(n) != Geometry(WarpId)
  }

  /** Neither control flow, nor guarded or carry writes; parameter loads name parameters. */
  predicate Straight(item: Item, names: Names) {
    item.Code? ==>
      && item.inst.guard.None? && !item.inst.cc && !item.inst.base.Bra? && !item.inst.base.Ret?
      && (LoadsParameter(item.inst) ==> names(item.inst.operands[1].name).Parameter?)
  }

  /** The lanes hold the same values in the registers classified as uniform. */
  ghost predicate AgreeOn(values: Facts, s: State, t: State) {
    forall r: Reg | ValueOf(values, r).Uniform? :: Get(s.regs, r) == Get(t.regs, r)
  }

  lemma SameSymbol(a: Unit, b: Unit, names: Names, l: Launch, block: nat, t: nat, u: nat, n: nat)
    requires ValidLaunch(l) && SameWarpUnits(a, b, names, l, block, t, u) && WarpIdSafe(names, l)
    requires OperandUniformity(Sym(n), map[], names).Uniform?
    ensures a.symbol(n) == b.symbol(n)
  {
    if names(n).Geometry? {
      assert ReadsGeometry(a, names, l, block, t, n) && ReadsGeometry(b, names, l, block, u, n);
      if names(n).special.WarpId? {
        WarpIdUniformExactly(l, block);
      }
    }
  }

  /** An operand classified as uniform has the same value in both lanes. */
  lemma OperandAgrees(a: Unit, b: Unit, names: Names, l: Launch, block: nat, t: nat, u: nat, o: Operand, values: Facts,
                      s: State, v: State)
    requires ValidLaunch(l) && SameWarpUnits(a, b, names, l, block, t, u) && WarpIdSafe(names, l)
    requires OperandUniformity(o, values, names).Uniform? && AgreeOn(values, s, v)
    ensures Value(a, o, s.regs) == Value(b, o, v.regs)
  {
    if o.Sym? {
      SameSymbol(a, b, names, l, block, t, u, o.name);
    }
  }

  lemma OperandsAgree(a: Unit, b: Unit, names: Names, l: Launch, block: nat, t: nat, u: nat, operands: seq<Operand>,
                      values: Facts, s: State, v: State)
    requires ValidLaunch(l) && SameWarpUnits(a, b, names, l, block, t, u) && WarpIdSafe(names, l)
    requires AllUniform(OperandStates(operands, values, names)) && AgreeOn(values, s, v)
    ensures Values(a, operands, s.regs) == Values(b, operands, v.regs)
  {
    forall k | 0 <= k < |operands|
      ensures Value(a, operands[k], s.regs) == Value(b, operands[k], v.regs)
    {
      assert OperandStates(operands, values, names)[k].Uniform?;
      OperandAgrees(a, b, names, l, block, t, u, operands[k], values, s, v);
    }
  }

  /** The operands of a result classified as uniform agree. */
  lemma SourcesAgree(a: Unit, b: Unit, names: Names, l: Launch, block: nat, t: nat, u: nat, i: Instr, values: Facts,
                     s: State, v: State)
    requires ValidLaunch(l) && SameWarpUnits(a, b, names, l, block, t, u) && WarpIdSafe(names, l)
    requires Straight(Code(i), names) && AgreeOn(values, s, v)
    requires Written(i).Some? && ResultUniformity(i, values, names).Uniform?
    ensures Values(a, i.operands[1..], s.regs) == Values(b, i.operands[1..], v.regs)
  {
    var sources := i.operands[1..];
    if i.base.Ld? {
      assert sources == [i.operands[1]] && a.symbol(i.operands[1].name) == b.symbol(i.operands[1].name);
    } else if i.base == Pure(Mov) {
      assert sources == [i.operands[1]];
      assert OperandUniformity(i.operands[1], values, names).Uniform?;
      OperandAgrees(a, b, names, l, block, t, u, i.operands[1], values, s, v);
    } else {
      OperandsAgree(a, b, names, l, block, t, u, sources, values, s, v);
    }
  }

  lemma ResultAgrees(a: Unit, b: Unit, i: Instr, v: seq<Word>)
    requires a.(symbol := b.symbol) == b && i.base.Pure?
    ensures PureResult(a, i.base.op, i.mods, i.ty, v) == PureResult(b, i.base.op, i.mods, i.ty, v)
  {
  }

  /** What an instruction writes, when its result is classified as uniform. */
  lemma WrittenAgrees(a: Unit, b: Unit, names: Names, l: Launch, block: nat, t: nat, u: nat, i: Instr, values: Facts,
                      s: State, v: State)
    requires ValidLaunch(l) && SameWarpUnits(a, b, names, l, block, t, u) && WarpIdSafe(names, l)
    requires Straight(Code(i), names) && AgreeOn(values, s, v)
    requires Written(i).Some? && ResultUniformity(i, values, names).Uniform?
    requires Effect(a, i, s).Some? && Effect(b, i, v).Some?
    ensures Get(Effect(a, i, s).value.regs, Written(i).value) == Get(Effect(b, i, v).value.regs, Written(i).value)
  {
    SourcesAgree(a, b, names, l, block, t, u, i, values, s, v);
    if i.base.Pure? {
      ResultAgrees(a, b, i, Values(a, i.operands[1..], s.regs));
    }
  }

  lemma OthersKept(unit: Unit, i: Instr, s: State)
    requires Effect(unit, i, s).Some?
    ensures forall r: Reg | Written(i) != Some(r) :: Get(Effect(unit, i, s).value.regs, r) == Get(s.regs, r)
  {
  }

  /** One lockstep item keeps the agreement. */
  lemma ItemAgrees(a: Unit, b: Unit, names: Names, l: Launch, block: nat, t: nat, u: nat, p: Program, k: nat,
                   s: State, v: State)
    requires ValidLaunch(l) && SameWarpUnits(a, b, names, l, block, t, u) && WarpIdSafe(names, l)
    requires k < |p| && Straight(p[k], names) && AgreeOn(ValuesBefore(p, names, k), s, v)
    requires Step(a, p, k, s).At? && Step(b, p, k, v).At?
    ensures Step(a, p, k, s).pc == k + 1 && Step(b, p, k, v).pc == k + 1
    ensures AgreeOn(ValuesBefore(p, names, k + 1), Step(a, p, k, s).s, Step(b, p, k, v).s)
  {
    if p[k].Code? {
      var i, values := p[k].inst, ValuesBefore(p, names, k);
      OthersKept(a, i, s);
      OthersKept(b, i, v);
      if Written(i).Some? && ResultUniformity(i, values, names).Uniform? {
        WrittenAgrees(a, b, names, l, block, t, u, i, values, s, v);
      }
    }
  }

  /** After any straight-line prefix, two lanes of one warp agree on every register classified as uniform. */
  lemma {:induction false} LanesAgree(a: Unit, b: Unit, names: Names, l: Launch, block: nat, t: nat, u: nat,
                                      p: Program, k: nat, s: State, v: State)
    requires ValidLaunch(l) && SameWarpUnits(a, b, names, l, block, t, u) && WarpIdSafe(names, l)
    requires k <= |p| && forall j | 0 <= j < k :: Straight(p[j], names)
    requires Run(Steps(a, p), At(0, s), k).At? && Run(Steps(b, p), At(0, v), k).At?
    ensures Run(Steps(a, p), At(0, s), k).pc == k && Run(Steps(b, p), At(0, v), k).pc == k
    ensures AgreeOn(ValuesBefore(p, names, k), Run(Steps(a, p), At(0, s), k).s, Run(Steps(b, p), At(0, v), k).s)
  {
    if k > 0 {
      RunAppend(Steps(a, p), At(0, s), k - 1, 1);
      RunAppend(Steps(b, p), At(0, v), k - 1, 1);
      LanesAgree(a, b, names, l, block, t, u, p, k - 1, s, v);
      var o, q := Run(Steps(a, p), At(0, s), k - 1), Run(Steps(b, p), At(0, v), k - 1);
      LastStep(a, p, o);
      LastStep(b, p, q);
      ItemAgrees(a, b, names, l, block, t, u, p, k - 1, o.s, q.s);
    }
  }

  lemma LastStep(unit: Unit, p: Program, o: Outcome)
    requires o.At?
    ensures Run(Steps(unit, p), o, 1) == Step(unit, p, o.pc, o.s)
  {
    assert Run(Steps(unit, p), Step(unit, p, o.pc, o.s), 0) == Step(unit, p, o.pc, o.s);
  }

  /** So a branch on a uniform predicate does not diverge. */
  lemma UniformBranchConverges(a: Unit, b: Unit, names: Names, l: Launch, block: nat, t: nat, u: nat,
                               p: Program, k: nat, s: State, v: State)
    requires ValidLaunch(l) && SameWarpUnits(a, b, names, l, block, t, u) && WarpIdSafe(names, l)
    requires k < |p| && forall j | 0 <= j < k :: Straight(p[j], names)
    requires Run(Steps(a, p), At(0, s), k).At? && Run(Steps(b, p), At(0, v), k).At?
    requires GuardedBranch(p[k]) && ValueOf(ValuesBefore(p, names, k), p[k].inst.guard.value).Uniform?
    ensures GuardPasses(p[k].inst, Run(Steps(a, p), At(0, s), k).s) == GuardPasses(p[k].inst, Run(Steps(b, p), At(0, v), k).s)
  {
    LanesAgree(a, b, names, l, block, t, u, p, k, s, v);
  }
}
