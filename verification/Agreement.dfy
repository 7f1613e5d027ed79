/** States that agree on the registers that matter, and that instructions reading only those keep it so. */
module Agreement {
  import opened Isa
  import opened Ptx

  /** Same memory, carry and trace, and the same values in the registers that matter. */
  ghost predicate SameOn(matters: Reg -> bool, s: State, t: State) {
    && s.carry == t.carry && s.mem == t.mem && s.trace == t.trace
    && forall r: Reg | matters(r) :: Get(s.regs, r) == Get(t.regs, r)
  }

  lemma SameOnTransitive(matters: Reg -> bool, s: State, t: State, u: State)
    requires SameOn(matters, s, t) && SameOn(matters, t, u)
    ensures SameOn(matters, s, u)
  {
  }

  lemma SameOperands(unit: Unit, operands: seq<Operand>, s: map<Reg, Word>, t: map<Reg, Word>)
    requires forall r | r in AllRegs(operands) :: Get(s, r) == Get(t, r)
    ensures Values(unit, operands, s) == Values(unit, operands, t)
  {
    forall k | 0 <= k < |operands|
      ensures Value(unit, operands[k], s) == Value(unit, operands[k], t)
    {
      RegsOf(operands, k);
    }
  }

  lemma SetSame(matters: Reg -> bool, s: State, t: State, o: Operand, w: Word)
    requires SameOn(matters, s, t)
    ensures SameOn(matters, SetReg(s, o, w), SetReg(t, o, w))
  {
  }

  lemma ReadsSame(unit: Unit, matters: Reg -> bool, i: Instr, s: State, t: State)
    requires SameOn(matters, s, t) && forall r | r in ReadRegs(i) :: matters(r)
    ensures GuardPasses(i, s) == GuardPasses(i, t)
    ensures i.operands != [] ==> Values(unit, i.operands[1..], s.regs) == Values(unit, i.operands[1..], t.regs)
    ensures i.operands != [] && i.base.St? ==> Value(unit, i.operands[0], s.regs) == Value(unit, i.operands[0], t.regs)
  {
    if i.operands != [] {
      assert AllRegs(i.operands) == OperandRegs(i.operands[0]) + AllRegs(i.operands[1..]);
      SameOperands(unit, i.operands[1..], s.regs, t.regs);
    }
  }

  lemma OperandsDecide(unit: Unit, matters: Reg -> bool, i: Instr, s: State, t: State)
    requires SameOn(matters, s, t)
    requires i.operands != [] ==> Values(unit, i.operands[1..], s.regs) == Values(unit, i.operands[1..], t.regs)
    requires i.operands != [] && i.base.St? ==>
               Value(unit, i.operands[0], s.regs) == Value(unit, i.operands[0], t.regs)
    ensures Effect(unit, i, s).Some? == Effect(unit, i, t).Some?
    ensures Effect(unit, i, s).Some? ==> SameOn(matters, Effect(unit, i, s).value, Effect(unit, i, t).value)
  {
    if i.operands != [] {
      var o, v := i.operands[0], Values(unit, i.operands[1..], s.regs);
      match i.base
      case Pure(op) =>
        if i.cc {
          SetSame(matters, s, t, o, unit.carry(op, i.mods, i.ty, v, s.carry).0);
        } else {
          SetSame(matters, s, t, o, PureResult(unit, op, i.mods, i.ty, v));
        }
      case Fma => SetSame(matters, s, t, o, unit.fma(i.mods, i.ty, v));
      case Setp =>
        var w: Word := if unit.setp(i.mods, i.ty, v) then 1 else 0;
        SetSame(matters, s, t, o, w);
      case Ld =>
        if |v| == 1 {
          SetSame(matters, s, t, o, unit.param(i.mods, i.ty, v[0]));
          SetSame(matters, s, t, o, Get(s.mem, v[0]));
        }
      case _ =>
    }
  }

  /** An instruction that reads only what matters does the same in both states. */
  lemma EffectSame(unit: Unit, matters: Reg -> bool, i: Instr, s: State, t: State)
    requires SameOn(matters, s, t) && forall r | r in ReadRegs(i) :: matters(r)
    ensures GuardPasses(i, s) == GuardPasses(i, t)
    ensures Effect(unit, i, s).Some? == Effect(unit, i, t).Some?
    ensures Effect(unit, i, s).Some? ==> SameOn(matters, Effect(unit, i, s).value, Effect(unit, i, t).value)
  {
    ReadsSame(unit, matters, i, s, t);
    OperandsDecide(unit, matters, i, s, t);
  }
}
