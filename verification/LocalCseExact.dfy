/** When a recorded expression holds, and when a scope ignores a register that differs before it. */
module LocalCseExact {
  import opened Isa
  import opened Ptx
  import opened LocalCse
  import opened LocalCseMeaning

  /* ---------- recorded expressions ---------- */

  /** After the instruction its destination holds what its expression evaluates to, whatever the machine computes. */
  ghost predicate ExpressionHolds(i: Instr)
    requires Keyed(i)
  {
    forall unit: Unit, w: Regs :: Get(Apply(unit, i, w), Dest(i)) == Result(unit, KeyOf(i).value, Apply(unit, i, w))
  }

  /** Operations on which the result depends in no known way, and moves. */
  predicate OpenOrMove(i: Instr)
    requires Keyed(i)
  {
    i.base.op.Mov? || Uninterpreted(i.base.op, i.ty, |Sources(i)|)
  }

  /** A unit whose results tell whether operand `k` is zero. */
  function TestsOperand(k: nat): Unit {
    Unit((op: PureOp, mods: nat, t: Ty, v: seq<Word>) => if k < |v| && v[k] == 0 then 1 else 0,
         (op: PureOp, mods: nat, t: Ty, v: seq<Word>, carry: Word) => (0, 0),
         (mods: nat, t: Ty, v: seq<Word>) => 0,
         (mods: nat, t: Ty, v: seq<Word>) => false,
         (mods: nat, t: Ty, name: Word) => 0,
         (name: nat) => 0)
  }

  lemma TestedResult(i: Instr, k: nat, w: Regs)
    requires Keyed(i) && Uninterpreted(i.base.op, i.ty, |Sources(i)|) && k < |Sources(i)|
    requires Mentions(Sources(i)[k], Dest(i))
    ensures Result(TestsOperand(k), KeyOf(i).value, w) == if Get(w, Dest(i)) == 0 then 1 else 0
  {
    var v := Values(TestsOperand(k), Sources(i), w);
    assert v[k] == Get(w, Dest(i));
  }

  /** The expression of an instruction holds after it exactly when the instruction does not read its destination. */
  lemma ExpressionHoldsExactly(i: Instr)
    requires Keyed(i) && OpenOrMove(i)
    ensures ExpressionHolds(i) <==> !Reads(i, Dest(i)) || i.base.op.Mov?
  {
    if Reads(i, Dest(i)) && !i.base.op.Mov? {
      var k: nat :| k < |Sources(i)| && Mentions(Sources(i)[k], Dest(i));
      var unit, w: Regs := TestsOperand(k), map[];
      TestedResult(i, k, w);
      TestedResult(i, k, Apply(unit, i, w));
    } else {
      forall unit: Unit, w: Regs
        ensures Get(Apply(unit, i, w), Dest(i)) == Result(unit, KeyOf(i).value, Apply(unit, i, w))
      {
        if i.base.op.Mov? {
          MoveHolds(unit, i, w);
        } else {
          ResultUnchanged(unit, KeyOf(i).value, w, Dest(i), Result(unit, KeyOf(i).value, w));
        }
      }
    }
  }

  lemma MoveHolds(unit: Unit, i: Instr, w: Regs)
    requires Keyed(i) && i.base.op.Mov?
    ensures Get(Apply(unit, i, w), Dest(i)) == Result(unit, KeyOf(i).value, Apply(unit, i, w))
  {
    var o := Sources(i)[0];
    assert Values(unit, Sources(i), w)[0] == Value(unit, o, w);
    assert Values(unit, Sources(i), Apply(unit, i, w))[0] == Value(unit, o, Apply(unit, i, w));
  }

  /* ---------- registers that differ before a scope ---------- */

  /** Every instruction of the scope computes the same from `v` as from `w`. */
  predicate SameResults(unit: Unit, insts: seq<Instr>, v: Regs, w: Regs)
    requires Straight(insts)
  {
    insts == []
    || (Result(unit, KeyOf(insts[0]).value, v) == Result(unit, KeyOf(insts[0]).value, w)
        && SameResults(unit, insts[1..], Apply(unit, insts[0], v), Apply(unit, insts[0], w)))
  }

  /** Whatever the machine computes, the scope does not depend on what is in `u` before it. */
  ghost predicate Ignores(insts: seq<Instr>, u: Reg)
    requires Straight(insts)
  {
    forall unit: Unit, v: Regs, w: Regs | AgreeExcept({u}, v, w) :: SameResults(unit, insts, v, w)
  }

  lemma {:induction false} UnexposedSame(unit: Unit, insts: seq<Instr>, unknown: set<Reg>, v: Regs, w: Regs)
    requires Straight(insts) && AgreeExcept(unknown, v, w) && Unexposed(unknown, insts)
    ensures SameResults(unit, insts, v, w)
  {
    if insts != [] {
      var sources := Sources(insts[0]);
      forall k | 0 <= k < |sources|
        ensures Value(unit, sources[k], v) == Value(unit, sources[k], w)
      {
        if sources[k].RegOp? || sources[k].Addr? {
          assert Mentions(sources[k], sources[k].reg);
          assert Reads(insts[0], sources[k].reg);
          assert Exposed(insts, sources[k].reg);
        }
      }
      assert Values(unit, sources, v) == Values(unit, sources, w);
      UnexposedStep(unknown, insts);
      UnexposedSame(unit, insts[1..], unknown - {Dest(insts[0])}, Apply(unit, insts[0], v), Apply(unit, insts[0], w));
    }
  }

  /** The operand through which an exposed register is first read. */
  function FirstOperand(insts: seq<Instr>, u: Reg): nat
    requires Straight(insts) && Exposed(insts, u)
  {
    if Reads(insts[0], u) then OperandOf(Sources(insts[0]), u) else FirstOperand(insts[1..], u)
  }

  function OperandOf(sources: seq<Operand>, u: Reg): (k: nat)
    requires UsesRegister(sources, u)
    ensures k < |sources| && Mentions(sources[k], u)
  {
    if Mentions(sources[0], u) then 0
    else
      assert exists k :: 0 <= k < |sources[1..]| && Mentions(sources[1..][k], u) by {
        var k :| 0 <= k < |sources| && Mentions(sources[k], u);
        assert Mentions(sources[1..][k - 1], u);
      }
      OperandOf(sources[1..], u) + 1
  }

  lemma {:induction false} ExposedDiffers(insts: seq<Instr>, u: Reg, v: Regs, w: Regs)
    requires Straight(insts) && Exposed(insts, u) && forall k | 0 <= k < |insts| :: OpenOrMove(insts[k])
    requires Get(v, u) == 0 && Get(w, u) == 1
    ensures !SameResults(TestsOperand(FirstOperand(insts, u)), insts, v, w)
  {
    var unit, i := TestsOperand(FirstOperand(insts, u)), insts[0];
    if Reads(i, u) {
      var k := OperandOf(Sources(i), u);
      assert Values(unit, Sources(i), v)[k] == 0 && Values(unit, Sources(i), w)[k] == 1;
      assert i.base.op.Mov? ==> |Sources(i)| == 1;
    } else {
      ExposedDiffers(insts[1..], u, Apply(unit, i, v), Apply(unit, i, w));
    }
  }

  /** A scope of open operations and moves ignores a register exactly when it does not read it before writing it. */
  lemma IgnoresExactly(insts: seq<Instr>, u: Reg)
    requires Straight(insts) && forall k | 0 <= k < |insts| :: OpenOrMove(insts[k])
    ensures Ignores(insts, u) <==> !Exposed(insts, u)
  {
    if Exposed(insts, u) {
      ExposedDiffers(insts, u, map[u := 0], map[u := 1]);
      assert AgreeExcept({u}, map[u := 0], map[u := 1]);
    } else {
      forall unit: Unit, v: Regs, w: Regs | AgreeExcept({u}, v, w)
        ensures SameResults(unit, insts, v, w)
      {
        UnexposedSame(unit, insts, {u}, v, w);
      }
    }
  }
}
