/** Exactly what dead-code elimination keeps, said of operands and of chains of reads. */
module DceExact {
  import opened Isa
  import opened Ptx
  import opened Dce

  /** Guarded, with a carry, not a pure operation, or writing a predicate. */
  predicate HasEffect(i: Instr) {
    || i.guard.Some? || i.cc || !i.base.Pure? || i.ty.PredTy?
    || (i.operands != [] && i.operands[0].RegOp? && i.operands[0].reg.cls.PClass?)
  }

  /** `r` is the guard, or an operand or the register of an address, other than the destination. */
  predicate Reads(i: Instr, r: Reg) {
    var first := if i.base.Pure? || i.base.Ld? || i.base.Setp? then 1 else 0;
    i.guard == Some(r)
    || exists k :: first <= k < |i.operands| && (i.operands[k] == RegOp(r) || i.operands[k] == Addr(r))
  }

  /** Item `i` writes a register that item `j` reads. */
  predicate ReadBy(p: Program, i: nat, j: nat) {
    && IsCode(p, i) && IsCode(p, j) && p[i].inst.operands != [] && p[i].inst.operands[0].RegOp?
    && Reads(p[j].inst, p[i].inst.operands[0].reg)
  }

  /** Item `i` has an effect, or a chain of at most `n` reads leads from its result to an item that has. */
  ghost predicate Matters(p: Program, i: nat, n: nat)
    decreases n
  {
    && IsCode(p, i)
    && (HasEffect(p[i].inst) || (n > 0 && exists j: nat :: ReadBy(p, i, j) && Matters(p, j, n - 1)))
  }

  lemma ReadsExactly(i: Instr, r: Reg)
    ensures r in ReadRegs(i) <==> Reads(i, r)
  {
    var first := if i.base.Pure? || i.base.Ld? || i.base.Setp? then 1 else 0;
    var ops := if first == 1 && i.operands != [] then i.operands[1..] else i.operands;
    AllRegsExactly(ops, r);
    if k :| first <= k < |i.operands| && (i.operands[k] == RegOp(r) || i.operands[k] == Addr(r)) {
      assert ops[k - first] == i.operands[k];
    }
    if k :| 0 <= k < |ops| && (ops[k] == RegOp(r) || ops[k] == Addr(r)) {
      assert ops[k] == i.operands[k + first];
    }
  }

  lemma EffectExactly(p: Program, i: nat)
    ensures Seed(p, i) <==> IsCode(p, i) && HasEffect(p[i].inst)
  {
  }

  /** Among instructions that may be deleted, feeding is being read. */
  lemma FeedsExactly(p: Program, i: nat, j: nat)
    requires IsCode(p, i) && !HasEffect(p[i].inst)
    ensures Feeds(p, i, j) <==> ReadBy(p, i, j)
  {
    if IsCode(p, j) && p[i].inst.operands != [] && p[i].inst.operands[0].RegOp? {
      var r := p[i].inst.operands[0].reg;
      ReadsExactly(p[j].inst, r);
      assert Defines(p, i, r);
    }
  }

  lemma {:induction false} MatteringIsLive(p: Program, live: set<nat>, i: nat, n: nat)
    requires IsLive(p, live) && Matters(p, i, n)
    ensures i in live
    decreases n
  {
    EffectExactly(p, i);
    if !HasEffect(p[i].inst) {
      var j: nat :| ReadBy(p, i, j) && Matters(p, j, n - 1);
      MatteringIsLive(p, live, j, n - 1);
      FeedsExactly(p, i, j);
    }
  }

  ghost predicate EverMatters(p: Program, i: nat) { exists n: nat :: Matters(p, i, n) }

  lemma MatteringClosed(p: Program)
    ensures Closed(p, set i: nat | i < |p| && EverMatters(p, i))
  {
    forall i: nat | Seed(p, i)
      ensures EverMatters(p, i)
    {
      assert Matters(p, i, 0);
    }
    forall i: nat, d: nat | EverMatters(p, i) && Feeds(p, d, i)
      ensures EverMatters(p, d)
    {
      var n: nat :| Matters(p, i, n);
      if HasEffect(p[d].inst) {
        assert Matters(p, d, 0);
      } else {
        FeedsExactly(p, d, i);
        assert Matters(p, d, n + 1);
      }
    }
  }

  /** An instruction is kept exactly when it matters. */
  lemma LiveExactly(p: Program, live: set<nat>, i: nat)
    requires IsLive(p, live)
    ensures i in live <==> EverMatters(p, i)
  {
    if EverMatters(p, i) {
      var n: nat :| Matters(p, i, n);
      MatteringIsLive(p, live, i, n);
    }
    MatteringClosed(p);
    if i in live {
      var mattering := set j: nat | j < |p| && EverMatters(p, j);
      assert Closed(p, mattering) && live <= mattering && i in mattering;
      assert EverMatters(p, i);
    }
  }

  /** So an instruction without an effect whose result nothing reads is deleted. */
  lemma UnreadDeleted(p: Program, live: set<nat>, i: nat)
    requires IsLive(p, live) && IsCode(p, i) && !HasEffect(p[i].inst)
    requires forall j: nat :: !ReadBy(p, i, j)
    ensures i !in live
  {
    LiveExactly(p, live, i);
  }
}
