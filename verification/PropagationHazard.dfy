/** Two programs that constant propagation changes: a loop at the entry, and a fused operation. */
module PropagationHazard {
  import opened Isa
  import opened Ptx
  import opened Cfg
  import opened Graphs
  import opened Dataflow
  import opened ConstantPropagation
  import opened PropagationMeaning

  function Move(t: Ty, d: Reg, o: Operand): Instr { Instr(Pure(Mov), 0, false, t, [RegOp(d), o], None, false) }

  lemma FoldMove(t: Ty, d: Reg, o: Operand, c: Constants)
    requires !IsPredicate(d)
    ensures
      var f := Fold(Move(t, d, o), c);
      match Resolve(o, t, c)
      case None => f == (Move(t, d, o), None)
      case Some(k) => f == (Move(t, d, Literal(k)), Some(k))
  {
    var i := Move(t, d, o);
    assert i.operands[1..] == [o];
    var known := ResolveAll([o], t, c);
    assert known == [Resolve(o, t, c)];
    if known[0].Some? {
      assert [i.operands[0]] + Substitute([o], known) == [RegOp(d), Literal(known[0].value)];
    }
  }

  /* ---------- an entry block that is a loop header ---------- */

  const R0 := Reg(RClass, 0)
  const R1 := Reg(RClass, 1)

  const Back := Instr(Bra, 0, false, OtherTy(0), [Sym(0)], None, false)

  const Seven := Const(Ty.U32, 7)

  /** The loop copies R0 to R1 before it sets R0 to 7. */
  const Looping: Program :=
    [Label(0), Code(Move(Ty.U32, R1, RegOp(R0))), Code(Move(Ty.U32, R0, Imm(7))), Code(Back)]

  lemma LoopingBlocks()
    ensures Leaders(Looping) == {0} && BlockEnd(Looping, 0) == 4
    ensures CfgOf(Looping).pred == map[0 := {0}]
  {
    assert forall i: nat | i < 4 :: BlockStart(Looping, i) <==> i == 0;
    assert BlockEnd(Looping, 3) == 4;
    assert BlockEnd(Looping, 2) == 4;
    assert BlockEnd(Looping, 1) == 4;
    assert IsBra(Looping, 3);
    assert FindLabel(Looping, 0) == Some(0);
    assert SuccessorsAt(Looping, 0) == {0};
    var succ: map<nat, set<nat>> := map[0 := {0}];
    assert (map s | s in Leaders(Looping) :: SuccessorsAt(Looping, s)) == succ;
    assert Inverse({0}, succ)[0] == {0};
  }

  /** Whatever is known before the loop, R0 is known to be 7 after it. */
  lemma FactsAlongLoop(c: Constants)
    ensures Has(TransferRange(FlowOf(Looping), 0, 4, c), R0, Seven)
  {
    var flow := FlowOf(Looping);
    var c2 := TransferRange(flow, 0, 2, c);
    FoldMove(Ty.U32, R0, Imm(7), c2);
    assert TransferRange(flow, 0, 3, c) == c2[R0 := Seven];
    assert TransferRange(flow, 0, 4, c) == c2[R0 := Seven];
  }

  lemma RoundOfLoop(preds: Preds, exits: Exits)
    requires 0 in exits
    ensures
      var after := Round(VisitOf(Looping, preds), exits, 4);
      0 in after && Has(after[0], R0, Seven)
  {
    LoopingBlocks();
    FactsAlongLoop(EntryFacts(preds, exits, 0));
    var visit := VisitOf(Looping, preds);
    var once := exits[0 := TransferRange(FlowOf(Looping), 0, 4, EntryFacts(preds, exits, 0))];
    assert Round(visit, exits, 1) == once;
    assert forall i: nat | 0 < i < 4 :: i !in Leaders(Looping);
    assert forall i: nat, e: Exits | 0 < i < 4 :: visit(e, i) == e;
    assert Round(visit, exits, 2) == once;
    assert Round(visit, exits, 3) == once;
  }

  lemma {:induction false} LoopExits(preds: Preds, n: nat)
    ensures 0 in Rounds(Looping, preds, n)
    ensures n > 0 ==> Has(Rounds(Looping, preds, n)[0], R0, Seven)
  {
    if n > 0 {
      LoopExits(preds, n - 1);
      RoundOfLoop(preds, Rounds(Looping, preds, n - 1));
    }
  }

  /** The constant 7 enters the entry block. */
  lemma LoopEntry(preds: Preds)
    requires preds == CfgOf(Looping).pred
    ensures Has(EntryFacts(preds, FinalExits(Looping, preds), 0), R0, Seven)
  {
    LoopingBlocks();
    LoopExits(preds, MaxRounds);
    var exits := FinalExits(Looping, preds);
    assert PredecessorsWithFacts(preds, exits, 0) == {0};
    assert Incoming(preds, exits, 0, exits[0]);
    IncomingUnique(preds, exits, 0, exits[0], EntryFacts(preds, exits, 0));
  }

  /** What the pass returns for this program differs from it within two steps, from every state where R0 is not 7. */
  lemma EntryLoopChangesMeaning(unit: Unit, preds: Preds, q: Program, s: State)
    requires preds == CfgOf(Looping).pred && Rewritten(Looping, preds, FinalExits(Looping, preds), q)
    requires Get(s.regs, R0) != 7
    ensures !EntryClean(Looping, preds)
    ensures exists n: nat :: n <= 2 && Run(Steps(unit, q), At(0, s), n) != Run(Steps(unit, Looping), At(0, s), n)
  {
    hide Rewritten, CfgOf, EntryFacts;
    LoopEntry(preds);
    EntryTest(Looping, preds, MaxRounds);
    var step := Steps(unit, Looping);
    assert Run(step, step(0, s), 0) == At(1, s);
    assert !Leader(Looping, 1) && BlockOf(Looping, 1) == 0;
    EntryUseChangesRun(unit, Looping, preds, FinalExits(Looping, preds), q, 1, R1, R0, s);
  }

  /* ---------- a fused operation on a register that is known ---------- */

  const F1 := Reg(FClass, 1)
  const F2 := Reg(FClass, 2)
  const F3 := Reg(FClass, 3)
  const F4 := Reg(FClass, 4)
  const Address := Reg(RdClass, 1)

  const Zero := Const(Ty.F32, 0)

  const Accumulate := Instr(Fma, 0, false, Ty.F32, [RegOp(F1), RegOp(F2), RegOp(F3), RegOp(F1)], None, false)
  const StoreF4 := Instr(St, 0, false, Ty.F32, [Addr(Address), RegOp(F4)], None, false)
  const Return := Instr(Ret, 0, false, OtherTy(0), [], None, false)

  /** F1 is cleared, accumulates a product, and is stored through F4. */
  function Kernel(o: Operand): Program {
    [Code(Move(Ty.F32, F1, FloatImm(0))), Code(Accumulate), Code(Move(Ty.F32, F4, o)), Code(StoreF4), Code(Return)]
  }

  const Accumulating := Kernel(RegOp(F1))

  /** The product added to zero. */
  function Sum(unit: Unit, s: State): Word {
    unit.fma(0, Ty.F32, [Get(s.regs, F2), Get(s.regs, F3), 0])
  }

  lemma KernelBlock(k: nat)
    requires k < 5
    ensures BlockOf(Accumulating, k) == 0 && CfgOf(Accumulating).pred[0] == {}
  {
    assert forall i: nat | 0 < i < 5 :: !Leader(Accumulating, i);
    assert BlockEnd(Accumulating, 4) == 5;
    assert BlockEnd(Accumulating, 3) == 5;
    assert BlockEnd(Accumulating, 2) == 5;
    assert BlockEnd(Accumulating, 1) == 5;
    assert SuccessorsAt(Accumulating, 0) == {} by {
      assert IsRet(Accumulating, 4) && !IsBra(Accumulating, 4);
    }
    if k > 0 {
      BlockOfStart(Accumulating, 0, k);
    }
  }

  lemma KernelEntry(preds: Preds, exits: Exits)
    requires preds == CfgOf(Accumulating).pred
    ensures EntryFacts(preds, exits, 0) == map[]
  {
    KernelBlock(0);
  }

  lemma KernelStart(preds: Preds, exits: Exits)
    requires preds == CfgOf(Accumulating).pred
    ensures EntryFacts(preds, exits, 0) == map[] && FactsAt(Accumulating, preds, exits, 1) == map[F1 := Zero]
  {
    hide CfgOf, EntryFacts, Fold;
    KernelBlock(1);
    KernelEntry(preds, exits);
    var c := EntryFacts(preds, exits, 0);
    FoldMove(Ty.F32, F1, FloatImm(0), c);
    assert TransferRange(ApplyFlow(Accumulating), 0, 1, c) == map[F1 := Zero];
  }

  /** The fused operation is not seen to write F1. */
  lemma KernelFacts(preds: Preds, exits: Exits)
    requires preds == CfgOf(Accumulating).pred
    ensures FactsAt(Accumulating, preds, exits, 2) == map[F1 := Zero]
  {
    hide CfgOf, EntryFacts, Fold;
    KernelBlock(1);
    KernelBlock(2);
    KernelStart(preds, exits);
    var flow, c := ApplyFlow(Accumulating), EntryFacts(preds, exits, 0);
    assert TransferRange(flow, 0, 1, c) == map[F1 := Zero];
    assert TransferRange(flow, 0, 2, c) == map[F1 := Zero];
  }

  lemma KernelItem(preds: Preds, exits: Exits, q: Program, i: nat)
    requires preds == CfgOf(Accumulating).pred && Rewritten(Accumulating, preds, exits, q) && i < 5
    ensures q[i] == Kernel(FloatImm(0))[i]
  {
    hide CfgOf, EntryFacts, TransferRange;
    assert RewritesTo(Accumulating, preds, exits, i, q[i]);
    var c := FactsAt(Accumulating, preds, exits, i);
    if i == 0 {
      FoldMove(Ty.F32, F1, FloatImm(0), c);
    } else if i == 2 {
      KernelFacts(preds, exits);
      FoldMove(Ty.F32, F4, RegOp(F1), c);
    } else {
      assert !Accumulating[i].inst.base.Pure?;
    }
  }

  lemma KernelRewritten(preds: Preds, exits: Exits, q: Program)
    requires preds == CfgOf(Accumulating).pred && Rewritten(Accumulating, preds, exits, q)
    ensures q == Kernel(FloatImm(0))
  {
    assert |q| == |Kernel(FloatImm(0))|;
    forall i: nat | i < 5
      ensures q[i] == Kernel(FloatImm(0))[i]
    {
      KernelItem(preds, exits, q, i);
    }
  }

  lemma MoveStep(unit: Unit, t: Ty, d: Reg, o: Operand, s: State)
    ensures Effect(unit, Move(t, d, o), s) == Some(s.(regs := s.regs[d := Value(unit, o, s.regs)]))
  {
    assert Move(t, d, o).operands[1..] == [o];
    assert Values(unit, [o], s.regs) == [Value(unit, o, s.regs)];
  }

  lemma FusedStep(unit: Unit, s: State)
    requires Get(s.regs, F1) == 0
    ensures Effect(unit, Accumulate, s) == Some(s.(regs := s.regs[F1 := Sum(unit, s)]))
  {
    var sources := [RegOp(F2), RegOp(F3), RegOp(F1)];
    assert Accumulate.operands[1..] == sources;
    assert Values(unit, sources, s.regs) == [Get(s.regs, F2), Get(s.regs, F3), 0];
  }

  lemma StoreStep(unit: Unit, s: State)
    ensures
      var a, w := Get(s.regs, Address), Get(s.regs, F4);
      Effect(unit, StoreF4, s) == Some(Log(s.(mem := s.mem[a := w]), StoreEvent(a, w)))
  {
    assert StoreF4.operands[1..] == [RegOp(F4)];
    assert Values(unit, [RegOp(F4)], s.regs) == [Get(s.regs, F4)];
  }

  lemma ClearStep(unit: Unit, o: Operand, s: State, s1: State)
    requires s1 == s.(regs := s.regs[F1 := 0])
    ensures Run(Steps(unit, Kernel(o)), At(0, s), 1) == At(1, s1)
  {
    var p, i := Kernel(o), Move(Ty.F32, F1, FloatImm(0));
    assert p[0] == Code(i);
    MoveStep(unit, Ty.F32, F1, FloatImm(0), s);
    assert Value(unit, FloatImm(0), s.regs) == 0;
    assert Effect(unit, i, s) == Some(s1);
    PlainStep(unit, p, 0, s, s1);
    RunMore(Steps(unit, p), At(0, s), 0, 0, s);
  }

  lemma SumStep(unit: Unit, o: Operand, s: State, s1: State, s2: State)
    requires Run(Steps(unit, Kernel(o)), At(0, s), 1) == At(1, s1) && Get(s1.regs, F1) == 0
    requires s2 == s1.(regs := s1.regs[F1 := Sum(unit, s1)])
    ensures Run(Steps(unit, Kernel(o)), At(0, s), 2) == At(2, s2)
  {
    var p, step := Kernel(o), Steps(unit, Kernel(o));
    assert p[1] == Code(Accumulate);
    FusedStep(unit, s1);
    PlainStep(unit, p, 1, s1, s2);
    RunMore(step, At(0, s), 1, 1, s1);
  }

  lemma LastSteps(unit: Unit, o: Operand, s: State, s2: State, s3: State, s4: State)
    requires Run(Steps(unit, Kernel(o)), At(0, s), 2) == At(2, s2)
    requires s3 == s2.(regs := s2.regs[F4 := Value(unit, o, s2.regs)]) && Effect(unit, StoreF4, s3) == Some(s4)
    ensures Run(Steps(unit, Kernel(o)), At(0, s), 5) == Stop(s4)
  {
    var p, step := Kernel(o), Steps(unit, Kernel(o));
    assert p[2] == Code(Move(Ty.F32, F4, o)) && p[3] == Code(StoreF4) && p[4] == Code(Return);
    MoveStep(unit, Ty.F32, F4, o, s2);
    PlainStep(unit, p, 2, s2, s3);
    RunMore(step, At(0, s), 2, 2, s2);
    PlainStep(unit, p, 3, s3, s4);
    RunMore(step, At(0, s), 3, 3, s3);
    assert Step(unit, p, 4, s4) == Stop(s4);
    RunMore(step, At(0, s), 4, 4, s4);
  }

  /** What the kernel stores is what its third instruction moves. */
  lemma KernelStores(unit: Unit, o: Operand, s: State, w: Word)
    requires w == Value(unit, o, s.regs[F1 := 0][F1 := Sum(unit, s)])
    ensures
      var end := Run(Steps(unit, Kernel(o)), At(0, s), 5);
      end.Stop? && end.final.mem == s.mem[Get(s.regs, Address) := w]
  {
    var s2 := s.(regs := s.regs[F1 := 0][F1 := Sum(unit, s)]);
    var s3 := s2.(regs := s2.regs[F4 := w]);
    var s1 := s.(regs := s.regs[F1 := 0]);
    assert Get(s1.regs, F2) == Get(s.regs, F2) && Get(s1.regs, F3) == Get(s.regs, F3);
    ClearStep(unit, o, s, s1);
    SumStep(unit, o, s, s1, s2);
    StoreStep(unit, s3);
    assert Get(s3.regs, Address) == Get(s.regs, Address);
    LastSteps(unit, o, s, s2, s3, Effect(unit, StoreF4, s3).value);
  }

  /** The program claims zero for what the fused operation writes. */
  lemma KernelUnseen(preds: Preds, exits: Exits)
    requires preds == CfgOf(Accumulating).pred
    ensures !AllSeen(Accumulating, preds, exits)
  {
    hide CfgOf, EntryFacts, FactsAt, Fold;
    KernelStart(preds, exits);
    assert Unseen(Accumulate) == Some(F1);
    assert !SeenAt(Accumulating, preds, exits, 1);
  }

  /**
   Nothing enters the entry block, but zero is claimed for what the fused operation writes: whenever the sum is not
   zero, the result of the pass stores zero where the program stores the sum.
   */
  lemma FusedWriteChangesMeaning(unit: Unit, preds: Preds, q: Program, s: State)
    requires preds == CfgOf(Accumulating).pred && Rewritten(Accumulating, preds, FinalExits(Accumulating, preds), q)
    requires Sum(unit, s) != 0
    ensures EntryFacts(preds, FinalExits(Accumulating, preds), 0) == map[]
    ensures !AllSeen(Accumulating, preds, FinalExits(Accumulating, preds))
    ensures
      var a := Get(s.regs, Address);
      var p, r := Run(Steps(unit, Accumulating), At(0, s), 5), Run(Steps(unit, q), At(0, s), 5);
      && p.Stop? && p.final.mem == s.mem[a := Sum(unit, s)] && r.Stop? && r.final.mem == s.mem[a := 0]
      && p.final.mem[a] != r.final.mem[a]
  {
    KernelEntry(preds, FinalExits(Accumulating, preds));
    KernelUnseen(preds, FinalExits(Accumulating, preds));
    KernelRewritten(preds, FinalExits(Accumulating, preds), q);
    KernelStores(unit, RegOp(F1), s, Sum(unit, s));
    KernelStores(unit, FloatImm(0), s, 0);
  }
}
