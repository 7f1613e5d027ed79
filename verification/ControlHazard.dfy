/** Regions that the planner converts although masking changes them: one sets its own guard, one has another guard. */
module ControlHazard {
  import opened Isa
  import M = Machine
  import opened ScheduleMeaning
  import opened Ptx
  import Cfg
  import G = Graphs
  import opened IfConversion
  import opened ControlPlan
  import opened Lowering
  import opened ConvertedRegions

  const P1 := Reg(PClass, 1)
  const P2 := Reg(PClass, 2)
  const R0 := Reg(RClass, 0)
  const R1 := Reg(RClass, 1)
  const R2 := Reg(RClass, 2)

  const SkipBranch := Instr(Bra, 0, false, OtherTy(0), [Sym(0)], Some(P1), false)

  const Skipping := Guard(1, true)

  function LoadSeven(guard: Option<Reg>): Instr { Instr(Pure(Mov), 0, false, Ty.U32, [RegOp(R2), Imm(7)], guard, false) }

  const CompareIntoGuard := Instr(Setp, 0, false, Ty.U32, [RegOp(P1), RegOp(R0), RegOp(R1)], None, false)

  /** `@p1 bra L; setp.eq p1, r0, r1; mov r2, 7; L:` */
  const SetsItsGuard: Program := [Code(SkipBranch), Code(CompareIntoGuard), Code(LoadSeven(None)), Label(0)]

  /** `@p1 bra L; @p2 mov r2, 7; L:` */
  const HasOtherGuard: Program := [Code(SkipBranch), Code(LoadSeven(Some(P2))), Label(0)]

  const Nothing: Plan := Plan({}, map[])

  lemma SkipsForward(p: Program, end: nat)
    requires (p == SetsItsGuard && end == 3) || (p == HasOtherGuard && end == 2)
    ensures IsForward(p, 0) && EndOf(p, 0) == end && SkipGuard(p, 0) == Some(Skipping)
    ensures forall i: nat :: i in RegionOf(p, 0) <==> 0 < i < end
  {
    assert p[end] == Label(0) && forall k | 0 <= k < end :: p[k] != Label(0);
    assert FindLabel(p, 0) == Some(end);
    assert Cfg.IsBra(p, 0);
  }

  /** Nothing but the entry itself dominates the entry. */
  lemma EntryUndominated(p: Program, header: nat)
    requires header != 0
    ensures !G.Dominates(Cfg.CfgOf(p), header, 0)
  {
    var g := Cfg.CfgOf(p);
    assert 0 in g.nodes;
    assert G.PathBetween(g, [0], 0, 0);
    assert header !in [0];
  }

  /** The only branch of the program leads forward, so it is not one of a loop. */
  lemma NoLoopBranch(p: Program, end: nat)
    requires (p == SetsItsGuard && end == 3) || (p == HasOtherGuard && end == 2)
    ensures forall k: nat :: !IsLoopBranch(p, k)
  {
    SkipsForward(p, end);
    forall k: nat, tail: nat, header: nat | BranchesBack(p, tail, header, k)
      ensures !G.BackEdge(Cfg.CfgOf(p), tail, header)
    {
      assert Cfg.IsBra(p, k);
      assert k == 0;
      assert tail == 0 && header == end;
      EntryUndominated(p, end);
    }
  }

  /** The planner converts the branch and guards the whole region. */
  lemma Converted(p: Program, end: nat, after: Plan, converted: Option<bool>)
    requires (p == SetsItsGuard && end == 3) || (p == HasOtherGuard && end == 2)
    requires Tried(p, 0, {}, Nothing, after, converted)
    ensures converted == Some(true) && after.skip == {0}
    ensures forall i: nat | 0 < i < end :: i in after.guards && after.guards[i] == Skipping
  {
    SkipsForward(p, end);
    var control: set<nat> :| IsUniformControl(p, RegionOf(p, 0), {}, control)
                             && TriedWith(p, 0, control, Nothing, after, converted);
    NoControlInside(p, RegionOf(p, 0), {});
    UniformControlUnique(p, RegionOf(p, 0), {}, control, {});
    assert 1 in RegionOf(p, 0);
  }

  lemma ComparisonCode(t: Homes)
    ensures Lowerable(CompareIntoGuard)
    ensures LowerInstr(CompareIntoGuard, t) == [Comparison(t)]
  {
    var ops := CompareIntoGuard.operands[1..];
    assert ops == [RegOp(R0), RegOp(R1)] && ops[1..] == [RegOp(R1)] && ops[1..][1..] == [];
    assert LowerSources(ops[1..][1..], t, FirstTemp) == Sources([], []);
    assert LowerSources(ops[1..], t, FirstTemp) == Sources([], [t.place(R1)]);
    assert LowerSources(ops, t, FirstTemp) == Sources([], [t.place(R0), t.place(R1)]);
  }

  function Comparison(t: Homes): Inst {
    Emitted(CMPP, DType.U32, 1, [t.place(R0), t.place(R1)], 0).(compare := Some(t.compare(0)))
  }

  lemma OneMore(p: Program, plan: Plan, t: Homes, a: nat, b: nat, inst: Inst)
    requires a <= b < |p| && b in plan.guards && p[b].Code? && Lowerable(p[b].inst) && LowerInstr(p[b].inst, t) == [inst]
    ensures
      GuardedCode(p, plan, LoweringOf(p, t), a, b + 1)
      == GuardedCode(p, plan, LoweringOf(p, t), a, b) + [Emit(inst, plan.guards[b])]
  {
    assert LoweringOf(p, t)(b) == [inst];
    assert EmitAll([inst], plan.guards[b]) == [Emit(inst, plan.guards[b])];
  }

  /** The emitted code of the region that sets its guard. */
  lemma EmittedComparison(t: Homes, plan: Plan)
    requires forall i: nat | 0 < i < 3 :: i in plan.guards && plan.guards[i] == Skipping
    ensures
      GuardedCode(SetsItsGuard, plan, LoweringOf(SetsItsGuard, t), 1, 3)
      == [Emit(Comparison(t), Skipping), Emit(LoadImmediate(t.place(R2), 7), Skipping)]
  {
    var p := SetsItsGuard;
    ComparisonCode(t);
    assert p[1] == Code(CompareIntoGuard) && p[2] == Code(LoadSeven(None));
    OneMore(p, plan, t, 1, 1, Comparison(t));
    OneMore(p, plan, t, 1, 2, LoadImmediate(t.place(R2), 7));
    assert GuardedCode(p, plan, LoweringOf(p, t), 1, 1) == [];
  }

  /** The comparison turns the guard off, so the load does nothing. */
  lemma LoadIsOff(fpu: M.Fpu, t: Homes, lane: M.Lane, mem: M.Memory)
    requires t.place(R0) < 256 && t.place(R1) < 256 && t.place(R2) < 256
    requires !lane.preds[1] && lane.regs[t.place(R0)] == lane.regs[t.place(R1)] && t.compare(0) == Eq
    ensures
      LaneRun(fpu, [Emit(Comparison(t), Skipping), Emit(LoadImmediate(t.place(R2), 7), Skipping)], lane, mem)
      == Some(Single(M.ApplyLane(M.SetPred(1, true), lane), mem))
  {
    var first, second := Emit(Comparison(t), Skipping), Emit(LoadImmediate(t.place(R2), 7), Skipping);
    var next := M.ApplyLane(M.SetPred(1, true), lane);
    assert M.LaneEffect(fpu, first, lane, mem) == M.SetPred(1, true);
    assert M.LaneEffect(fpu, second, next, mem) == M.Skip;
    LaneRunOne(fpu, first, lane, mem);
    LaneRunOne(fpu, second, next, mem);
    LaneRunAppend(fpu, [first], [second], lane, mem);
    assert [first] + [second] == [first, second];
  }

  lemma CompareStep(unit: Unit, s: State)
    ensures Effect(unit, CompareIntoGuard, s).Some?
  {
  }

  lemma LoadStep(unit: Unit, s: State)
    ensures Effect(unit, LoadSeven(None), s) == Some(s.(regs := s.regs[R2 := 7]))
  {
    var i := LoadSeven(None);
    assert i.operands[1..] == [Imm(7)];
    assert Values(unit, [Imm(7)], s.regs) == [7];
  }

  /** The run executes the region, and R2 becomes 7. */
  lemma RunLoadsSeven(unit: Unit, s: State)
    requires Get(s.regs, P1) == 0
    ensures
      var o := Run(Steps(unit, SetsItsGuard), At(0, s), 3);
      o.At? && o.pc == 3 && Get(o.s.regs, R2) == 7
  {
    var p, step, s1 := SetsItsGuard, Steps(unit, SetsItsGuard), Log(s, BranchEvent(false));
    SkipsForward(p, 3);
    assert p[1] == Code(CompareIntoGuard) && p[2] == Code(LoadSeven(None));
    assert Step(unit, p, 0, s) == At(1, s1);
    RunMore(step, At(0, s), 0, 0, s);
    CompareStep(unit, s1);
    var s2 := Effect(unit, CompareIntoGuard, s1).value;
    PlainStep(unit, p, 1, s1, s2);
    RunMore(step, At(0, s), 1, 1, s1);
    LoadStep(unit, s2);
    PlainStep(unit, p, 2, s2, s2.(regs := s2.regs[R2 := 7]));
    RunMore(step, At(0, s), 2, 2, s2);
  }

  /**
   A region that sets its own guard, in a program without loop branches: converted, it does not load R2 in a
   lane that does not take the branch.
   */
  lemma GuardWriteDiffers(fpu: M.Fpu, unit: Unit, t: Homes, plan: Plan, converted: Option<bool>, names: set<Reg>,
                          s: State, lane: M.Lane, mem: M.Memory)
    requires Tried(SetsItsGuard, 0, {}, Nothing, plan, converted)
    requires {R0, R1, R2} <= names && Placed(names, t) && t.compare(0) == Eq && Carries(names, t, s.regs, lane)
    requires Get(s.regs, P1) == 0 && Get(s.regs, R0) == Get(s.regs, R1) && Get(s.regs, R2) != 7
    ensures converted == Some(true) && forall k: nat :: !IsLoopBranch(SetsItsGuard, k)
    ensures
      var code := GuardedCode(SetsItsGuard, plan, LoweringOf(SetsItsGuard, t), 1, 3);
      var after, o := LaneRun(fpu, code, lane, mem), Run(Steps(unit, SetsItsGuard), At(0, s), 3);
      after.Some? && o.At? && o.pc == 3 && !Carries(names, t, o.s.regs, after.value.lane)
  {
    NoLoopBranch(SetsItsGuard, 3);
    Converted(SetsItsGuard, 3, plan, converted);
    EmittedComparison(t, plan);
    LoadIsOff(fpu, t, lane, mem);
    RunLoadsSeven(unit, s);
    assert R2 in names;
    var after := M.ApplyLane(M.SetPred(1, true), lane);
    assert after.regs[t.place(R2)] == Get(s.regs, R2);
  }

  lemma OtherGuardCode(t: Homes, plan: Plan)
    requires 1 in plan.guards && plan.guards[1] == Skipping
    ensures
      var load := LoadImmediate(t.place(R2), 7).(guard := Some(2));
      GuardedCode(HasOtherGuard, plan, LoweringOf(HasOtherGuard, t), 1, 2) == [load]
  {
    var p, load := HasOtherGuard, LoadImmediate(t.place(R2), 7).(guard := Some(2));
    assert p[1] == Code(LoadSeven(Some(P2))) && LowerInstr(LoadSeven(Some(P2)), t) == [load];
    OneMore(p, plan, t, 1, 1, load);
    assert GuardedCode(p, plan, LoweringOf(p, t), 1, 1) == [];
  }

  /** The load passes its own guard. */
  lemma OtherGuardLoads(fpu: M.Fpu, t: Homes, lane: M.Lane, mem: M.Memory)
    requires t.place(R2) < 256 && lane.preds[2]
    ensures
      LaneRun(fpu, [LoadImmediate(t.place(R2), 7).(guard := Some(2))], lane, mem)
      == Some(Single(M.ApplyLane(M.SetReg(t.place(R2), 7), lane), mem))
  {
    var load := LoadImmediate(t.place(R2), 7).(guard := Some(2));
    assert M.LaneEffect(fpu, load, lane, mem) == M.SetReg(t.place(R2), 7);
    LaneRunOne(fpu, load, lane, mem);
  }

  /** The run takes the branch. */
  lemma OtherGuardSkips(unit: Unit, s: State)
    requires Get(s.regs, P1) != 0
    ensures Run(Steps(unit, HasOtherGuard), At(0, s), 1) == At(2, Log(s, BranchEvent(true)))
  {
    SkipsForward(HasOtherGuard, 2);
    var step := Steps(unit, HasOtherGuard);
    assert step(0, s) == At(2, Log(s, BranchEvent(true)));
    assert Run(step, At(0, s), 1) == Run(step, step(0, s), 0);
  }

  /**
   An instruction with a guard of its own, in a program without loop branches: converted, it loads R2 in a lane
   that takes the branch.
   */
  lemma OwnGuardDiffers(fpu: M.Fpu, unit: Unit, t: Homes, plan: Plan, converted: Option<bool>, names: set<Reg>,
                        s: State, lane: M.Lane, mem: M.Memory)
    requires Tried(HasOtherGuard, 0, {}, Nothing, plan, converted)
    requires R2 in names && Placed(names, t) && Carries(names, t, s.regs, lane)
    requires Get(s.regs, P1) != 0 && Get(s.regs, P2) != 0 && Get(s.regs, R2) != 7
    ensures converted == Some(true) && forall k: nat :: !IsLoopBranch(HasOtherGuard, k)
    ensures
      var code := GuardedCode(HasOtherGuard, plan, LoweringOf(HasOtherGuard, t), 1, 2);
      var after, o := LaneRun(fpu, code, lane, mem), Run(Steps(unit, HasOtherGuard), At(0, s), 1);
      after.Some? && o.At? && o.pc == 2 && !Carries(names, t, o.s.regs, after.value.lane)
  {
    NoLoopBranch(HasOtherGuard, 2);
    Converted(HasOtherGuard, 2, plan, converted);
    OtherGuardCode(t, plan);
    assert lane.preds[2];
    OtherGuardLoads(fpu, t, lane, mem);
    OtherGuardSkips(unit, s);
    assert M.ApplyLane(M.SetReg(t.place(R2), 7), lane).regs[t.place(R2)] == 7;
  }
}
