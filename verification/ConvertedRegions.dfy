/**
 The emitted code of a converted region does to a warp what its PTX threads do in lockstep: those that take the branch
 skip the region, the others execute it.
 */
module ConvertedRegions {
  import opened Isa
  import M = Machine
  import opened ScheduleMeaning
  import opened Ptx
  import opened IfConversion
  import opened ControlPlan
  import opened Lowering
  import opened Lockstep

  /* ---------- what the region lowers to ---------- */

  /** The item may run under the region's guard: no other guard, and no comparison into its predicate. */
  predicate ItemMaskable(i: Instr, g: Guard)
    requires Lowerable(i)
  {
    && (i.guard.Some? ==> PredicateNumber(i.guard.value).value == g.predicate_ && i.negated == g.negated)
    && (i.base.Setp? ==> PredicateNumber(i.operands[0].reg).value != g.predicate_)
  }

  predicate PieceMaskable(p: Program, a: nat, b: nat, g: Guard)
    requires b <= |p| && forall k | a <= k < b && p[k].Code? :: Lowerable(p[k].inst)
  {
    forall k | a <= k < b && p[k].Code? :: ItemMaskable(p[k].inst, g)
  }

  lemma {:induction false} SourcesMaskable(ops: seq<Operand>, t: Homes, temp: nat, g: Guard)
    ensures AllMaskable(LowerSources(ops, t, temp).code, g)
    decreases |ops|
  {
    if ops != [] {
      SourcesMaskable(ops[1..], t, if ops[0].RegOp? then temp else temp + 1, g);
    }
  }

  lemma InstrMaskable(i: Instr, t: Homes, g: Guard)
    requires Lowerable(i) && ItemMaskable(i, g)
    ensures AllMaskable(LowerInstr(i, t), g)
  {
    SourcesMaskable(i.operands[1..], t, FirstTemp, g);
    FinalMaskable(i, t, g);
  }

  lemma FinalMaskable(i: Instr, t: Homes, g: Guard)
    requires Lowerable(i) && ItemMaskable(i, g)
    ensures Maskable(WithGuard(FinalInst(i, t), i), g)
  {
  }

  lemma {:induction false} PieceCodeMaskable(p: Program, t: Homes, a: nat, b: nat, g: Guard)
    requires b <= |p| && forall k | a <= k < b && p[k].Code? :: Lowerable(p[k].inst)
    requires PieceMaskable(p, a, b, g)
    ensures AllMaskable(LowerPiece(p, t, a, b), g)
    decreases b
  {
    if a < b {
      PieceCodeMaskable(p, t, a, b - 1, g);
      if p[b - 1].Code? {
        InstrMaskable(p[b - 1].inst, t, g);
      }
    }
  }

  /** How items lower, as a plan uses it. */
  function LoweringOf(p: Program, t: Homes): ItemCode {
    (k: nat) => if k < |p| && p[k].Code? && Lowerable(p[k].inst) then LowerInstr(p[k].inst, t) else []
  }

  lemma {:induction false} PlainIsPiece(p: Program, t: Homes, a: nat, b: nat)
    requires b <= |p| && forall k | a <= k < b && p[k].Code? :: Lowerable(p[k].inst)
    ensures PlainCode(p, LoweringOf(p, t), a, b) == LowerPiece(p, t, a, b)
    decreases b
  {
    hide LowerInstr, Lowerable;
    if a < b {
      PlainIsPiece(p, t, a, b - 1);
    }
  }

  /* ---------- the threads that do not take the branch ---------- */

  function EndOf(p: Program, b: nat): nat
    requires IsForward(p, b)
  {
    Target(p, p[b].inst).value
  }

  function Staying(branch: Instr, states: seq<State>): seq<State> {
    if states == [] then []
    else (if GuardPasses(branch, states[0]) then [] else [states[0]]) + Staying(branch, states[1..])
  }

  /** The threads with those that stay replaced, in order. */
  function Rejoin(branch: Instr, states: seq<State>, stayed: seq<State>): seq<State>
    requires |stayed| == |Staying(branch, states)|
  {
    if states == [] then []
    else if GuardPasses(branch, states[0]) then [states[0]] + Rejoin(branch, states[1..], stayed)
    else [stayed[0]] + Rejoin(branch, states[1..], stayed[1..])
  }

  lemma {:induction false} PackSizes(unit: Unit, i: Instr, states: seq<State>, mem: Memory, size: nat)
    requires PackItem(unit, i, states, mem, size).Some?
    ensures |PackItem(unit, i, states, mem, size).value.states| == |states|
    decreases |states|
  {
    hide ThreadStep;
    if states != [] {
      PackSizes(unit, i, states[1..], ThreadStep(unit, i, states[0], mem, size).value.mem, size);
    }
  }

  lemma {:induction false} PieceSizes(unit: Unit, p: Program, a: nat, b: nat, states: seq<State>, mem: Memory, size: nat)
    requires b <= |p| && PackPiece(unit, p, a, b, states, mem, size).Some?
    ensures |PackPiece(unit, p, a, b, states, mem, size).value.states| == |states|
    decreases b
  {
    hide PackItem;
    if a < b {
      PieceSizes(unit, p, a, b - 1, states, mem, size);
      if p[b - 1].Code? {
        var pack := PackPiece(unit, p, a, b - 1, states, mem, size).value;
        PackSizes(unit, p[b - 1].inst, pack.states, pack.mem, size);
      }
    }
  }

  /** Every thread has met the branch. */
  function Entered(branch: Instr, states: seq<State>): (r: seq<State>)
    ensures |r| == |states|
    ensures forall k | 0 <= k < |r| :: r[k] == Log(states[k], BranchEvent(GuardPasses(branch, states[k])))
  {
    seq(|states|, k requires 0 <= k < |states| => Log(states[k], BranchEvent(GuardPasses(branch, states[k]))))
  }

  /** Through the branch and its region in lockstep; `None` is an access out of range. */
  function RegionPack(unit: Unit, p: Program, b: nat, states: seq<State>, mem: Memory, size: nat): (r: Option<Pack>)
    requires IsForward(p, b) && EndOf(p, b) <= |p|
  {
    var branch := p[b].inst;
    var entered := Entered(branch, states);
    match PackPiece(unit, p, b + 1, EndOf(p, b), Staying(branch, entered), mem, size)
    case None => None
    case Some(pack) =>
      PieceSizes(unit, p, b + 1, EndOf(p, b), Staying(branch, entered), mem, size);
      Some(Pack(Rejoin(branch, entered, pack.states), pack.mem))
  }

  ghost predicate AllCarry(names: set<Reg>, t: Homes, states: seq<State>, lanes: seq<M.Lane>) {
    |states| == |lanes| && forall k | 0 <= k < |states| :: Carries(names, t, states[k].regs, lanes[k])
  }

  /** Threads stay exactly where lanes are active. */
  predicate Decides(branch: Instr, g: Guard, states: seq<State>, lanes: seq<M.Lane>)
    requires g.predicate_ < 8
  {
    |states| == |lanes| && forall k | 0 <= k < |states| :: Active(g, lanes[k]) <==> !GuardPasses(branch, states[k])
  }

  lemma {:induction false} StayingCarry(names: set<Reg>, t: Homes, branch: Instr, g: Guard, states: seq<State>,
                                        lanes: seq<M.Lane>)
    requires g.predicate_ < 8 && AllCarry(names, t, states, lanes) && Decides(branch, g, states, lanes)
    ensures AllCarry(names, t, Staying(branch, states), ActiveLanes(g, lanes))
    decreases |states|
  {
    hide Carries, Active, GuardPasses;
    if states != [] {
      StayingCarry(names, t, branch, g, states[1..], lanes[1..]);
    }
  }

  lemma {:induction false} RejoinCarry(names: set<Reg>, t: Homes, branch: Instr, g: Guard, states: seq<State>,
                                       lanes: seq<M.Lane>, stayed: seq<State>, active: seq<M.Lane>)
    requires g.predicate_ < 8 && AllCarry(names, t, states, lanes) && Decides(branch, g, states, lanes)
    requires AllCarry(names, t, stayed, active)
    requires |stayed| == |Staying(branch, states)| && |active| == |ActiveLanes(g, lanes)|
    ensures AllCarry(names, t, Rejoin(branch, states, stayed), Merge(g, lanes, active))
    decreases |states|
  {
    hide Carries, Active, GuardPasses;
    if states != [] {
      if Active(g, lanes[0]) {
        RejoinCarry(names, t, branch, g, states[1..], lanes[1..], stayed[1..], active[1..]);
      } else {
        RejoinCarry(names, t, branch, g, states[1..], lanes[1..], stayed, active);
      }
    }
  }

  lemma BranchDecides(p: Program, b: nat, names: set<Reg>, t: Homes, s: State, lane: M.Lane)
    requires IsForward(p, b) && SkipGuard(p, b).Some? && Carries(names, t, s.regs, lane)
    ensures SkipGuard(p, b).value.predicate_ < 8
    ensures Active(SkipGuard(p, b).value, lane) <==> !GuardPasses(p[b].inst, s)
  {
    var r := p[b].inst.guard.value;
    assert r == Reg(PClass, r.id);
  }

  lemma GuardNumber(p: Program, b: nat)
    requires IsForward(p, b) && SkipGuard(p, b).Some?
    ensures SkipGuard(p, b).value.predicate_ < 8
  {
  }

  /* ---------- the region ---------- */

  /** The plan converts the branch, and its region, without loops inside, lowers and can be masked. */
  ghost predicate ConvertedRegion(p: Program, back: set<nat>, plan: Plan, b: nat, names: set<Reg>) {
    && PlanSound(p, back, plan) && b in plan.skip && IsForward(p, b) && SkipGuard(p, b).Some? && RegionOf(p, b) !! back
    && StraightPiece(p, b + 1, EndOf(p, b), names) && PieceMaskable(p, b + 1, EndOf(p, b), SkipGuard(p, b).value)
  }

  function EmittedRegion(p: Program, plan: Plan, b: nat, t: Homes): seq<Inst>
    requires IsForward(p, b) && EndOf(p, b) <= |p|
  {
    GuardedCode(p, plan, LoweringOf(p, t), b + 1, EndOf(p, b))
  }

  /** The emitted code is the code of the region, masked. */
  lemma EmittedIsMasked(p: Program, back: set<nat>, plan: Plan, b: nat, names: set<Reg>, t: Homes)
    requires ConvertedRegion(p, back, plan, b, names)
    ensures
      var code, g := LowerPiece(p, t, b + 1, EndOf(p, b)), SkipGuard(p, b).value;
      g.predicate_ < 8 && AllMaskable(code, g) && EmittedRegion(p, plan, b, t) == EmitAll(code, g)
  {
    hide PlanSound, LowerPiece, Maskable;
    var end, g := EndOf(p, b), SkipGuard(p, b).value;
    WholeRegionGuarded(p, back, plan, b);
    RegionCode(p, plan, LoweringOf(p, t), b + 1, end, g);
    PlainIsPiece(p, t, b + 1, end);
    PieceCodeMaskable(p, t, b + 1, end, g);
    GuardNumber(p, b);
  }

  /** No access of the threads that stay is misaligned. */
  predicate RegionAligned(unit: Unit, p: Program, b: nat, states: seq<State>, mem: Memory, size: nat)
    requires IsForward(p, b) && EndOf(p, b) <= |p|
  {
    PieceAligned(unit, p, b + 1, EndOf(p, b), Staying(p[b].inst, Entered(p[b].inst, states)), mem, size)
  }

  lemma MaskedJoins(names: set<Reg>, t: Homes, branch: Instr, g: Guard, states: seq<State>, w: M.Warp, done: Option<Pack>,
                    active: Option<M.Warp>, masked: Option<M.Warp>, overflows: bool)
    requires g.predicate_ < 8 && AllCarry(names, t, states, w.lanes) && Decides(branch, g, states, w.lanes)
    requires |Staying(branch, states)| == |ActiveLanes(g, w.lanes)| && MaskedResult(g, w, active, masked)
    requires EndAlike(names, t, done, active, overflows, w.mem)
    requires done.Some? ==> |done.value.states| == |Staying(branch, states)|
    ensures EndAlike(names, t, if done.None? then None
                     else Some(Pack(Rejoin(branch, states, done.value.states), done.value.mem)), masked, overflows, w.mem)
  {
    hide Carries, MemAgrees, Decides;
    if active.Some? {
      RejoinCarry(names, t, branch, g, states, w.lanes, done.value.states, active.value.lanes);
    }
  }

  /**
   If-conversion equals branching: the emitted code of a converted region does to registers, predicates and memory of a
   warp what its threads do in lockstep when those that take the branch skip the region. It traps when an access of a
   thread that stays is out of range, and else only on an overflow.
   */
  lemma {:induction false} ConvertedRegionLockstep(fpu: M.Fpu, unit: Unit, p: Program, back: set<nat>, plan: Plan,
                                                   b: nat, names: set<Reg>, t: Homes, states: seq<State>,
                                                   mem: Memory, w: M.Warp)
    requires ConvertedRegion(p, back, plan, b, names) && Placed(names, t) && Implements(fpu, unit, t)
    requires PackCarries(names, t, states, mem, w) && RegionAligned(unit, p, b, states, mem, |w.mem.gmem|)
    ensures EndAlike(names, t, RegionPack(unit, p, b, states, mem, |w.mem.gmem|),
                     ExecSeq(M.WarpExec(fpu), EmittedRegion(p, plan, b, t), Some(w)),
                     PieceOverflows(fpu, p, b + 1, EndOf(p, b)), w.mem)
  {
    hide Carries, MemAgrees, Placed, Implements, PieceOverflows, LowerPiece, ExecSeq, PackPiece, AllMaskable, EmittedRegion,
         EndAlike, Staying, PieceMaskable, PlanSound;
    var end, g, branch, size := EndOf(p, b), SkipGuard(p, b).value, p[b].inst, |w.mem.gmem|;
    var entered := Entered(branch, states);
    var code, stay := LowerPiece(p, t, b + 1, end), Staying(branch, entered);
    var active := M.Warp(ActiveLanes(g, w.lanes), w.mem);
    EmittedIsMasked(p, back, plan, b, names, t);
    forall k | 0 <= k < |states|
      ensures Active(g, w.lanes[k]) <==> !GuardPasses(branch, entered[k])
    {
      BranchDecides(p, b, names, t, states[k], w.lanes[k]);
    }
    StayingCarry(names, t, branch, g, entered, w.lanes);
    PackSimulates(fpu, unit, p, t, b + 1, end, names, stay, mem, active);
    RegionMasked(fpu, code, g, w);
    var done := PackPiece(unit, p, b + 1, end, stay, mem, size);
    if done.Some? {
      PieceSizes(unit, p, b + 1, end, stay, mem, size);
    }
    MaskedJoins(names, t, branch, g, entered, w, done, ExecSeq(M.WarpExec(fpu), code, Some(active)),
                ExecSeq(M.WarpExec(fpu), EmitAll(code, g), Some(w)), PieceOverflows(fpu, p, b + 1, end));
  }

  /* ---------- without stores, each thread is on its own ---------- */

  /** From the branch, the PTX machine comes to the end of the region with the registers the lane holds. */
  ghost predicate RunsTo(unit: Unit, p: Program, b: nat, names: set<Reg>, t: Homes, s: State, lane: M.Lane)
    requires IsForward(p, b)
  {
    exists n: nat :: Carried(names, t, Run(Steps(unit, p), At(b, s), n), EndOf(p, b), lane)
  }

  ghost predicate Carried(names: set<Reg>, t: Homes, o: Outcome, end: nat, lane: M.Lane) {
    o.At? && o.pc == end && Carries(names, t, o.s.regs, lane)
  }

  /** Where a thread on its own is at the end of the region. */
  function Alone(unit: Unit, p: Program, b: nat, s: State): Option<State>
    requires IsForward(p, b) && EndOf(p, b) <= |p|
  {
    var entered := Log(s, BranchEvent(GuardPasses(p[b].inst, s)));
    if GuardPasses(p[b].inst, s) then Some(entered) else PerformPiece(unit, p, b + 1, EndOf(p, b), entered)
  }

  /** That is where its run goes. */
  lemma AloneRuns(unit: Unit, p: Program, b: nat, names: set<Reg>, t: Homes, s: State, lane: M.Lane)
    requires IsForward(p, b) && StraightPiece(p, b + 1, EndOf(p, b), names)
    requires Alone(unit, p, b, s).Some? && Carries(names, t, Alone(unit, p, b, s).value.regs, lane)
    ensures RunsTo(unit, p, b, names, t, s, lane)
  {
    var step, end, entered := Steps(unit, p), EndOf(p, b), Log(s, BranchEvent(GuardPasses(p[b].inst, s)));
    if GuardPasses(p[b].inst, s) {
      assert step(b, s) == At(end, entered);
      assert Run(step, step(b, s), 0) == step(b, s);
      assert Carried(names, t, Run(step, At(b, s), 1), end, lane);
    } else {
      PieceRuns(unit, p, b + 1, end, names, entered);
      assert step(b, s) == At(b + 1, entered);
      assert Run(step, At(b, s), 1 + (end - (b + 1))) == Run(step, At(b + 1, entered), end - (b + 1));
      assert Carried(names, t, Run(step, At(b, s), 1 + (end - (b + 1))), end, lane);
    }
  }

  lemma {:induction false} StayingSame(branch: Instr, states: seq<State>, mem: Memory)
    requires SameMemory(states, mem)
    ensures SameMemory(Staying(branch, states), mem)
  {
    if states != [] {
      StayingSame(branch, states[1..], mem);
    }
  }

  /** Where the threads that stay have become what `f` makes of them, so they are among all; the others are as before. */
  lemma {:induction false} RejoinAt(branch: Instr, states: seq<State>, stayed: seq<State>, f: State -> Option<State>)
    requires |stayed| == |Staying(branch, states)|
    requires forall k | 0 <= k < |stayed| :: f(Staying(branch, states)[k]) == Some(stayed[k])
    ensures |Rejoin(branch, states, stayed)| == |states|
    ensures forall k | 0 <= k < |states| ::
              if GuardPasses(branch, states[k]) then Rejoin(branch, states, stayed)[k] == states[k]
              else f(states[k]) == Some(Rejoin(branch, states, stayed)[k])
    decreases |states|
  {
    hide GuardPasses;
    if states != [] {
      var rest := states[1..];
      if GuardPasses(branch, states[0]) {
        assert Staying(branch, states) == Staying(branch, rest);
        RejoinAt(branch, rest, stayed, f);
      } else {
        assert Staying(branch, states) == [states[0]] + Staying(branch, rest);
        forall k | 0 <= k < |stayed[1..]|
          ensures f(Staying(branch, rest)[k]) == Some(stayed[1..][k])
        {
          assert Staying(branch, states)[k + 1] == Staying(branch, rest)[k];
        }
        RejoinAt(branch, rest, stayed[1..], f);
      }
    }
  }

  /** Without stores the pack leaves each thread where it would be alone. */
  lemma {:induction false} RegionAlone(unit: Unit, p: Program, b: nat, states: seq<State>, mem: Memory, size: nat)
    requires IsForward(p, b) && EndOf(p, b) <= |p| && StoreFree(p, b + 1, EndOf(p, b)) && SameMemory(states, mem)
    requires RegionPack(unit, p, b, states, mem, size).Some?
    ensures
      var done := RegionPack(unit, p, b, states, mem, size).value;
      && done.mem == mem && |done.states| == |states|
      && forall k | 0 <= k < |states| :: Alone(unit, p, b, states[k]) == Some(done.states[k])
  {
    hide PackPiece, PerformPiece;
    var branch, end := p[b].inst, EndOf(p, b);
    var entered := Entered(branch, states);
    StayingSame(branch, entered, mem);
    AlonePiece(unit, p, b + 1, end, Staying(branch, entered), mem, size);
    var pack := PackPiece(unit, p, b + 1, end, Staying(branch, entered), mem, size).value;
    RejoinAt(branch, entered, pack.states, (s: State) => PerformPiece(unit, p, b + 1, end, s));
    forall k | 0 <= k < |states|
      ensures GuardPasses(branch, entered[k]) == GuardPasses(branch, states[k])
    {
    }
  }

  lemma RegionComputes(unit: Unit, p: Program, b: nat, states: seq<State>, mem: Memory, size: nat)
    requires IsForward(p, b) && EndOf(p, b) <= |p| && AccessFree(p, b + 1, EndOf(p, b))
    ensures RegionPack(unit, p, b, states, mem, size).Some?
  {
    ComputePiece(unit, p, b + 1, EndOf(p, b), Staying(p[b].inst, Entered(p[b].inst, states)), mem, size);
  }

  lemma RegionSilent(fpu: M.Fpu, p: Program, back: set<nat>, plan: Plan, b: nat, names: set<Reg>, t: Homes, w: M.Warp)
    requires ConvertedRegion(p, back, plan, b, names) && StoreFree(p, b + 1, EndOf(p, b))
    requires ExecSeq(M.WarpExec(fpu), EmittedRegion(p, plan, b, t), Some(w)).Some?
    ensures ExecSeq(M.WarpExec(fpu), EmittedRegion(p, plan, b, t), Some(w)).value.mem == w.mem
  {
    hide PlanSound, PieceMaskable, EmittedRegion, ExecSeq, LowerPiece;
    EmittedIsMasked(p, back, plan, b, names, t);
    PieceStoresNothing(p, t, b + 1, EndOf(p, b), names);
    SilentCode(fpu, EmittedRegion(p, plan, b, t), w);
  }

  /**
   Without stores each lane ends with the registers and predicates with which its own PTX run, taking the branch or
   not, comes to the end of the region, and memory is as it was, unless the emitted code traps; it does not when no
   access is out of range and nothing overflows.
   */
  lemma {:induction false} ConvertedRegionBranches(fpu: M.Fpu, unit: Unit, p: Program, back: set<nat>, plan: Plan,
                                                   b: nat, names: set<Reg>, t: Homes, states: seq<State>,
                                                   mem: Memory, w: M.Warp)
    requires ConvertedRegion(p, back, plan, b, names) && StoreFree(p, b + 1, EndOf(p, b))
    requires Placed(names, t) && Implements(fpu, unit, t) && PackCarries(names, t, states, mem, w)
    requires SameMemory(states, mem) && RegionAligned(unit, p, b, states, mem, |w.mem.gmem|)
    ensures
      var after := ExecSeq(M.WarpExec(fpu), EmittedRegion(p, plan, b, t), Some(w));
      after.Some? ==>
        && |after.value.lanes| == |w.lanes| && after.value.mem == w.mem
        && forall k | 0 <= k < |w.lanes| :: RunsTo(unit, p, b, names, t, states[k], after.value.lanes[k])
    ensures RegionPack(unit, p, b, states, mem, |w.mem.gmem|).Some? || AccessFree(p, b + 1, EndOf(p, b)) ==>
              PieceOverflows(fpu, p, b + 1, EndOf(p, b))
              || ExecSeq(M.WarpExec(fpu), EmittedRegion(p, plan, b, t), Some(w)).Some?
  {
    hide Carries, MemAgrees, Placed, Implements, RegionPack, Alone, EmittedRegion, RunsTo, PlanSound, PieceMaskable,
         ExecSeq, RegionAligned;
    ConvertedRegionLockstep(fpu, unit, p, back, plan, b, names, t, states, mem, w);
    var after := ExecSeq(M.WarpExec(fpu), EmittedRegion(p, plan, b, t), Some(w));
    if AccessFree(p, b + 1, EndOf(p, b)) {
      RegionComputes(unit, p, b, states, mem, |w.mem.gmem|);
    }
    if after.Some? {
      RegionSilent(fpu, p, back, plan, b, names, t, w);
      RegionAlone(unit, p, b, states, mem, |w.mem.gmem|);
      forall k | 0 <= k < |w.lanes|
        ensures RunsTo(unit, p, b, names, t, states[k], after.value.lanes[k])
      {
        AloneRuns(unit, p, b, names, t, states[k], after.value.lanes[k]);
      }
    }
  }
}
