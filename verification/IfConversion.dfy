/** Running a region under the negated guard of the branch it replaces. */
module IfConversion {
  import opened Isa
  import opened Machine
  import opened ScheduleMeaning

  datatype Guard = Guard(predicate_: nat, negated: bool)

  /** `Lowerer._emit`: an instruction that has no guard gets the guard of its item. */
  function Emit(i: Inst, g: Guard): Inst {
    if i.guard.Some? then i else i.(guard := Some(g.predicate_), negated := g.negated)
  }

  function EmitAll(region: seq<Inst>, g: Guard): (r: seq<Inst>)
    ensures |r| == |region| && forall k | 0 <= k < |r| :: r[k] == Emit(region[k], g)
  {
    seq(|region|, k requires 0 <= k < |region| => Emit(region[k], g))
  }

  /** The guard passes for this lane. */
  predicate Active(g: Guard, lane: Lane)
    requires g.predicate_ < 8
  {
    lane.preds[g.predicate_] != g.negated
  }

  function ActiveLanes(g: Guard, lanes: seq<Lane>): seq<Lane>
    requires g.predicate_ < 8
  {
    if lanes == [] then []
    else (if Active(g, lanes[0]) then [lanes[0]] else []) + ActiveLanes(g, lanes[1..])
  }

  /** The lanes with the active ones replaced, in order. */
  function Merge(g: Guard, lanes: seq<Lane>, active: seq<Lane>): seq<Lane>
    requires g.predicate_ < 8 && |active| == |ActiveLanes(g, lanes)|
  {
    if lanes == [] then []
    else if Active(g, lanes[0]) then [active[0]] + Merge(g, lanes[1..], active[1..])
    else [lanes[0]] + Merge(g, lanes[1..], active)
  }

  /* ---------- one instruction ---------- */

  /** The instruction has no guard of its own, or the guard of the region. */
  predicate GuardAgrees(i: Inst, g: Guard) {
    i.guard.None? || (i.guard == Some(g.predicate_) && i.negated == g.negated)
  }

  /** A comparison that can execute and sets the guard's predicate. */
  predicate SetsGuard(i: Inst, g: Guard) {
    i.opcode.CMPP? && i.dest == g.predicate_ && i.compare.Some? && i.src1 < 256 && i.src2 < 256
  }

  /** An integer comparison of a register with itself, whose outcome is always `b`. */
  predicate AlwaysIs(i: Inst, b: bool) {
    i.compare.Some? && !i.dtype.F32? && i.src1 == i.src2 && b == (i.compare.value in {Eq, Le, Ge})
  }

  /** Lanes in which the guard passes before the instruction still have it pass afterwards. */
  predicate GuardSurvives(i: Inst, g: Guard) { SetsGuard(i, g) ==> AlwaysIs(i, !g.negated) }

  predicate Maskable(i: Inst, g: Guard) { !IsControl(i) && GuardAgrees(i, g) && GuardSurvives(i, g) }

  lemma ExecuteIgnoresGuard(fpu: Fpu, i: Inst, g: Guard, lane: Lane, mem: Memory)
    ensures Execute(fpu, Emit(i, g), lane, mem) == Execute(fpu, i, lane, mem)
  {
  }

  lemma LaneMasked(fpu: Fpu, i: Inst, g: Guard, lane: Lane, mem: Memory)
    requires GuardAgrees(i, g) && g.predicate_ < 8
    ensures LaneEffect(fpu, Emit(i, g), lane, mem) == if Active(g, lane) then LaneEffect(fpu, i, lane, mem) else Skip
  {
    ExecuteIgnoresGuard(fpu, i, g, lane, mem);
  }

  /** In every lane, the emitted instruction does what the instruction does if the guard passes, and else nothing. */
  ghost predicate ActsUnderGuard(i: Inst, g: Guard)
    requires g.predicate_ < 8
  {
    forall fpu: Fpu, lane: Lane, mem: Memory ::
      LaneEffect(fpu, Emit(i, g), lane, mem) == if Active(g, lane) then LaneEffect(fpu, i, lane, mem) else Skip
  }

  function SomeFpu(b: bool): Fpu {
    Fpu((x: Word, y: Word) => None, (x: Word, y: Word) => None, (x: Word, y: Word) => None,
        (x: Word, y: Word, z: Word) => None, (c: Compare, x: Word, y: Word) => b)
  }

  function LaneWith(regs: RegFile, preds: PredFile): Lane { Lane(regs, preds, map[]) }

  function NoRegs(): RegFile { seq(256, _ => 0) }

  function NoPreds(): PredFile { seq(8, _ => false) }

  /** That holds exactly when the instruction has no guard, or the region's. */
  lemma ActsUnderGuardExactly(i: Inst, g: Guard)
    requires g.predicate_ < 8
    ensures ActsUnderGuard(i, g) <==> GuardAgrees(i, g)
  {
    if GuardAgrees(i, g) {
      forall fpu: Fpu, lane: Lane, mem: Memory
        ensures LaneEffect(fpu, Emit(i, g), lane, mem) == if Active(g, lane) then LaneEffect(fpu, i, lane, mem) else Skip
      {
        LaneMasked(fpu, i, g, lane, mem);
      }
    } else {
      // a lane in which the region's guard fails and the instruction's own passes
      var off: PredFile := NoPreds()[g.predicate_ := g.negated];
      var preds: PredFile :=
        if i.guard.value < 8 && i.guard.value != g.predicate_ then off[i.guard.value := !i.negated] else off;
      var lane, mem := LaneWith(NoRegs(), preds), Memory([], []);
      assert !Active(g, lane);
      assert LaneEffect(SomeFpu(true), Emit(i, g), lane, mem) != Skip;
    }
  }

  lemma GuardStays(fpu: Fpu, i: Inst, g: Guard, lane: Lane, mem: Memory)
    requires GuardSurvives(i, g) && g.predicate_ < 8 && Active(g, lane)
    ensures Active(g, ApplyLane(LaneEffect(fpu, i, lane, mem), lane))
  {
  }

  /** The instruction turns the guard off in no lane. */
  ghost predicate KeepsGuard(i: Inst, g: Guard)
    requires g.predicate_ < 8
  {
    forall fpu: Fpu, lane: Lane, mem: Memory | Active(g, lane) ::
      Active(g, ApplyLane(LaneEffect(fpu, i, lane, mem), lane))
  }

  /** Registers for which an integer comparison of two of them comes out as `b`. */
  lemma Comparable(i: Inst, b: bool) returns (regs: RegFile)
    requires i.compare.Some? && i.src1 < 256 && i.src2 < 256 && (i.src1 == i.src2 ==> AlwaysIs(i, b) || i.dtype.F32?)
    ensures !i.dtype.F32? ==> CompareWords(i.compare.value, regs[i.src1], regs[i.src2]) == b
  {
    regs := NoRegs();
    if i.src1 != i.src2 {
      var below: RegFile, above: RegFile := regs[i.src2 := 1], regs[i.src1 := 1];
      var c := i.compare.value;
      regs := if CompareWords(c, 0, 0) == b then regs else if CompareWords(c, 0, 1) == b then below else above;
    }
  }

  /** That holds exactly unless the instruction is a comparison that can set the guard's predicate the other way. */
  lemma KeepsGuardExactly(i: Inst, g: Guard)
    requires g.predicate_ < 8 && GuardAgrees(i, g)
    ensures KeepsGuard(i, g) <==> GuardSurvives(i, g)
  {
    if GuardSurvives(i, g) {
      forall fpu: Fpu, lane: Lane, mem: Memory | Active(g, lane)
        ensures Active(g, ApplyLane(LaneEffect(fpu, i, lane, mem), lane))
      {
        GuardStays(fpu, i, g, lane, mem);
      }
    } else {
      var b := g.negated;
      var regs := Comparable(i, b);
      var lane, mem := LaneWith(regs, NoPreds()[g.predicate_ := !g.negated]), Memory([], []);
      assert Active(g, lane);
      assert LaneEffect(SomeFpu(b), i, lane, mem) == SetPred(g.predicate_, b);
      assert !Active(g, ApplyLane(SetPred(g.predicate_, b), lane));
    }
  }

  /** What the masked instruction does to a warp, from what the instruction does to its active lanes. */
  ghost predicate MaskedResult(g: Guard, w: Warp, active: Option<Warp>, masked: Option<Warp>)
    requires g.predicate_ < 8
  {
    match active
    case None => masked == None
    case Some(a) =>
      && |a.lanes| == |ActiveLanes(g, w.lanes)|
      && masked == Some(Warp(Merge(g, w.lanes, a.lanes), a.mem))
      && ActiveLanes(g, masked.value.lanes) == a.lanes
  }

  lemma {:induction false} StepMasked(fpu: Fpu, i: Inst, g: Guard, w: Warp)
    requires Maskable(i, g) && g.predicate_ < 8
    ensures MaskedResult(g, w, WarpStep(fpu, i, Warp(ActiveLanes(g, w.lanes), w.mem)), WarpStep(fpu, Emit(i, g), w))
    decreases |w.lanes|
  {
    if w.lanes != [] {
      var lane, rest := w.lanes[0], w.lanes[1..];
      var active := ActiveLanes(g, w.lanes);
      LaneMasked(fpu, i, g, lane, w.mem);
      if Active(g, lane) {
        var e := LaneEffect(fpu, i, lane, w.mem);
        GuardStays(fpu, i, g, lane, w.mem);
        assert active == [lane] + ActiveLanes(g, rest) && active[1..] == ActiveLanes(g, rest);
        if !e.Trap? {
          StepMasked(fpu, i, g, Warp(rest, ApplyMem(e, w.mem)));
          var after := WarpStep(fpu, i, Warp(ActiveLanes(g, rest), ApplyMem(e, w.mem)));
          if after.Some? {
            JoinActive(g, lane, ApplyLane(e, lane), rest, after.value.lanes);
          }
        }
      } else {
        assert active == ActiveLanes(g, rest);
        StepMasked(fpu, i, g, Warp(rest, w.mem));
        var after := WarpStep(fpu, i, Warp(ActiveLanes(g, rest), w.mem));
        if after.Some? {
          JoinInactive(g, lane, rest, after.value.lanes);
        }
      }
    }
  }

  lemma JoinActive(g: Guard, lane: Lane, lane': Lane, rest: seq<Lane>, active: seq<Lane>)
    requires g.predicate_ < 8 && Active(g, lane) && Active(g, lane') && |active| == |ActiveLanes(g, rest)|
    requires ActiveLanes(g, Merge(g, rest, active)) == active
    ensures |[lane'] + active| == |ActiveLanes(g, [lane] + rest)|
    ensures Merge(g, [lane] + rest, [lane'] + active) == [lane'] + Merge(g, rest, active)
    ensures ActiveLanes(g, [lane'] + Merge(g, rest, active)) == [lane'] + active
  {
    assert ([lane] + rest)[1..] == rest && ([lane'] + active)[1..] == active;
    assert ([lane'] + Merge(g, rest, active))[1..] == Merge(g, rest, active);
  }

  lemma JoinInactive(g: Guard, lane: Lane, rest: seq<Lane>, active: seq<Lane>)
    requires g.predicate_ < 8 && !Active(g, lane) && |active| == |ActiveLanes(g, rest)|
    requires ActiveLanes(g, Merge(g, rest, active)) == active
    ensures |active| == |ActiveLanes(g, [lane] + rest)|
    ensures Merge(g, [lane] + rest, active) == [lane] + Merge(g, rest, active)
    ensures ActiveLanes(g, [lane] + Merge(g, rest, active)) == active
  {
    assert ([lane] + rest)[1..] == rest;
    assert ([lane] + Merge(g, rest, active))[1..] == Merge(g, rest, active);
  }

  /* ---------- a region ---------- */

  predicate AllMaskable(region: seq<Inst>, g: Guard) { forall k | 0 <= k < |region| :: Maskable(region[k], g) }

  lemma {:induction false} MergeTwice(g: Guard, lanes: seq<Lane>, a: seq<Lane>, b: seq<Lane>)
    requires g.predicate_ < 8 && |a| == |ActiveLanes(g, lanes)| && |b| == |a|
    requires ActiveLanes(g, Merge(g, lanes, a)) == a
    ensures Merge(g, Merge(g, lanes, a), b) == Merge(g, lanes, b)
  {
    if lanes != [] {
      var rest := lanes[1..];
      if Active(g, lanes[0]) {
        assert Merge(g, lanes, a)[1..] == Merge(g, rest, a[1..]);
        MergedActive(g, lanes, a);
        assert |b[1..]| == |a[1..]|;
        MergeTwice(g, rest, a[1..], b[1..]);
      } else {
        assert Merge(g, lanes, a)[1..] == Merge(g, rest, a);
        MergeTwice(g, rest, a, b);
      }
    }
  }

  lemma MergedActive(g: Guard, lanes: seq<Lane>, a: seq<Lane>)
    requires g.predicate_ < 8 && lanes != [] && Active(g, lanes[0]) && |a| == |ActiveLanes(g, lanes)|
    requires ActiveLanes(g, Merge(g, lanes, a)) == a
    ensures Active(g, a[0]) && ActiveLanes(g, Merge(g, lanes[1..], a[1..])) == a[1..]
  {
    var merged := Merge(g, lanes, a);
    assert merged[0] == a[0] && merged[1..] == Merge(g, lanes[1..], a[1..]);
    ActiveCount(g, lanes[1..], a[1..]);
  }

  lemma {:induction false} ActiveCount(g: Guard, lanes: seq<Lane>, a: seq<Lane>)
    requires g.predicate_ < 8 && |a| == |ActiveLanes(g, lanes)|
    ensures |ActiveLanes(g, Merge(g, lanes, a))| <= |a|
  {
    if lanes != [] {
      if Active(g, lanes[0]) {
        assert Merge(g, lanes, a)[1..] == Merge(g, lanes[1..], a[1..]);
        ActiveCount(g, lanes[1..], a[1..]);
      } else {
        assert Merge(g, lanes, a)[1..] == Merge(g, lanes[1..], a);
        ActiveCount(g, lanes[1..], a);
      }
    }
  }

  /**
   Running all of a region under the negated guard does to the lanes that do not take the branch what running the
   region on them alone does, nothing to the others, and the same to memory; it fails exactly when that fails.
   */
  lemma {:induction false} RegionMasked(fpu: Fpu, region: seq<Inst>, g: Guard, w: Warp)
    requires AllMaskable(region, g) && g.predicate_ < 8
    ensures MaskedResult(g, w, ExecSeq(WarpExec(fpu), region, Some(Warp(ActiveLanes(g, w.lanes), w.mem))),
                         ExecSeq(WarpExec(fpu), EmitAll(region, g), Some(w)))
    decreases |region|
  {
    var active := Warp(ActiveLanes(g, w.lanes), w.mem);
    if region == [] {
      MergeSame(g, w.lanes);
    } else {
      var exec, i, rest := WarpExec(fpu), region[0], region[1..];
      assert EmitAll(region, g)[1..] == EmitAll(rest, g);
      StepMasked(fpu, i, g, w);
      var a, m := WarpStep(fpu, i, active), WarpStep(fpu, Emit(i, g), w);
      if a.None? {
        ErrorStays(exec, rest);
        ErrorStays(exec, EmitAll(rest, g));
      } else {
        RegionMasked(fpu, rest, g, m.value);
        var last := ExecSeq(exec, rest, a);
        if last.Some? {
          MergeTwice(g, w.lanes, a.value.lanes, last.value.lanes);
        }
      }
    }
  }

  lemma {:induction false} MergeSame(g: Guard, lanes: seq<Lane>)
    requires g.predicate_ < 8
    ensures Merge(g, lanes, ActiveLanes(g, lanes)) == lanes
  {
    if lanes != [] {
      MergeSame(g, lanes[1..]);
      if Active(g, lanes[0]) {
        assert ActiveLanes(g, lanes)[1..] == ActiveLanes(g, lanes[1..]);
      } else {
        assert ActiveLanes(g, lanes) == ActiveLanes(g, lanes[1..]);
      }
    }
  }

  /* ---------- against the branch ---------- */

  /** The guard that `_try_legalize_forward_exit` gives to the region of a branch. */
  function RegionGuard(branch: Inst): Guard
    requires branch.guard.Some?
  {
    Guard(branch.guard.value, !branch.negated)
  }

  lemma TakenIsInactive(branch: Inst, lane: Lane)
    requires branch.guard.Some? && branch.guard.value < 8
    ensures Decision(branch, lane) <==> !Active(RegionGuard(branch), lane)
  {
  }

  lemma {:induction false} NoneActive(g: Guard, lanes: seq<Lane>)
    requires g.predicate_ < 8 && forall k | 0 <= k < |lanes| :: !Active(g, lanes[k])
    ensures ActiveLanes(g, lanes) == [] && Merge(g, lanes, []) == lanes
  {
    if lanes != [] {
      NoneActive(g, lanes[1..]);
    }
  }

  lemma {:induction false} AllActive(g: Guard, lanes: seq<Lane>, a: seq<Lane>)
    requires g.predicate_ < 8 && forall k | 0 <= k < |lanes| :: Active(g, lanes[k])
    ensures ActiveLanes(g, lanes) == lanes
    ensures |a| == |lanes| ==> Merge(g, lanes, a) == a
  {
    if lanes != [] {
      AllActive(g, lanes[1..], if a == [] then [] else a[1..]);
    }
  }

  /** No lane runs, so nothing happens. */
  lemma {:induction false} EmptyWarpRuns(fpu: Fpu, region: seq<Inst>, mem: Memory)
    ensures ExecSeq(WarpExec(fpu), region, Some(Warp([], mem))) == Some(Warp([], mem))
  {
    if region != [] {
      EmptyWarpRuns(fpu, region[1..], mem);
    }
  }

  /** When all lanes agree, the masked region does what the branch does: skip the region, or run it. */
  lemma UniformRegion(fpu: Fpu, branch: Inst, region: seq<Inst>, pc: nat, w: Warp)
    requires branch.guard.Some? && branch.guard.value < 8 && branch.imm == pc + 1 + |region|
    requires AllMaskable(region, RegionGuard(branch))
    ensures
      var masked := ExecSeq(WarpExec(fpu), EmitAll(region, RegionGuard(branch)), Some(w));
      match BranchStep(branch, pc, w)
      case Failed => true
      case Halted(_) => false
      case Running(next, after) =>
        && after == w
        && ((next == pc + 1 + |region| && masked == Some(w))
            || (next == pc + 1 && masked == ExecSeq(WarpExec(fpu), region, Some(w))))
  {
    var g := RegionGuard(branch);
    RegionMasked(fpu, region, g, w);
    if forall k | 0 <= k < |w.lanes| :: Decision(branch, w.lanes[k]) {
      forall k | 0 <= k < |w.lanes|
        ensures !Active(g, w.lanes[k])
      {
        TakenIsInactive(branch, w.lanes[k]);
      }
      NoneActive(g, w.lanes);
      EmptyWarpRuns(fpu, region, w.mem);
    } else if forall k | 0 <= k < |w.lanes| :: !Decision(branch, w.lanes[k]) {
      forall k | 0 <= k < |w.lanes|
        ensures Active(g, w.lanes[k])
      {
        TakenIsInactive(branch, w.lanes[k]);
      }
      AllActive(g, w.lanes, []);
      var r := ExecSeq(WarpExec(fpu), region, Some(w));
      if r.Some? {
        AllActive(g, w.lanes, r.value.lanes);
      }
    }
  }
}
