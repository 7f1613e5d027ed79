/** The simulator object: warps of a launch run one after another over one global memory. */
module Simulator {
  import opened Isa
  import opened Machine
  import U = Uniformity
  import opened ScheduleProgram
  import opened BranchTraces

  /* ---------- the launch ---------- */

  function Selectors(): map<nat, U.Special> {
    map[0x100 := U.Tid(U.X), 0x101 := U.Ntid(U.X), 0x102 := U.Ctaid(U.X), 0x103 := U.Nctaid(U.X),
        0x104 := U.LaneId, 0x105 := U.WarpId,
        0x110 := U.Tid(U.Y), 0x111 := U.Ntid(U.Y), 0x112 := U.Ctaid(U.Y), 0x113 := U.Nctaid(U.Y),
        0x120 := U.Tid(U.Z), 0x121 := U.Ntid(U.Z), 0x122 := U.Ctaid(U.Z), 0x123 := U.Nctaid(U.Z)]
  }

  /** A lane before its first instruction. */
  function InitialLane(l: U.Launch, block: nat, thread: nat): Lane
    requires U.ValidLaunch(l)
  {
    Lane(seq(256, _ => 0), seq(8, _ => false),
         map n | n in Selectors() :: Wrap(U.SpecialValue(l, block, thread, Selectors()[n])))
  }

  function InitialLanes(l: U.Launch, block: nat, start: nat, count: nat): (r: seq<Lane>)
    requires U.ValidLaunch(l)
    ensures |r| == count
  {
    seq(count, k requires 0 <= k < count => InitialLane(l, block, start + k))
  }

  function Blocks(l: U.Launch): nat { l.gridDim.x * l.gridDim.y * l.gridDim.z }

  function LaneCount(l: U.Launch, start: nat): nat {
    var left := U.Threads(l) - start;
    if left < 0 then 0 else if left < l.warpSize then left else l.warpSize
  }

  /** A warp before its first instruction. */
  datatype WarpStart = WarpStart(lanes: seq<Lane>, site: Site)

  /** The warps of one block, from thread `start`. */
  function BlockWarps(l: U.Launch, block: nat, start: nat): seq<WarpStart>
    requires U.ValidLaunch(l)
    decreases U.Threads(l) - start
  {
    if start >= U.Threads(l) then []
    else
      var first := WarpStart(InitialLanes(l, block, start, LaneCount(l, start)), Site(block, start));
      [first] + BlockWarps(l, block, start + l.warpSize)
  }

  /** The warps of the first `n` blocks. */
  function LaunchWarps(l: U.Launch, n: nat): seq<WarpStart>
    requires U.ValidLaunch(l)
  {
    if n == 0 then [] else LaunchWarps(l, n - 1) + BlockWarps(l, n - 1, 0)
  }

  /* ---------- a kernel as a function ---------- */

  /** The global memory, the number of executed instructions and the branch trace, or an exception with the trace. */
  datatype Kernel = Finished(gmem: seq<Byte>, executed: nat, trace: seq<BranchTrace>) | Aborted(trace: seq<BranchTrace>)

  /** One warp. */
  function RunOne(exec: Exec, program: seq<Inst>, start: WarpStart, limit: nat, pmem: seq<Byte>, k: Kernel): Kernel {
    if k.Aborted? then k
    else
      var w := Warp(start.lanes, Memory(k.gmem, pmem));
      var trace := k.trace + Traced(exec, program, 0, w, limit, start.site);
      match Machine.Run(exec, program, 0, w, limit, 0)
      case Error => Aborted(trace)
      case Done(w', n) => Finished(w'.mem.gmem, k.executed + n, trace)
  }

  /** How one warp of a launch continues a kernel. */
  type Runner = (WarpStart, Kernel) -> Kernel

  function RunnerOf(exec: Exec, program: seq<Inst>, limit: nat, pmem: seq<Byte>): Runner {
    (start: WarpStart, k: Kernel) => RunOne(exec, program, start, limit, pmem, k)
  }

  /** One warp after the other, up to an exception. */
  function RunAll(run: Runner, warps: seq<WarpStart>, k: Kernel): Kernel {
    if warps == [] || k.Aborted? then k else RunAll(run, warps[1..], run(warps[0], k))
  }

  function RunWarps(exec: Exec, program: seq<Inst>, warps: seq<WarpStart>, limit: nat, pmem: seq<Byte>,
                    k: Kernel): Kernel {
    RunAll(RunnerOf(exec, program, limit, pmem), warps, k)
  }

  lemma {:induction false} RunAllAppend(run: Runner, a: seq<WarpStart>, b: seq<WarpStart>, k: Kernel)
    ensures RunAll(run, a + b, k) == RunAll(run, b, RunAll(run, a, k))
    decreases |a|
  {
    if a == [] {
      assert a + b == b;
    } else {
      assert (a + b)[1..] == a[1..] + b;
      if k.Finished? {
        RunAllAppend(run, a[1..], b, run(a[0], k));
      }
    }
  }

  /** The first warp of several. */
  lemma RunFirst(run: Runner, first: WarpStart, rest: seq<WarpStart>, k: Kernel)
    ensures RunAll(run, [first] + rest, k) == if k.Aborted? then k else RunAll(run, rest, run(first, k))
  {
    assert ([first] + rest)[1..] == rest;
  }

  /** The programs run every warp alike. */
  ghost predicate SameWarps(exec: Exec, p: seq<Inst>, q: seq<Inst>, limit: nat) {
    && (forall w: Warp :: Machine.Run(exec, q, 0, w, limit, 0) == Machine.Run(exec, p, 0, w, limit, 0))
    && (forall w: Warp, site: Site :: Traced(exec, q, 0, w, limit, site) == Traced(exec, p, 0, w, limit, site))
  }

  lemma {:induction false} SameLaunches(exec: Exec, p: seq<Inst>, q: seq<Inst>, warps: seq<WarpStart>, limit: nat,
                                        pmem: seq<Byte>, k: Kernel)
    requires SameWarps(exec, p, q, limit)
    ensures RunWarps(exec, q, warps, limit, pmem, k) == RunWarps(exec, p, warps, limit, pmem, k)
    decreases |warps|
  {
    if warps != [] && k.Finished? {
      assert RunOne(exec, q, warps[0], limit, pmem, k) == RunOne(exec, p, warps[0], limit, pmem, k);
      SameLaunches(exec, p, q, warps[1..], limit, pmem, RunOne(exec, p, warps[0], limit, pmem, k));
    }
  }

  /**
   Scheduling preserves whole launches: the memory, the number of instructions, whether they abort, and the
   branches they record up to there.
   */
  lemma LaunchPreserved(fpu: Fpu, p: seq<Inst>, warps: seq<WarpStart>, limit: nat, pmem: seq<Byte>, k: Kernel)
    requires NoCalls(p) && BlocksCovered(p)
    ensures RunWarps(WarpExec(fpu), ScheduledText(p, 0), warps, limit, pmem, k)
            == RunWarps(WarpExec(fpu), p, warps, limit, pmem, k)
  {
    var exec, q := WarpExec(fpu), ScheduledText(p, 0);
    forall w: Warp
      ensures Machine.Run(exec, q, 0, w, limit, 0) == Machine.Run(exec, p, 0, w, limit, 0)
    {
      RunPreserved(fpu, p, w, limit);
    }
    forall w: Warp, site: Site
      ensures Traced(exec, q, 0, w, limit, site) == Traced(exec, p, 0, w, limit, site)
    {
      TracePreserved(fpu, p, w, limit, site);
    }
    SameLaunches(exec, p, q, warps, limit, pmem, k);
  }

  /** A divergent branch aborts. */
  predicate Converged(k: Kernel) { if k.Finished? then Diverged(k.trace) == 0 else Diverged(k.trace) <= 1 }

  ghost predicate StaysConverged(run: Runner) {
    forall start: WarpStart, k: Kernel | k.Finished? && Converged(k) :: Converged(run(start, k))
  }

  lemma OneConverged(exec: Exec, p: seq<Inst>, start: WarpStart, limit: nat, pmem: seq<Byte>, k: Kernel)
    requires k.Finished? && Converged(k)
    ensures Converged(RunOne(exec, p, start, limit, pmem, k))
  {
    var w := Warp(start.lanes, Memory(k.gmem, pmem));
    DivergesOnce(exec, p, 0, w, limit, 0, start.site);
    DivergedAppend(k.trace, Traced(exec, p, 0, w, limit, start.site));
  }

  lemma {:induction false} AllConverged(run: Runner, warps: seq<WarpStart>, k: Kernel)
    requires StaysConverged(run) && Converged(k)
    ensures Converged(RunAll(run, warps, k))
    decreases |warps|
  {
    if warps != [] && k.Finished? {
      AllConverged(run, warps[1..], run(warps[0], k));
    }
  }

  /** A launch records a divergent branch at most once, and only when it aborts. */
  lemma LaunchDiverges(exec: Exec, p: seq<Inst>, warps: seq<WarpStart>, limit: nat, pmem: seq<Byte>, gmem: seq<Byte>)
    ensures Converged(RunWarps(exec, p, warps, limit, pmem, Finished(gmem, 0, [])))
  {
    forall start: WarpStart, k: Kernel | k.Finished? && Converged(k)
      ensures Converged(RunnerOf(exec, p, limit, pmem)(start, k))
    {
      OneConverged(exec, p, start, limit, pmem, k);
    }
    AllConverged(RunnerOf(exec, p, limit, pmem), warps, Finished(gmem, 0, []));
  }

  /* ---------- the simulator ---------- */

  class TrackBSimulator {
    const fpu: Fpu
    const instructions: seq<Inst>
    const pmem: seq<Byte>
    const launch: U.Launch
    const maxSteps: nat
    var gmem: seq<Byte>
    var executed: nat
    var branchTrace: seq<BranchTrace>
    var branches: nat
    var divergences: nat

    /** The counters agree with the trace. */
    predicate Counted()
      reads this
    {
      branches == |branchTrace| && divergences == Diverged(branchTrace)
    }

    constructor (fpu: Fpu, instructions: seq<Inst>, pmem: seq<Byte>, gmem: seq<Byte>, launch: U.Launch, maxSteps: nat)
      ensures this.fpu == fpu && this.instructions == instructions && this.pmem == pmem && this.launch == launch
      ensures this.maxSteps == maxSteps && this.gmem == gmem && executed == 0 && branchTrace == [] && Counted()
    {
      this.fpu, this.instructions, this.pmem, this.launch := fpu, instructions, pmem, launch;
      this.maxSteps, this.gmem := maxSteps, gmem;
      executed, branchTrace, branches, divergences := 0, [], 0, 0;
    }

    /** One instruction over all lanes, in lane order; `None` is an exception. */
    method ExecuteLanes(inst: Inst, lanes: seq<Lane>) returns (after: Option<seq<Lane>>)
      modifies this`gmem
      ensures
        match WarpStep(fpu, inst, Warp(lanes, Memory(old(gmem), pmem)))
        case None => after == None
        case Some(w) => after == Some(w.lanes) && Memory(gmem, pmem) == w.mem
    {
      ghost var goal := WarpStep(fpu, inst, Warp(lanes, Memory(gmem, pmem)));
      var done: seq<Lane> := [];
      assert lanes[0..] == lanes;
      JoinedNone(goal);
      for k := 0 to |lanes|
        invariant goal == Joined(done, WarpStep(fpu, inst, Warp(lanes[k..], Memory(gmem, pmem))))
      {
        var e := LaneEffect(fpu, inst, lanes[k], Memory(gmem, pmem));
        if e.Trap? {
          return None;
        }
        assert lanes[k..][1..] == lanes[k + 1..];
        if e.Store? {
          gmem := WriteBytes(gmem, e.address, e.data);
        }
        JoinNext(done, ApplyLane(e, lanes[k]), WarpStep(fpu, inst, Warp(lanes[k + 1..], Memory(gmem, pmem))));
        done := done + [ApplyLane(e, lanes[k])];
      }
      assert done + [] == done;
      after := Some(done);
    }

    /** `_branchx_next_pc`; `None` is an exception. */
    method BranchNextPc(inst: Inst, lanes: seq<Lane>, pc: int, site: Site) returns (next: Option<int>)
      requires Counted()
      modifies this`branchTrace, this`branches, this`divergences
      ensures forall mem: Memory ::
                BranchStep(inst, pc, Warp(lanes, mem)) == match next
                                                          case None => Failed
                                                          case Some(n) => Running(n, Warp(lanes, mem))
      ensures branchTrace == old(branchTrace) + Recorded(inst, pc, lanes, site) && Counted()
    {
      if inst.guard.None? || inst.guard.value >= 8 || lanes == [] {
        return None;
      }
      var all, any := true, false;
      for k := 0 to |lanes|
        invariant all <==> forall j | 0 <= j < k :: Decision(inst, lanes[j])
        invariant any <==> exists j :: 0 <= j < k && Decision(inst, lanes[j])
      {
        all := all && Decision(inst, lanes[k]);
        any := any || Decision(inst, lanes[k]);
      }
      branches := branches + 1;
      Record(BranchTrace(pc, inst.imm, inst.guard.value, site, Decisions(inst, lanes), all || !any, all));
      if !all && any {
        divergences := divergences + 1;
        return None;
      }
      if all {
        assert Decision(inst, lanes[0]);
        next := Some(inst.imm);
      } else {
        next := Some(pc + 1);
      }
    }

    method Record(entry: BranchTrace)
      modifies this`branchTrace
      ensures branchTrace == old(branchTrace) + [entry]
      ensures Diverged(branchTrace) == Diverged(old(branchTrace)) + (if entry.uniform then 0 else 1)
    {
      branchTrace := branchTrace + [entry];
      assert branchTrace[..|branchTrace| - 1] == old(branchTrace);
    }

    /** One instruction of `_run_warp`: where the warp goes on, or whether it has halted. */
    method StepWarp(lanes: seq<Lane>, pc: int, site: Site) returns (next: Option<(int, seq<Lane>)>, halted: bool)
      requires Counted() && 0 <= pc < |instructions|
      modifies this`gmem, this`branchTrace, this`branches, this`divergences
      ensures Counted()
      ensures branchTrace == old(branchTrace) + StepTrace(instructions[pc], pc, Warp(lanes, Memory(old(gmem), pmem)), site)
      ensures
        match Step(WarpExec(fpu), instructions, pc, Warp(lanes, Memory(old(gmem), pmem)))
        case Running(pc', w') => next == Some((pc', w'.lanes)) && w'.mem == Memory(gmem, pmem)
        case Halted(w') => next == None && halted && w'.mem == Memory(gmem, pmem)
        case Failed => next == None && !halted
    {
      next, halted := None, false;
      var inst := instructions[pc];
      if IsControl(inst) {
        if inst.opcode.ctl.HALT? {
          halted := inst.guard.None?;
        } else if inst.opcode.ctl.BR? {
          if inst.guard.None? {
            next := Some((inst.imm, lanes));
          }
        } else {
          var target := BranchNextPc(inst, lanes, pc, site);
          if target.Some? {
            next := Some((target.value, lanes));
          }
        }
      } else {
        var after := ExecuteLanes(inst, lanes);
        if after.Some? {
          next := Some((pc + 1, after.value));
        }
      }
    }

    /** `_run_warp`: whether the warp halted. */
    method RunWarp(start: WarpStart) returns (ok: bool)
      requires Counted()
      modifies this`gmem, this`executed, this`branchTrace, this`branches, this`divergences
      ensures Counted()
      ensures Produced(ok) == RunOne(WarpExec(fpu), instructions, start, maxSteps, pmem, old(Produced(true)))
    {
      hide Machine.Run, Machine.Step, WarpExec, Traced, StepTrace, Diverged;
      var pc: int, steps: nat, lanes := 0, 0, start.lanes;
      ghost var exec, w0 := WarpExec(fpu), Warp(lanes, Memory(gmem, pmem));
      ghost var goal := Machine.Run(exec, instructions, 0, w0, maxSteps, 0);
      ghost var goalTrace := branchTrace + Traced(exec, instructions, 0, w0, maxSteps, start.site);
      while true
        invariant steps <= maxSteps && executed == old(executed) + steps && Counted()
        invariant OnTheWay(exec, instructions, start.site, goal, goalTrace,
                           pc, Warp(lanes, Memory(gmem, pmem)), maxSteps - steps, steps, branchTrace)
        decreases maxSteps - steps
      {
        ghost var w := Warp(lanes, Memory(gmem, pmem));
        if !(0 <= pc < |instructions|) || steps >= maxSteps {
          NoWayOn(exec, instructions, start.site, goal, goalTrace, pc, w, maxSteps - steps, steps, branchTrace);
          return false;
        }
        WarpNext(exec, instructions, start.site, goal, goalTrace, pc, w, maxSteps - steps, steps, branchTrace);
        steps := steps + 1;
        executed := executed + 1;
        var next, halted := StepWarp(lanes, pc, start.site);
        if next.None? {
          return halted;
        }
        pc, lanes := next.value.0, next.value.1;
      }
    }

    /** What the launch has produced so far. */
    function Produced(ok: bool): Kernel
      reads this
    {
      if ok then Finished(gmem, executed, branchTrace) else Aborted(branchTrace)
    }

    function Runs(): Runner { RunnerOf(WarpExec(fpu), instructions, maxSteps, pmem) }

    /** All warps of a block. */
    method RunBlock(block: nat) returns (ok: bool)
      requires U.ValidLaunch(launch) && Counted()
      modifies this`gmem, this`executed, this`branchTrace, this`branches, this`divergences
      ensures Counted()
      ensures Produced(ok) == RunAll(Runs(), BlockWarps(launch, block, 0), old(Produced(true)))
    {
      hide RunOne;
      ghost var goal := RunAll(Runs(), BlockWarps(launch, block, 0), Produced(true));
      var start: nat := 0;
      while start < U.Threads(launch)
        invariant Counted() && goal == RunAll(Runs(), BlockWarps(launch, block, start), Produced(true))
        decreases U.Threads(launch) - start
      {
        ghost var before := Produced(true);
        ok := RunWarp(WarpStart(InitialLanes(launch, block, start, LaneCount(launch, start)), Site(block, start)));
        BlockNext(Runs(), launch, block, start, before, Produced(ok));
        if !ok {
          return false;
        }
        start := start + launch.warpSize;
      }
      ok := true;
    }

    /** `run`: the whole launch. */
    method Run() returns (ok: bool)
      requires U.ValidLaunch(launch) && Counted()
      modifies this`gmem, this`executed, this`branchTrace, this`branches, this`divergences
      ensures Counted()
      ensures Produced(ok) == RunWarps(WarpExec(fpu), instructions, LaunchWarps(launch, Blocks(launch)), maxSteps, pmem,
                                       old(Finished(gmem, executed, branchTrace)))
    {
      ghost var before := Produced(true);
      for block := 0 to Blocks(launch)
        invariant Counted()
        invariant Produced(true) == RunAll(Runs(), LaunchWarps(launch, block), before)
      {
        RunAllAppend(Runs(), LaunchWarps(launch, block), BlockWarps(launch, block, 0), before);
        ok := RunBlock(block);
        if !ok {
          AbortStays(Runs(), launch, block + 1, Blocks(launch), before);
          return false;
        }
      }
      ok := true;
    }
  }

  /** A launch that has aborted in its first `n` blocks stays as it is. */
  lemma {:induction false} AbortStays(run: Runner, l: U.Launch, n: nat, m: nat, k: Kernel)
    requires U.ValidLaunch(l) && n <= m && RunAll(run, LaunchWarps(l, n), k).Aborted?
    ensures RunAll(run, LaunchWarps(l, m), k) == RunAll(run, LaunchWarps(l, n), k)
    decreases m
  {
    if n < m {
      AbortStays(run, l, n, m - 1, k);
      RunAllAppend(run, LaunchWarps(l, m - 1), BlockWarps(l, m - 1, 0), k);
    }
  }

  /** One more warp of a block. */
  lemma BlockNext(run: Runner, l: U.Launch, block: nat, start: nat, k: Kernel, after: Kernel)
    requires U.ValidLaunch(l) && start < U.Threads(l) && k.Finished?
    requires after == run(WarpStart(InitialLanes(l, block, start, LaneCount(l, start)), Site(block, start)), k)
    ensures RunAll(run, BlockWarps(l, block, start), k)
         == if after.Aborted? then after else RunAll(run, BlockWarps(l, block, start + l.warpSize), after)
  {
    RunFirst(run, WarpStart(InitialLanes(l, block, start, LaneCount(l, start)), Site(block, start)),
             BlockWarps(l, block, start + l.warpSize), k);
  }

  /** A run at `pc` that will end as `goal`, having recorded `trace` of `goalTrace`. */
  ghost predicate OnTheWay(exec: Exec, p: seq<Inst>, site: Site, goal: Final, goalTrace: seq<BranchTrace>,
                           pc: int, w: Warp, left: nat, steps: nat, trace: seq<BranchTrace>)
  {
    goal == Machine.Run(exec, p, pc, w, left, steps) && goalTrace == trace + Traced(exec, p, pc, w, left, site)
  }

  lemma WarpNext(exec: Exec, p: seq<Inst>, site: Site, goal: Final, goalTrace: seq<BranchTrace>,
                 pc: int, w: Warp, left: nat, steps: nat, trace: seq<BranchTrace>)
    requires OnTheWay(exec, p, site, goal, goalTrace, pc, w, left, steps, trace) && left > 0 && 0 <= pc < |p|
    ensures
      var after := trace + StepTrace(p[pc], pc, w, site);
      match Step(exec, p, pc, w)
      case Running(pc', w') => OnTheWay(exec, p, site, goal, goalTrace, pc', w', left - 1, steps + 1, after)
      case Halted(w') => goal == Done(w', steps + 1) && goalTrace == after
      case Failed => goal == Error && goalTrace == after
  {
    TraceNext(trace, StepTrace(p[pc], pc, w, site), TracedAfter(exec, p, Step(exec, p, pc, w), left - 1, site));
  }

  /** A run that leaves the program or meets the step limit ends with an exception. */
  lemma NoWayOn(exec: Exec, p: seq<Inst>, site: Site, goal: Final, goalTrace: seq<BranchTrace>,
                pc: int, w: Warp, left: nat, steps: nat, trace: seq<BranchTrace>)
    requires OnTheWay(exec, p, site, goal, goalTrace, pc, w, left, steps, trace) && (left == 0 || !(0 <= pc < |p|))
    ensures goal == Error && goalTrace == trace
  {
    assert trace + [] == trace;
  }

  lemma TraceNext(before: seq<BranchTrace>, step: seq<BranchTrace>, rest: seq<BranchTrace>)
    ensures before + (step + rest) == before + step + rest
    ensures before + step + [] == before + step
  {
  }

  /** Lanes already done, before the rest of a warp. */
  function Joined(done: seq<Lane>, rest: Option<Warp>): Option<Warp> {
    match rest
    case None => None
    case Some(w) => Some(Warp(done + w.lanes, w.mem))
  }

  lemma JoinedNone(rest: Option<Warp>)
    ensures Joined([], rest) == rest
  {
    if rest.Some? {
      assert [] + rest.value.lanes == rest.value.lanes;
    }
  }

  lemma JoinNext(done: seq<Lane>, lane: Lane, rest: Option<Warp>)
    ensures Joined(done + [lane], rest) == Joined(done, Joined([lane], rest))
  {
    if rest.Some? {
      assert done + [lane] + rest.value.lanes == done + ([lane] + rest.value.lanes);
    }
  }
}
