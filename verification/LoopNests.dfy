/**
 Nests of do-while loops: every branch goes back under a guard. For such programs the structural conditions of
 register allocation hold, and what remains is to define before use, twice at most.
 */
module LoopNests {
  import opened Isa
  import opened Ptx
  import opened Cfg
  import G = Graphs
  import opened Liveness
  import opened LoopRanges
  import opened LinearScan
  import opened LinearScanFacts
  import opened AllocationMeaning
  import opened RegisterAllocation

  /** Branches are guarded and go back, and only the last item returns. */
  predicate LoopNest(p: Program) {
    && WellFormed(p)
    && (forall pc | 0 <= pc < |p| && IsBra(p, pc) :: p[pc].inst.guard.Some? && GoesBack(p, pc))
    && (forall pc | 0 <= pc < |p| && IsRet(p, pc) :: pc == |p| - 1)
  }

  predicate GoesBack(p: Program, pc: nat)
    requires IsBra(p, pc)
  {
    Target(p, p[pc].inst).Some? && Target(p, p[pc].inst).value <= pc
  }

  /** The edges out of a block go to the next one or back. */
  lemma NestSuccessors(p: Program, s: nat)
    requires LoopNest(p) && BlockStart(p, s) && s < |p|
    ensures BlockEnd(p, s) < |p| ==> BlockEnd(p, s) in Successors(p, s)
    ensures forall m | m in Successors(p, s) :: m == BlockEnd(p, s) || m < BlockEnd(p, s)
  {
    var last: nat := BlockEnd(p, s) - 1;
    if IsBra(p, last) {
      assert GoesBack(p, last);
    }
  }

  lemma NextIsReachable(p: Program, k: nat)
    requires LoopNest(p) && 0 < k < |p| && Leader(p, k) && G.Reachable(CfgOf(p), BlockOf(p, k - 1))
    ensures G.Reachable(CfgOf(p), k)
  {
    var m := BlockOf(p, k - 1);
    BlockOfFacts(p, k - 1);
    BlockEndFacts(p, m);
    assert BlockEnd(p, m) == k;
    NestSuccessors(p, m);
    CfgValid(p);
    G.ReachableStep(CfgOf(p), m, k);
  }

  lemma {:induction false} AllReachable(p: Program, k: nat)
    requires LoopNest(p) && k < |p|
    ensures G.Reachable(CfgOf(p), BlockOf(p, k))
  {
    if k == 0 {
      CfgValid(p);
      assert G.PathBetween(CfgOf(p), [0], 0, 0);
    } else {
      AllReachable(p, k - 1);
      if Leader(p, k) {
        NextIsReachable(p, k);
      }
    }
  }

  /** An edge from before a block start does not jump over it. */
  lemma NoJumpOver(p: Program, m: nat, k: nat, header: nat)
    requires LoopNest(p) && G.Edge(CfgOf(p), m, k) && m < header < |p| && BlockStart(p, header)
    ensures k <= header
  {
    CfgValid(p);
    NestSuccessors(p, m);
    BlockEndFacts(p, m);
  }

  ghost predicate NoneOver(g: G.Graph, header: nat) {
    forall m: nat, k: nat | G.Edge(g, m, k) && m < header :: k <= header
  }

  /** A path that avoids `header` stays before it. */
  lemma {:induction false} StaysBefore(g: G.Graph, path: seq<nat>, header: nat, n: nat)
    requires NoneOver(g, header) && G.Path(g, path) && path[0] < header && header !in path && n < |path|
    ensures path[n] < header
  {
    if n > 0 {
      StaysBefore(g, path, header, n - 1);
      assert G.Edge(g, path[n - 1], path[n - 1 + 1]);
      assert path[n] in path;
    }
  }

  lemma PathMeets(g: G.Graph, path: seq<nat>, header: nat, tail: nat)
    requires NoneOver(g, header) && G.PathBetween(g, path, 0, tail) && header <= tail
    ensures header in path
  {
    if header == 0 {
      assert path[0] in path;
    } else if header !in path {
      StaysBefore(g, path, header, |path| - 1);
      assert false;
    }
  }

  lemma HeaderFirst(p: Program, header: nat, tail: nat)
    requires LoopNest(p) && BlockStart(p, header) && header <= tail && header < |p|
    ensures G.Dominates(CfgOf(p), header, tail)
  {
    forall m: nat, k: nat | G.Edge(CfgOf(p), m, k) && m < header
      ensures k <= header
    {
      NoJumpOver(p, m, k, header);
    }
    forall path: seq<nat> | G.PathBetween(CfgOf(p), path, 0, tail)
      ensures header in path
    {
      PathMeets(CfgOf(p), path, header, tail);
    }
  }

  lemma BranchEndsBlock(p: Program, pc: nat)
    requires IsBra(p, pc)
    ensures BlockEnd(p, BlockOf(p, pc)) == pc + 1
  {
    BlockOfFacts(p, pc);
    BlockEndFacts(p, BlockOf(p, pc));
    assert pc + 1 < |p| ==> Leader(p, pc + 1);
  }

  lemma {:induction false} TargetInBlocks(p: Program, next: nat, pc: nat)
    requires BlockStart(p, next) && next <= pc < |p|
    ensures next <= BlockOf(p, pc)
  {
    BlockOfFacts(p, pc);
  }

  lemma TargetIsSuccessor(p: Program, pc: nat, next: nat)
    requires BranchesTo(p, pc, next)
    ensures next in SuccessorsAt(p, BlockOf(p, pc))
  {
    BranchEndsBlock(p, pc);
  }

  lemma TargetBefore(p: Program, pc: nat, next: nat)
    requires BranchesTo(p, pc, next) && next <= pc && BlockStart(p, next)
    ensures next <= BlockOf(p, pc) && G.Edge(CfgOf(p), BlockOf(p, pc), next)
  {
    TargetInBlocks(p, next, pc);
    TargetIsSuccessor(p, pc, next);
    assert BlockOf(p, pc) in Leaders(p);
  }

  lemma NestReducible(p: Program, l: LoopRange)
    requires LoopNest(p)
    ensures Reducible(p) && ForwardSafe(p, l)
  {
    forall pc: nat, next: nat | BranchesTo(p, pc, next)
      ensures next <= pc && G.BackEdge(CfgOf(p), BlockOf(p, pc), next)
    {
      assert GoesBack(p, pc);
      TargetStartsBlock(p, pc, next);
      TargetBefore(p, pc, next);
      AllReachable(p, pc);
      HeaderFirst(p, next, BlockOf(p, pc));
    }
  }

  /**
   Allocation preserves every run of a nest of loops in which registers are defined before they are used, at
   most twice, whatever the nesting, the conditions and the numbers of iterations.
   */
  lemma NestPreserved<W(!new)>(p: Program, sem: Semantics<W>, mapping: Mapping, jobs: seq<Job>,
                               range: Option<(nat, nat)>, iv: Intervals, regs: Virtual, phys: Physical, w: W, n: nat)
    requires LoopNest(p) && DefinedFirst(p) && forall r: Reg | !IsPredicate(r) :: AtMostTwoDefinitions(p, r)
    requires Allocated(p, mapping, jobs, range, iv) && Respects(p, sem) && PressureBounded(jobs)
    ensures Simulates(p, RangeWithLabels(p, range), mapping,
                      VirtualRun(p, sem, Running(0, regs, w), n), PhysicalRun(p, sem, mapping, Running(0, phys, w), n))
  {
    NestReducible(p, RangeWithLabels(p, range));
    TwoDefinitionsRecorded(p, range);
    AllocationPreserves(p, sem, mapping, jobs, range, iv, regs, phys, w, n);
  }
}
