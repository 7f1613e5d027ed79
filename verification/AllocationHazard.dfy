/** A loop whose only read of a register is the operand of its third definition: its interval is not extended. */
module AllocationHazard {
  import opened Isa
  import opened Ptx
  import opened Cfg
  import G = Graphs
  import opened Liveness
  import opened LoopRanges
  import S = Sequences
  import opened LinearScan
  import opened F = LinearScanFacts
  import opened AllocationMeaning
  import opened RegisterAllocation
  import P = AllocationPtx

  const Pointer := Reg(RdClass, 1)
  const Scratch := Reg(RdClass, 2)

  function Move(d: Reg, value: int): Item {
    Code(Instr(Pure(Mov), 0, false, OtherTy(64), [RegOp(d), Imm(value)], None, false))
  }

  /** `Pointer` is followed through memory by its third definition; `Scratch` is written after it in the loop. */
  const Chase: Program :=
    [Move(Pointer, 1), Move(Pointer, 2), Label(0),
     Code(Instr(Ld, 0, false, OtherTy(64), [RegOp(Pointer), Addr(Pointer)], None, false)),
     Move(Scratch, 5),
     Code(Instr(Bra, 0, false, OtherTy(0), [Sym(0)], None, false))]

  /* ---------- its loop ---------- */

  lemma ChaseBlocks()
    ensures forall s: nat :: BlockStart(Chase, s) <==> s == 0 || s == 2
    ensures SuccessorsAt(Chase, 0) == {2} && SuccessorsAt(Chase, 2) == {2}
    ensures BlockOf(Chase, 3) == 2 && BlockOf(Chase, 4) == 2 && BlockOf(Chase, 5) == 2
    ensures BlockOf(Chase, 0) == 0 && BlockOf(Chase, 1) == 0
  {
    assert Chase[0].Code? && Chase[1].Code? && Chase[2] == Label(0);
    assert FindLabel(Chase, 0) == Some(2);
    assert BlockEnd(Chase, 5) == 6;
    assert BlockEnd(Chase, 4) == 6;
    assert BlockEnd(Chase, 3) == 6;
    assert BlockEnd(Chase, 2) == 6;
    assert BlockEnd(Chase, 1) == 2;
    assert BlockEnd(Chase, 0) == 2;
    assert IsBra(Chase, 5) && !IsBra(Chase, 1) && !IsRet(Chase, 1);
    BlockOfStart(Chase, 2, 3);
    BlockOfStart(Chase, 2, 4);
    BlockOfStart(Chase, 2, 5);
    BlockOfStart(Chase, 0, 1);
  }

  lemma ChaseFormed()
    ensures WellFormed(Chase)
    ensures forall pc: nat, next: nat :: BranchesTo(Chase, pc, next) <==> pc == 5 && next == 2
  {
    assert Chase[0].Code? && Chase[1].Code? && Chase[2] == Label(0);
    assert FindLabel(Chase, 0) == Some(2);
    assert forall pc: nat :: IsBra(Chase, pc) <==> pc == 5;
  }

  lemma ChaseBackEdge(tail: nat, header: nat)
    ensures G.BackEdge(CfgOf(Chase), tail, header) <==> tail == 2 && header == 2
  {
    var g := CfgOf(Chase);
    ChaseBlocks();
    CfgValid(Chase);
    assert G.PathBetween(g, [0], 0, 0);
    assert G.Edge(g, 0, 2) && G.Edge(g, 2, 2);
    assert G.PathBetween(g, [0, 2], 0, 2);
  }

  lemma ChaseLoop(k: nat)
    ensures InSomeLoop(Chase, CfgOf(Chase), k) <==> 3 <= k <= 5
  {
    ChaseBlocks();
    if 3 <= k <= 5 {
      ChaseBackEdge(2, 2);
      assert InNaturalLoop(Chase, CfgOf(Chase), 2, 2, k);
    }
    if tail: nat, header: nat :| InNaturalLoop(Chase, CfgOf(Chase), tail, header, k) {
      ChaseBackEdge(tail, header);
      assert k == 0 || k == 1 || 3 <= k <= 5;
      assert BlockOf(Chase, k) == 2;
    }
  }

  lemma ChaseLoops()
    ensures forall k: nat :: InSomeLoop(Chase, CfgOf(Chase), k) <==> 3 <= k <= 5
  {
    forall k: nat
      ensures InSomeLoop(Chase, CfgOf(Chase), k) <==> 3 <= k <= 5
    {
      ChaseLoop(k);
    }
  }

  lemma ChaseRange(range: Option<(nat, nat)>)
    requires Bounds(range, (k: nat) => InSomeLoop(Chase, CfgOf(Chase), k))
    ensures range == Some((3, 5))
  {
    ChaseLoops();
    BoundsUnique(range, (k: nat) => InSomeLoop(Chase, CfgOf(Chase), k), (3, 5));
  }

  lemma BoundsUnique(range: Option<(nat, nat)>, inside: nat -> bool, bounds: (nat, nat))
    requires Bounds(range, inside) && bounds.0 <= bounds.1
    requires forall k: nat :: inside(k) <==> bounds.0 <= k <= bounds.1
    ensures range == Some(bounds)
  {
    assert inside(bounds.0) && inside(bounds.1);
  }

  /* ---------- its intervals ---------- */

  lemma ChaseOccurs(k: nat, r: Reg)
    ensures Occurs(Chase, Definition, k, r) <==> (r == Pointer && (k == 0 || k == 1 || k == 3)) || (r == Scratch && k == 4)
    ensures Occurs(Chase, Use, k, r) <==> r == Pointer && k == 3
  {
    assert AllRegs([Addr(Pointer)]) == {Pointer} by {
      assert AllRegs([]) == {};
    }
    assert AllRegs([Imm(1)]) == {} && AllRegs([Imm(2)]) == {} && AllRegs([Imm(5)]) == {} && AllRegs([Sym(0)]) == {};
    if k < 6 && Chase[k].Code? {
      var o := Chase[k].inst.operands;
      assert k != 5 ==> o[1..] == [o[1]];
    }
  }

  lemma ChaseSpans()
    ensures Span(Chase, Pointer, Interval(0, 3)) && Span(Chase, Scratch, Interval(4, 4))
    ensures forall r: Reg :: IsDefined(Chase, r) <==> r == Pointer || r == Scratch
  {
    forall k: nat, r: Reg
      ensures Occurs(Chase, Definition, k, r) <==>
                (r == Pointer && (k == 0 || k == 1 || k == 3)) || (r == Scratch && k == 4)
      ensures Occurs(Chase, Use, k, r) <==> r == Pointer && k == 3
    {
      ChaseOccurs(k, r);
    }
    forall r: Reg
      ensures IsDefined(Chase, r) <==> r == Pointer || r == Scratch
    {
      var defs := Positions(Chase, Definition, r, |Chase|);
      PositionsFacts(Chase, Definition, r, |Chase|);
      if defs != [] {
        assert defs[0] in defs;
      }
      assert 0 in defs <==> r == Pointer;
      assert 4 in defs <==> r == Scratch;
    }
  }

  /** Two definitions precede the one that reads the pointer. */
  lemma NothingKept(r: Reg, u: nat)
    ensures !KeptUse(Chase, r, u)
  {
    ChaseOccurs(u, r);
    if Occurs(Chase, Use, u, r) {
      ChaseOccurs(0, Pointer);
      ChaseOccurs(1, Pointer);
      ChaseOccurs(2, Pointer);
      assert Positions(Chase, Definition, Pointer, 0) == [];
      assert Positions(Chase, Definition, Pointer, 1) == [0];
      assert Positions(Chase, Definition, Pointer, 2) == [0, 1];
      assert Positions(Chase, Definition, Pointer, 3) == [0, 1];
    }
  }

  const ChaseIntervals: Intervals := map[Pointer := Interval(0, 3), Scratch := Interval(4, 4)]

  lemma ChaseMerged(merged: Intervals)
    requires Merged(Chase, merged)
    ensures merged == ChaseIntervals
  {
    ChaseSpans();
    assert merged.Keys == {Pointer, Scratch};
    SpanUnique(Chase, Pointer, merged[Pointer], Interval(0, 3));
    SpanUnique(Chase, Scratch, merged[Scratch], Interval(4, 4));
  }

  lemma NotExtended(facts: Ranges, r: Reg, iv: Interval)
    requires LivenessOf(Chase, facts) && r in facts && IsDefined(Chase, r)
    ensures ExtendOne(facts, r, iv, (3, 5)) == iv
  {
    HasUseExactly(Chase, facts, r, 3, 5);
    forall u: nat
      ensures !KeptUse(Chase, r, u)
    {
      NothingKept(r, u);
    }
  }

  lemma AllKept(facts: Ranges, merged: Intervals, range: (nat, nat))
    requires forall r | r in merged :: ExtendOne(facts, r, merged[r], range) == merged[r]
    ensures ExtendOverLoops(facts, merged, Some(range)) == merged
  {
  }

  lemma ChaseKept(p: Program, facts: Ranges, merged: Intervals)
    requires p == Chase && LivenessOf(p, facts) && Merged(p, merged)
    ensures ExtendOverLoops(facts, merged, Some((3, 5))) == merged
  {
    forall r | r in merged
      ensures ExtendOne(facts, r, merged[r], (3, 5)) == merged[r]
    {
      assert IsDefined(p, r) && r in facts;
      NotExtended(facts, r, merged[r]);
    }
    AllKept(facts, merged, (3, 5));
  }

  lemma ChaseExtended(p: Program, iv: Intervals)
    requires p == Chase && ExtendedIntervals(p, Some((3, 5)), iv)
    ensures iv == ChaseIntervals
  {
    var facts, merged :| LivenessOf(p, facts) && Merged(p, merged) && iv == ExtendOverLoops(facts, merged, Some((3, 5)));
    ChaseKept(p, facts, merged);
    ChaseMerged(merged);
  }

  lemma ChaseUncovered()
    ensures !LoopsCovered(Chase, Some((3, 5)))
  {
    ChaseOccurs(3, Pointer);
    ChaseOccurs(0, Pointer);
    PositionsFacts(Chase, Definition, Pointer, 4);
    assert 0 in Positions(Chase, Definition, Pointer, 4);
    assert CarriedUse(Chase, (3, 5), Pointer, 3);
    forall k: nat
      ensures !KeptUse(Chase, Pointer, k) && (k >= 5 ==> !Mentions(Chase, Pointer, k))
    {
      NothingKept(Pointer, k);
      ChaseOccurs(k, Pointer);
    }
    assert !CoveredIn(Chase, (3, 5), Pointer);
  }

  /* ---------- its mapping ---------- */

  const ChaseJobs: seq<Job> := [Job(Pointer, Interval(0, 3)), Job(Scratch, Interval(4, 4))]

  lemma ChaseJobsOnly(jobs: seq<Job>)
    requires JobsOf(jobs, ChaseIntervals)
    ensures jobs == ChaseJobs
  {
    assert HasJob(jobs, Pointer) && HasJob(jobs, Scratch);
    var i: nat :| i < |jobs| && jobs[i].reg == Pointer;
    var j: nat :| j < |jobs| && jobs[j].reg == Scratch;
    assert j < i ==> Follows(jobs, j, i);
    assert i < j;
    assert jobs[0].reg == Pointer || jobs[0].reg == Scratch;
    JobUnique(jobs, 0, if jobs[0].reg == Pointer then i else j);
    assert jobs[1].reg == Pointer || jobs[1].reg == Scratch;
    JobUnique(jobs, 1, if jobs[1].reg == Pointer then i else j);
    if |jobs| > 2 {
      assert jobs[2].reg == Pointer || jobs[2].reg == Scratch;
      JobUnique(jobs, 2, if jobs[2].reg == Pointer then i else j);
    }
  }

  lemma NothingHeld()
    ensures Expired([], 0) == [] && Survivors([], 0) == []
  {
  }

  lemma PointerServed(after: Scan)
    requires ServesNext(ChaseJobs[0], Fresh(), after)
    ensures after.active == [Held(3, 2), Held(3, 3)] && after.mapping == map[Pointer := 2] && |after.free| > 0
  {
    hide FirstIndex, Expired, Survivors;
    NothingHeld();
    var free := AllFree();
    assert Fresh().free + [] == free;
    assert !PairAt(free, 238);
    assert free[236] == 3 && PairAt(free, 237);
    assert LastPair(free, 239) == Some(237);
  }

  /** The registers of the first pair are free again and first in line. */
  lemma ScratchServed(s: Scan, after: Scan)
    requires s.active == [Held(3, 2), Held(3, 3)] && s.mapping == map[Pointer := 2]
    requires ServesNext(ChaseJobs[1], s, after)
    ensures after.mapping == map[Pointer := 2, Scratch := 2]
  {
    var active := s.active;
    assert active[..1] == [Held(3, 2)] && active[..1][..0] == [];
    assert Expired(active[..1], 4) == [2];
    assert Expired(active, 4) == [2] + [3] == [2, 3];
    var free := s.free + [2, 3];
    var n := |s.free|;
    assert free[n] == 2 && free[n + 1] == 3;
    assert PairAt(free, n) && !PairAt(free, n + 1);
    assert LastPair(free, n + 2) == Some(n);
  }

  lemma ChaseMapping(mapping: Mapping)
    requires ScannedTo(ChaseJobs, mapping)
    ensures mapping == map[Pointer := 2, Scratch := 2]
  {
    var s: Scan :| ScansTo(ChaseJobs, s) && mapping == s.mapping;
    var states: seq<Scan> :| IsScan(ChaseJobs, states) && s == states[2];
    assert ServesNext(ChaseJobs[0], states[0], states[0 + 1]);
    assert ServesNext(ChaseJobs[1], states[1], states[1 + 1]);
    PointerServed(states[1]);
    ScratchServed(states[1], states[2]);
  }

  /** The pass puts both pairs into registers 2 and 3. */
  lemma ChaseAllocated(mapping: Mapping, jobs: seq<Job>, range: Option<(nat, nat)>, iv: Intervals)
    requires Allocated(Chase, mapping, jobs, range, iv)
    ensures range == Some((3, 5)) && jobs == ChaseJobs && mapping == map[Pointer := 2, Scratch := 2]
  {
    ChaseFormed();
    ChaseRange(range);
    ChaseExtended(Chase, iv);
    ChaseJobsOnly(jobs);
    ChaseMapping(mapping);
  }

  /** Everything else that preservation asks for holds. */
  ghost predicate OtherwiseFit(p: Program, jobs: seq<Job>, range: Option<(nat, nat)>) {
    && WellFormed(p) && P.ComparesToPredicates(p) && P.FirstUnguarded(p)
    && DefinedFirst(p) && Reducible(p) && ForwardSafe(p, RangeWithLabels(p, range)) && PressureBounded(jobs)
  }

  lemma ChasePressure()
    ensures PressureBounded(ChaseJobs)
  {
    forall t: nat
      ensures |F.At(ChaseJobs, t)| <= AlignedPairs
    {
      S.SubsetSize(F.At(ChaseJobs, t), {0, 1});
    }
  }

  lemma ChaseDefinedFirst()
    ensures DefinedFirst(Chase)
  {
    hide Occurs;
    ChaseOccurs(0, Pointer);
    forall r: Reg, u: nat | Occurs(Chase, Use, u, r)
      ensures DefinedBefore(Chase, r, u)
    {
      ChaseOccurs(u, r);
    }
  }

  lemma ChaseFit()
    ensures OtherwiseFit(Chase, ChaseJobs, Some((3, 5)))
  {
    hide CfgOf, BlockOf, DefinedFirst, PressureBounded;
    ChaseFormed();
    ChasePressure();
    ChaseBlocks();
    ChaseBackEdge(2, 2);
    ChaseDefinedFirst();
  }

  /* ---------- its runs ---------- */

  predicate Watched(w: P.World, mem: Memory, trace: seq<Event>) {
    !w.stuck && w.state.mem == mem && w.state.trace == trace
  }

  ghost predicate Reaches(f: Machine<Physical, P.World>, pc: nat, two: Word, mem: Memory, trace: seq<Event>) {
    f.Running? && f.pc == pc && Get(f.regs, 2) == two && Watched(f.world, mem, trace)
  }

  const Both: Mapping := map[Pointer := 2, Scratch := 2]

  ghost function After(unit: Unit, f: Machine<Physical, P.World>): Machine<Physical, P.World>
    requires f.Running?
  {
    PhysicalStep(Chase, P.SemanticsOf(unit, Chase), Both, f.pc, f.regs, f.world)
  }

  lemma MoveReaches(unit: Unit, f: Machine<Physical, P.World>, k: nat, d: Reg, v: Word, two: Word,
                    mem: Memory, trace: seq<Event>)
    requires (d == Pointer || d == Scratch) && k < 6 && Chase[k] == Move(d, v) && Reaches(f, k, two, mem, trace)
    ensures Reaches(After(unit, f), k + 1, v, mem, trace)
  {
    hide MappedArguments, GprUses, AllRegs, Step, Effect;
    ChaseMove(unit, k, d, v, P.Seen(MappedArguments(f.regs, Both, GprUses(Chase, k)), f.world.state));
  }

  lemma LoadReaches(unit: Unit, f: Machine<Physical, P.World>, two: Word, mem: Memory, trace: seq<Event>)
    requires Reaches(f, 3, two, mem, trace)
    ensures Reaches(After(unit, f), 4, Get(mem, two), mem, trace + [LoadEvent(two)])
  {
    var i := Chase[3].inst;
    assert i.operands[1..] == [Addr(Pointer)];
    ChaseOccurs(3, Pointer);
    assert Pointer in GprUses(Chase, 3);
    var seen := P.Seen(MappedArguments(f.regs, Both, GprUses(Chase, 3)), f.world.state);
    assert Get(seen.regs, Pointer) == two;
    var after := Effect(unit, i, seen).value;
    assert Step(unit, Chase, 3, seen) == At(4, after);
  }

  lemma LabelReaches(unit: Unit, f: Machine<Physical, P.World>, two: Word, mem: Memory, trace: seq<Event>)
    requires Reaches(f, 2, two, mem, trace)
    ensures Reaches(After(unit, f), 3, two, mem, trace)
  {
  }

  lemma BackReaches(unit: Unit, f: Machine<Physical, P.World>, two: Word, mem: Memory, trace: seq<Event>)
    requires Reaches(f, 5, two, mem, trace)
    ensures Reaches(After(unit, f), 2, two, mem, trace + [BranchEvent(true)])
  {
    ChaseFormed();
    var seen := P.Seen(MappedArguments(f.regs, Both, GprUses(Chase, 5)), f.world.state);
    assert BranchesTo(Chase, 5, 2);
    assert Step(unit, Chase, 5, seen) == At(2, Log(seen, BranchEvent(true)));
  }

  ghost function Mapped(unit: Unit, f: Machine<Physical, P.World>, n: nat): Machine<Physical, P.World> {
    PhysicalRun(Chase, P.SemanticsOf(unit, Chase), Both, f, n)
  }

  /** One more step of a run. */
  lemma {:induction false} MappedNext(unit: Unit, f: Machine<Physical, P.World>, n: nat)
    requires Mapped(unit, f, n).Running?
    ensures Mapped(unit, f, n + 1) == After(unit, Mapped(unit, f, n))
    decreases n
  {
    assert f.Running?;
    if n > 0 {
      MappedNext(unit, After(unit, f), n - 1);
    } else {
      assert Mapped(unit, After(unit, f), 0) == After(unit, f);
    }
  }

  lemma MappedSetup(unit: Unit, f: Machine<Physical, P.World>, two: Word, mem: Memory, trace: seq<Event>)
    requires Reaches(f, 0, two, mem, trace)
    ensures Reaches(Mapped(unit, f, 3), 3, 2, mem, trace)
  {
    MappedNext(unit, f, 0);
    MoveReaches(unit, f, 0, Pointer, 1, two, mem, trace);
    MappedNext(unit, f, 1);
    MoveReaches(unit, Mapped(unit, f, 1), 1, Pointer, 2, 1, mem, trace);
    MappedNext(unit, f, 2);
    LabelReaches(unit, Mapped(unit, f, 2), 2, mem, trace);
  }

  lemma LoadThenMove(unit: Unit, f: Machine<Physical, P.World>, n: nat, two: Word, mem: Memory, trace: seq<Event>)
    requires Reaches(Mapped(unit, f, n), 3, two, mem, trace)
    ensures Reaches(Mapped(unit, f, n + 2), 5, 5, mem, trace + [LoadEvent(two)])
  {
    MappedNext(unit, f, n);
    LoadReaches(unit, Mapped(unit, f, n), two, mem, trace);
    MappedNext(unit, f, n + 1);
    MoveReaches(unit, Mapped(unit, f, n + 1), 4, Scratch, 5, Get(mem, two), mem, trace + [LoadEvent(two)]);
  }

  lemma BackToStart(unit: Unit, f: Machine<Physical, P.World>, n: nat, two: Word, mem: Memory, trace: seq<Event>)
    requires Reaches(Mapped(unit, f, n), 5, two, mem, trace)
    ensures Reaches(Mapped(unit, f, n + 2), 3, two, mem, trace + [BranchEvent(true)])
  {
    MappedNext(unit, f, n);
    BackReaches(unit, Mapped(unit, f, n), two, mem, trace);
    MappedNext(unit, f, n + 1);
    LabelReaches(unit, Mapped(unit, f, n + 1), two, mem, trace + [BranchEvent(true)]);
  }

  /** The second load reads the address that `Scratch` left in the register. */
  lemma MappedChase(unit: Unit, f: Machine<Physical, P.World>, two: Word, mem: Memory, trace: seq<Event>)
    requires Reaches(f, 0, two, mem, trace)
    ensures Reaches(Mapped(unit, f, 8), 4, Get(mem, 5), mem,
                    trace + [LoadEvent(2)] + [BranchEvent(true)] + [LoadEvent(5)])
  {
    MappedSetup(unit, f, two, mem, trace);
    LoadThenMove(unit, f, 3, 2, mem, trace);
    BackToStart(unit, f, 5, 5, mem, trace + [LoadEvent(2)]);
    MappedNext(unit, f, 7);
    LoadReaches(unit, Mapped(unit, f, 7), 5, mem, trace + [LoadEvent(2)] + [BranchEvent(true)]);
  }

  /** The first round and the load of the second. */
  lemma ChaseRun(unit: Unit, s: State) returns (final: State)
    ensures Run(Steps(unit, Chase), At(0, s), 8) == At(4, final)
    ensures final.trace == s.trace + [LoadEvent(2)] + [BranchEvent(true)] + [LoadEvent(Get(s.mem, 2))]
  {
    var step := Steps(unit, Chase);
    ChaseFormed();
    var s2 := s.(regs := s.regs[Pointer := 1][Pointer := 2]);
    ChaseMove(unit, 0, Pointer, 1, s);
    ChaseMove(unit, 1, Pointer, 2, s.(regs := s.regs[Pointer := 1]));
    var s4 := ChaseLoad(unit, s2);
    ChaseMove(unit, 4, Scratch, 5, s4);
    var s6 := Log(s4.(regs := s4.regs[Scratch := 5]), BranchEvent(true));
    assert BranchesTo(Chase, 5, 2);
    assert step(5, s4.(regs := s4.regs[Scratch := 5])) == At(2, s6);
    final := ChaseLoad(unit, s6);
    assert Run(step, At(3, s2), 5) == At(4, final);
  }

  lemma ChaseMove(unit: Unit, k: nat, d: Reg, v: Word, s: State)
    requires k < 6 && Chase[k] == Move(d, v)
    ensures Step(unit, Chase, k, s) == At(k + 1, s.(regs := s.regs[d := v]))
  {
    assert Chase[k].inst.operands[1..] == [Imm(v)];
  }

  lemma ChaseLoad(unit: Unit, s: State) returns (after: State)
    ensures Step(unit, Chase, 3, s) == At(4, after) && after.mem == s.mem
    ensures Get(after.regs, Pointer) == Get(s.mem, Get(s.regs, Pointer))
    ensures after.trace == s.trace + [LoadEvent(Get(s.regs, Pointer))]
  {
    assert Chase[3].inst.operands[1..] == [Addr(Pointer)];
    after := Effect(unit, Chase[3].inst, s).value;
  }

  /** Whatever the pass returns for this program, its runs differ by the eighth step, for every memory without 5 at 2. */
  lemma UncoveredLoopChangesMeaning(unit: Unit, mapping: Mapping, jobs: seq<Job>, range: Option<(nat, nat)>,
                                    iv: Intervals,
                                    s: State, regs: Virtual, w: P.World, phys: Physical)
    requires Allocated(Chase, mapping, jobs, range, iv) && P.Holds(regs, w, s) && Get(s.mem, 2) != 5
    ensures OtherwiseFit(Chase, jobs, range) && !LoopsCovered(Chase, range)
    ensures !P.Mirrors(Run(Steps(unit, Chase), At(0, s), 8),
                       PhysicalRun(Chase, P.SemanticsOf(unit, Chase), mapping, Running(0, phys, w), 8))
  {
    ChaseAllocated(mapping, jobs, range, iv);
    ChaseFit();
    ChaseUncovered();
    var final := ChaseRun(unit, s);
    MappedChase(unit, Running(0, phys, w), Get(phys, 2), s.mem, s.trace);
    LastDiffers(s.trace + [LoadEvent(2)] + [BranchEvent(true)], LoadEvent(Get(s.mem, 2)), LoadEvent(5));
  }

  lemma LastDiffers(base: seq<Event>, e: Event, other: Event)
    requires e != other
    ensures base + [e] != base + [other]
  {
    assert (base + [e])[|base|] == e;
  }
}
