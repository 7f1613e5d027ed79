/**
 Two programs whose meaning the scheduler changes: a load overtakes the comparison that guards it, and a load
 overtakes the instruction that writes its address to the second half of a pair.
 */
module ScheduleHazard {
  import opened Isa
  import opened Machine
  import opened Commute
  import opened Sequences
  import opened ScheduleGraph
  import opened ScheduleConflicts
  import opened ScheduleMeaning
  import opened ScheduleProgram
  import opened ScheduleExact

  const Halt := Inst(Control(HALT), NoType, 0, 0, 0, 0, 0, None, false, None, None, None, 0)

  function Three(first: Inst, load: Inst): seq<Inst> { [first, load, Halt] }

  /** A load that the scheduler does not see to depend on the instruction before it. */
  predicate Overtakes(first: Inst, load: Inst) {
    KindOf(first).ComputeKind? && KindOf(load).LoadKind? && !Guaranteed(NodeOf(first), NodeOf(load))
  }

  lemma LoadGoesFirst(first: Inst, load: Inst, g: seq<Node>, order: seq<nat>)
    requires Overtakes(first, load) && g == NodesOf(Three(first, load)) && Greedy(g, order)
    ensures order == [1, 0, 2]
  {
    assert !Edge(g, 0, 1);
    assert Ready(g, [], 1);
    FirstPick(g, order, 1);
    assert NodesOf(Three(first, load))[2].kind.ControlKind?;
    GreedyLength(g, order);
    assert 2 in order && 0 in order;
    LateKindKept(g, order, 0, 2);
  }

  lemma ScheduledThree(first: Inst, load: Inst)
    requires Overtakes(first, load)
    ensures ScheduledText(Three(first, load), 0) == [load, first, Halt]
  {
    var p := Three(first, load);
    var g := NodesOf(p);
    GreedyOrderIsGreedy(g);
    LoadGoesFirst(first, load, g, GreedyOrder(g));
    assert !Leader(p, 1) && !Leader(p, 2);
    assert BlockEnd(p, 2) == 3 && BlockEnd(p, 1) == 3 && BlockEnd(p, 0) == 3;
    assert Block(p, 0) == p;
    assert Scheduled(p) == [p[1], p[0], p[2]];
  }

  function ZeroLane(): Lane {
    Lane(seq(256, _ => 0), seq(8, _ => false), map[])
  }

  function ZeroWarp(data: seq<Byte>): Warp {
    Warp([ZeroLane()], Memory(data, []))
  }

  lemma OneLane(fpu: Fpu, i: Inst, a: Lane, mem: Memory, e: Effect)
    requires e == LaneEffect(fpu, i, a, mem) && !e.Trap?
    ensures WarpStep(fpu, i, Warp([a], mem)) == Some(Warp([ApplyLane(e, a)], ApplyMem(e, mem)))
  {
    var rest := Warp([a][1..], ApplyMem(e, mem));
    assert rest.lanes == [];
    assert WarpStep(fpu, i, rest) == Some(rest);
    assert [ApplyLane(e, a)] + rest.lanes == [ApplyLane(e, a)];
  }

  lemma RunThree(fpu: Fpu, i: Inst, j: Inst, a: Lane, e: Effect, f: Effect, mem: Memory)
    requires !IsControl(i) && !IsControl(j)
    requires e == LaneEffect(fpu, i, a, mem) && !e.Trap? && !e.Store?
    requires f == LaneEffect(fpu, j, ApplyLane(e, a), mem) && !f.Trap? && !f.Store?
    ensures Run(WarpExec(fpu), [i, j, Halt], 0, Warp([a], mem), 10, 0)
         == Done(Warp([ApplyLane(f, ApplyLane(e, a))], mem), 3)
  {
    var exec, p := WarpExec(fpu), [i, j, Halt];
    var w1, w2 := Warp([ApplyLane(e, a)], mem), Warp([ApplyLane(f, ApplyLane(e, a))], mem);
    OneLane(fpu, i, a, mem, e);
    OneLane(fpu, j, ApplyLane(e, a), mem, f);
    assert Run(exec, p, 2, w2, 8, 2) == Done(w2, 3);
    assert Run(exec, p, 1, w1, 9, 1) == Run(exec, p, 2, w2, 8, 2);
  }

  /** The runs of a three-instruction program and of its schedule, by the effects of the two instructions. */
  lemma RunsDiffer(fpu: Fpu, first: Inst, load: Inst, data: seq<Byte>, e: Effect, f: Effect, early: Effect, r: nat)
    requires Overtakes(first, load) && r < 256
    requires var a, mem := ZeroLane(), Memory(data, []);
             && e == LaneEffect(fpu, first, a, mem) && f == LaneEffect(fpu, load, ApplyLane(e, a), mem)
             && early == LaneEffect(fpu, load, a, mem) && e == LaneEffect(fpu, first, ApplyLane(early, a), mem)
             && !e.Trap? && !e.Store? && !f.Trap? && !early.Trap?
             && ApplyLane(f, ApplyLane(e, a)).regs[r] != ApplyLane(e, ApplyLane(early, a)).regs[r]
    ensures Run(WarpExec(fpu), ScheduledText(Three(first, load), 0), 0, ZeroWarp(data), 10, 0)
         != Run(WarpExec(fpu), Three(first, load), 0, ZeroWarp(data), 10, 0)
  {
    var a, mem := ZeroLane(), Memory(data, []);
    ScheduledThree(first, load);
    RunThree(fpu, first, load, a, e, f, mem);
    RunThree(fpu, load, first, a, early, e, mem);
  }

  /* ---------- a guard ---------- */

  /** `CMPP.eq P1, R2, R3` */
  const Comparison := Inst(CMPP, U32, 1, 2, 3, 0, 0, None, false, Some(Eq), None, None, 0)

  /** `@P1 LD.gmem.u32 R4, [R5]` */
  const GuardedLoad := Inst(LD, U32, 4, 5, 0, 0, 0, Some(1), false, None, Some(Gmem), None, 0)

  /** The load runs before its guard is computed, so the scheduled program ends in another state. */
  lemma GuardHazardChangesMeaning(fpu: Fpu)
    ensures Run(WarpExec(fpu), ScheduledText(Three(Comparison, GuardedLoad), 0), 0, ZeroWarp([7, 0, 0, 0]), 10, 0)
         != Run(WarpExec(fpu), Three(Comparison, GuardedLoad), 0, ZeroWarp([7, 0, 0, 0]), 10, 0)
  {
    var a, mem := ZeroLane(), Memory([7, 0, 0, 0], []);
    assert LaneEffect(fpu, Comparison, a, mem) == SetPred(1, true);
    assert LaneEffect(fpu, GuardedLoad, ApplyLane(SetPred(1, true), a), mem) == SetReg(4, 7);
    RunsDiffer(fpu, Comparison, GuardedLoad, mem.gmem, SetPred(1, true), SetReg(4, 7), Skip, 4);
  }

  /* ---------- the second half of a pair ---------- */

  /** `LOADI64 R2, 4 << 32` */
  const PairWrite := Inst(LOADI64, B64, 2, 0, 0, 0, 0x4_0000_0000, None, false, None, None, None, 0)

  /** `LD.gmem.u32 R5, [R3]` */
  const PairLoad := Inst(LD, U32, 5, 3, 0, 0, 0, None, false, None, Some(Gmem), None, 0)

  /** The load reads the old second half of the pair, so the scheduled program ends in another state. */
  lemma PairHazardChangesMeaning(fpu: Fpu)
    ensures Run(WarpExec(fpu), ScheduledText(Three(PairWrite, PairLoad), 0), 0, ZeroWarp([7, 0, 0, 0, 9, 0, 0, 0]), 10, 0)
         != Run(WarpExec(fpu), Three(PairWrite, PairLoad), 0, ZeroWarp([7, 0, 0, 0, 9, 0, 0, 0]), 10, 0)
  {
    var a, mem := ZeroLane(), Memory([7, 0, 0, 0, 9, 0, 0, 0], []);
    assert LaneEffect(fpu, PairWrite, a, mem) == SetPair(2, 0, 4);
    assert LaneEffect(fpu, PairLoad, ApplyLane(SetPair(2, 0, 4), a), mem) == SetReg(5, 9);
    assert LaneEffect(fpu, PairLoad, a, mem) == SetReg(5, 7);
    RunsDiffer(fpu, PairWrite, PairLoad, mem.gmem, SetPair(2, 0, 4), SetReg(5, 9), SetReg(5, 7), 5);
  }
}
