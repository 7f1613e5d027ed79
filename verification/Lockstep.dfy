/**
 A pack of PTX threads that execute a straight piece of a program in lockstep over one memory, and that a warp does
 with the code of the piece what the pack does.
 */
module Lockstep {
  import opened Isa
  import M = Machine
  import opened ScheduleMeaning
  import opened Ptx
  import opened Lowering

  /* ---------- threads in lockstep ---------- */

  /** Threads, and the memory they share; the memories of the states are not looked at. */
  datatype Pack = Pack(states: seq<State>, mem: Memory)

  /** One thread, on a memory of `size` bytes; `None` is an access out of range. */
  function ThreadStep(unit: Unit, i: Instr, s: State, mem: Memory, size: nat): Option<State> {
    var here := s.(mem := mem);
    if OutOfRange(unit, i, here, size) then None else Perform(unit, i, here)
  }

  /** One instruction, thread by thread: each sees the stores of those before it. */
  function PackItem(unit: Unit, i: Instr, states: seq<State>, mem: Memory, size: nat): Option<Pack>
    decreases |states|
  {
    if states == [] then Some(Pack([], mem))
    else
      match ThreadStep(unit, i, states[0], mem, size)
      case None => None
      case Some(first) =>
        match PackItem(unit, i, states[1..], first.mem, size)
        case None => None
        case Some(rest) => Some(Pack([first] + rest.states, rest.mem))
  }

  /** Items `a` to `b`, one after the other. */
  function PackPiece(unit: Unit, p: Program, a: nat, b: nat, states: seq<State>, mem: Memory, size: nat): Option<Pack>
    requires b <= |p|
    decreases b
  {
    if a >= b then Some(Pack(states, mem))
    else
      match PackPiece(unit, p, a, b - 1, states, mem, size)
      case None => None
      case Some(pack) =>
        if p[b - 1].Code? then PackItem(unit, p[b - 1].inst, pack.states, pack.mem, size) else Some(pack)
  }

  predicate PackAligned(unit: Unit, i: Instr, states: seq<State>) {
    forall k | 0 <= k < |states| :: !Misaligned(unit, i, states[k])
  }

  /** No access of the piece is misaligned. */
  predicate PieceAligned(unit: Unit, p: Program, a: nat, b: nat, states: seq<State>, mem: Memory, size: nat)
    requires b <= |p|
  {
    forall k | a <= k < b && p[k].Code? && PackPiece(unit, p, a, k, states, mem, size).Some? ::
      PackAligned(unit, p[k].inst, PackPiece(unit, p, a, k, states, mem, size).value.states)
  }

  /** The warp holds what the threads and their memory hold. */
  ghost predicate PackCarries(names: set<Reg>, t: Homes, states: seq<State>, mem: Memory, w: M.Warp) {
    && |states| == |w.lanes| && (forall k | 0 <= k < |states| :: Carries(names, t, states[k].regs, w.lanes[k]))
    && MemAgrees(mem, w.mem)
  }

  predicate PackReady(unit: Unit, i: Instr, t: Homes, states: seq<State>, lanes: seq<M.Lane>)
    requires Lowerable(i)
  {
    |states| == |lanes| && forall k | 0 <= k < |states| :: Ready(unit, i, t, states[k], lanes[k])
  }

  /** The warp has ended as the pack has, with as much memory as before. */
  ghost predicate PackEnds(names: set<Reg>, t: Homes, pack: Pack, after: M.Warp, mem: M.Memory) {
    && PackCarries(names, t, pack.states, pack.mem, after)
    && |after.mem.gmem| == |mem.gmem| && after.mem.pmem == mem.pmem
  }

  /** Either both end, alike, or the pack leaves its memory and the warp traps; a warp can also overflow. */
  ghost predicate EndAlike(names: set<Reg>, t: Homes, done: Option<Pack>, after: Option<M.Warp>, overflows: bool,
                           mem: M.Memory)
  {
    && (after.Some? ==> done.Some? && PackEnds(names, t, done.value, after.value, mem))
    && (done.Some? && !overflows ==> after.Some?)
  }

  /* ---------- one instruction ---------- */

  lemma FirstThread(fpu: M.Fpu, unit: Unit, i: Instr, t: Homes, names: set<Reg>, s: State, mem: Memory, lane: M.Lane,
                    m: M.Memory)
    requires Lowerable(i) && Implements(fpu, unit, t) && Placed(names, t) && AllRegs(i.operands) <= names
    requires Carries(names, t, s.regs, lane) && MemAgrees(mem, m) && Ready(unit, i, t, s, lane)
    requires !Misaligned(unit, i, s)
    ensures
      var e, d := M.LaneEffect(fpu, WithGuard(FinalInst(i, t), i), lane, m), ThreadStep(unit, i, s, mem, |m.gmem|);
      && (!e.Trap? ==> d.Some? && Holds(names, t, d.value, M.ApplyLane(e, lane), M.ApplyMem(e, m))
                       && |M.ApplyMem(e, m).gmem| == |m.gmem| && M.ApplyMem(e, m).pmem == m.pmem)
      && (d.Some? && !Overflowing(fpu, i) ==> !e.Trap?)
  {
    hide Carries, Placed, Implements, MemAgrees, FinalInst, Perform, Overflowing, M.Execute;
    FinalSimulates(fpu, unit, i, t, names, s.(mem := mem), lane, m);
  }

  lemma {:induction false} FinalPack(fpu: M.Fpu, unit: Unit, i: Instr, t: Homes, names: set<Reg>, states: seq<State>,
                                     mem: Memory, w: M.Warp)
    requires Lowerable(i) && Implements(fpu, unit, t) && Placed(names, t) && AllRegs(i.operands) <= names
    requires PackCarries(names, t, states, mem, w) && PackReady(unit, i, t, states, w.lanes)
    requires PackAligned(unit, i, states)
    ensures EndAlike(names, t, PackItem(unit, i, states, mem, |w.mem.gmem|),
                     M.WarpStep(fpu, WithGuard(FinalInst(i, t), i), w), Overflowing(fpu, i), w.mem)
    decreases |states|
  {
    hide Carries, Placed, Implements, MemAgrees, FinalInst, Perform, Overflowing, M.Execute, Ready, Misaligned,
         ThreadStep, M.LaneEffect, M.ApplyLane;
    if states != [] {
      var inst, size := WithGuard(FinalInst(i, t), i), |w.mem.gmem|;
      var e, d := M.LaneEffect(fpu, inst, w.lanes[0], w.mem), ThreadStep(unit, i, states[0], mem, size);
      FirstThread(fpu, unit, i, t, names, states[0], mem, w.lanes[0], w.mem);
      if !e.Trap? {
        var rest := M.Warp(w.lanes[1..], M.ApplyMem(e, w.mem));
        FinalPack(fpu, unit, i, t, names, states[1..], d.value.mem, rest);
      }
    }
  }

  /* ---------- the code before it ---------- */

  predicate StoresNothing(code: seq<Inst>) { forall k | 0 <= k < |code| :: !code[k].opcode.ST? }

  /** Lane `k` of the warp has become what `code` makes of it on its own. */
  ghost predicate LanesRan(fpu: M.Fpu, code: seq<Inst>, w: M.Warp, after: Option<M.Warp>) {
    && after.Some? && after.value.mem == w.mem && |after.value.lanes| == |w.lanes|
    && forall k | 0 <= k < |w.lanes| ::
         LaneRun(fpu, code, w.lanes[k], w.mem) == Some(Single(after.value.lanes[k], w.mem))
  }

  ghost predicate AllRun(fpu: M.Fpu, code: seq<Inst>, w: M.Warp) {
    forall k | 0 <= k < |w.lanes| :: LaneRun(fpu, code, w.lanes[k], w.mem).Some?
  }

  lemma RunsOne(fpu: M.Fpu, i: Inst, lane: M.Lane, mem: M.Memory)
    requires !i.opcode.ST?
    ensures LaneRun(fpu, [i], lane, mem) ==
            var e := M.LaneEffect(fpu, i, lane, mem); if e.Trap? then None else Some(Single(M.ApplyLane(e, lane), mem))
    ensures M.ApplyMem(M.LaneEffect(fpu, i, lane, mem), mem) == mem
  {
    LaneRunOne(fpu, i, lane, mem);
  }

  lemma {:induction false} StepSideBySide(fpu: M.Fpu, i: Inst, w: M.Warp)
    requires !i.opcode.ST? && AllRun(fpu, [i], w)
    ensures LanesRan(fpu, [i], w, M.WarpStep(fpu, i, w))
    decreases |w.lanes|
  {
    hide LaneRun, M.LaneEffect;
    if w.lanes != [] {
      var lane, rest := w.lanes[0], M.Warp(w.lanes[1..], w.mem);
      RunsOne(fpu, i, lane, w.mem);
      forall k | 0 <= k < |rest.lanes|
        ensures LaneRun(fpu, [i], rest.lanes[k], w.mem).Some?
      {
        assert rest.lanes[k] == w.lanes[k + 1];
      }
      StepSideBySide(fpu, i, rest);
      var after := M.WarpStep(fpu, i, w).value;
      forall k | 0 <= k < |w.lanes|
        ensures LaneRun(fpu, [i], w.lanes[k], w.mem) == Some(Single(after.lanes[k], w.mem))
      {
        assert k > 0 ==> w.lanes[k] == rest.lanes[k - 1];
      }
    }
  }

  lemma LaneRunSplit(fpu: M.Fpu, code: seq<Inst>, lane: M.Lane, mem: M.Memory)
    requires code != []
    ensures LaneRun(fpu, code, lane, mem) ==
            match LaneRun(fpu, [code[0]], lane, mem)
            case None => None
            case Some(next) => LaneRun(fpu, code[1..], next.lane, next.mem)
  {
    assert code == [code[0]] + code[1..];
    LaneRunAppend(fpu, [code[0]], code[1..], lane, mem);
  }

  /** Code that stores nothing runs in each lane as if the lane were alone. */
  lemma {:induction false} CodeSideBySide(fpu: M.Fpu, code: seq<Inst>, w: M.Warp)
    requires StoresNothing(code) && AllRun(fpu, code, w)
    ensures LanesRan(fpu, code, w, ExecSeq(M.WarpExec(fpu), code, Some(w)))
    decreases |code|
  {
    hide LaneRun, M.WarpStep;
    if code == [] {
      forall k | 0 <= k < |w.lanes|
        ensures LaneRun(fpu, code, w.lanes[k], w.mem) == Some(Single(w.lanes[k], w.mem))
      {
        NothingRuns(fpu, w.lanes[k], w.mem);
      }
    } else {
      forall k | 0 <= k < |w.lanes|
        ensures LaneRun(fpu, [code[0]], w.lanes[k], w.mem).Some?
      {
        LaneRunSplit(fpu, code, w.lanes[k], w.mem);
      }
      StepSideBySide(fpu, code[0], w);
      var next := M.WarpStep(fpu, code[0], w).value;
      forall k | 0 <= k < |w.lanes|
        ensures LaneRun(fpu, code, w.lanes[k], w.mem) == LaneRun(fpu, code[1..], next.lanes[k], w.mem)
      {
        LaneRunSplit(fpu, code, w.lanes[k], w.mem);
      }
      CodeSideBySide(fpu, code[1..], next);
    }
  }

  lemma {:induction false} SilentStep(fpu: M.Fpu, i: Inst, w: M.Warp)
    requires !i.opcode.ST? && M.WarpStep(fpu, i, w).Some?
    ensures M.WarpStep(fpu, i, w).value.mem == w.mem
    decreases |w.lanes|
  {
    hide M.Execute;
    if w.lanes != [] {
      SilentStep(fpu, i, M.Warp(w.lanes[1..], M.ApplyMem(M.LaneEffect(fpu, i, w.lanes[0], w.mem), w.mem)));
    }
  }

  /** Code that stores nothing leaves every byte of memory as it is. */
  lemma {:induction false} SilentCode(fpu: M.Fpu, code: seq<Inst>, w: M.Warp)
    requires StoresNothing(code) && ExecSeq(M.WarpExec(fpu), code, Some(w)).Some?
    ensures ExecSeq(M.WarpExec(fpu), code, Some(w)).value.mem == w.mem
    decreases |code|
  {
    hide M.WarpStep;
    if code != [] {
      var next := M.WarpStep(fpu, code[0], w);
      if next.None? {
        ErrorStays(M.WarpExec(fpu), code[1..]);
        assert false;
      }
      SilentStep(fpu, code[0], w);
      SilentCode(fpu, code[1..], next.value);
    }
  }

  lemma {:induction false} SourcesStoreNothing(ops: seq<Operand>, t: Homes, temp: nat)
    ensures StoresNothing(LowerSources(ops, t, temp).code)
    decreases |ops|
  {
    if ops != [] {
      SourcesStoreNothing(ops[1..], t, if ops[0].RegOp? then temp else temp + 1);
    }
  }

  /** The code before the last instruction makes every lane ready. */
  lemma SourcesPack(fpu: M.Fpu, unit: Unit, i: Instr, t: Homes, names: set<Reg>, states: seq<State>, mem: Memory,
                    w: M.Warp)
    requires Lowerable(i) && Placed(names, t) && AllRegs(i.operands) <= names && PackCarries(names, t, states, mem, w)
    ensures
      var ready := ExecSeq(M.WarpExec(fpu), SourcesOf(i, t).code, Some(w));
      && ready.Some? && ready.value.mem == w.mem
      && PackCarries(names, t, states, mem, ready.value) && PackReady(unit, i, t, states, ready.value.lanes)
  {
    hide Carries, Placed, MemAgrees, Ready, LaneRun, ExecSeq;
    var code := SourcesOf(i, t).code;
    SourcesStoreNothing(i.operands[1..], t, FirstTemp);
    forall k | 0 <= k < |w.lanes|
      ensures
        var ready := LaneRun(fpu, code, w.lanes[k], w.mem);
        && ready.Some? && Carries(names, t, states[k].regs, ready.value.lane)
        && Ready(unit, i, t, states[k], ready.value.lane)
    {
      SourcesReady(fpu, unit, i, t, names, states[k], w.lanes[k], w.mem);
    }
    CodeSideBySide(fpu, code, w);
  }

  /** A warp does with the code of an instruction what the pack does. */
  lemma ItemPack(fpu: M.Fpu, unit: Unit, i: Instr, t: Homes, names: set<Reg>, states: seq<State>, mem: Memory,
                 w: M.Warp)
    requires Lowerable(i) && Implements(fpu, unit, t) && Placed(names, t) && AllRegs(i.operands) <= names
    requires PackCarries(names, t, states, mem, w) && PackAligned(unit, i, states)
    ensures EndAlike(names, t, PackItem(unit, i, states, mem, |w.mem.gmem|),
                     ExecSeq(M.WarpExec(fpu), LowerInstr(i, t), Some(w)), Overflowing(fpu, i), w.mem)
  {
    hide Carries, Placed, Implements, MemAgrees, Ready, PackAligned, PackItem, EndAlike, Overflowing, FinalInst,
         M.WarpStep, PackReady, PackCarries;
    var exec, code, last := M.WarpExec(fpu), SourcesOf(i, t).code, WithGuard(FinalInst(i, t), i);
    SourcesPack(fpu, unit, i, t, names, states, mem, w);
    var ready := ExecSeq(exec, code, Some(w)).value;
    FinalPack(fpu, unit, i, t, names, states, mem, ready);
    ExecAppend(exec, code, [last], Some(w));
    assert ExecSeq(exec, [last], Some(ready)) == M.WarpStep(fpu, last, ready);
  }

  /* ---------- a straight piece ---------- */

  ghost predicate PieceEndsAlike(fpu: M.Fpu, unit: Unit, p: Program, t: Homes, a: nat, b: nat, names: set<Reg>,
                                 states: seq<State>, mem: Memory, w: M.Warp)
    requires StraightPiece(p, a, b, names)
  {
    EndAlike(names, t, PackPiece(unit, p, a, b, states, mem, |w.mem.gmem|),
             ExecSeq(M.WarpExec(fpu), LowerPiece(p, t, a, b), Some(w)), PieceOverflows(fpu, p, a, b), w.mem)
  }

  lemma PackNext(fpu: M.Fpu, unit: Unit, p: Program, t: Homes, a: nat, b: nat, names: set<Reg>, states: seq<State>,
                 mem: Memory, w: M.Warp)
    requires a < b && StraightPiece(p, a, b, names) && Implements(fpu, unit, t) && Placed(names, t)
    requires PieceEndsAlike(fpu, unit, p, t, a, b - 1, names, states, mem, w)
    requires PieceAligned(unit, p, a, b, states, mem, |w.mem.gmem|)
    ensures PieceEndsAlike(fpu, unit, p, t, a, b, names, states, mem, w)
  {
    hide Placed, Implements, PackCarries, PackAligned, PackItem, PieceOverflows, Overflowing, LowerInstr, ExecSeq;
    var exec, size := M.WarpExec(fpu), |w.mem.gmem|;
    var before, pack := ExecSeq(exec, LowerPiece(p, t, a, b - 1), Some(w)), PackPiece(unit, p, a, b - 1, states, mem, size);
    OverflowNext(fpu, p, a, b);
    if p[b - 1].Code? {
      var i := p[b - 1].inst;
      ExecAppend(exec, LowerPiece(p, t, a, b - 1), LowerInstr(i, t), Some(w));
      if before.Some? {
        ItemPack(fpu, unit, i, t, names, pack.value.states, pack.value.mem, before.value);
      } else {
        ErrorStays(exec, LowerInstr(i, t));
      }
    } else {
      assert LowerPiece(p, t, a, b) == LowerPiece(p, t, a, b - 1);
    }
  }

  /**
   A warp does with the code of a piece what the threads do in lockstep, stores and loads of one another included; it
   traps when an access is out of range, and else only on an overflow.
   */
  lemma {:induction false} PackSimulates(fpu: M.Fpu, unit: Unit, p: Program, t: Homes, a: nat, b: nat,
                                         names: set<Reg>, states: seq<State>, mem: Memory, w: M.Warp)
    requires a <= b && StraightPiece(p, a, b, names) && Implements(fpu, unit, t) && Placed(names, t)
    requires PackCarries(names, t, states, mem, w) && PieceAligned(unit, p, a, b, states, mem, |w.mem.gmem|)
    ensures PieceEndsAlike(fpu, unit, p, t, a, b, names, states, mem, w)
    decreases b
  {
    hide Placed, Implements, PackCarries, PackAligned, Overflowing, LowerInstr, PackItem;
    if a == b {
      assert ExecSeq(M.WarpExec(fpu), [], Some(w)) == Some(w);
    } else {
      PackSimulates(fpu, unit, p, t, a, b - 1, names, states, mem, w);
      PackNext(fpu, unit, p, t, a, b, names, states, mem, w);
    }
  }

  /* ---------- without stores, each thread is on its own ---------- */

  predicate StoreFree(p: Program, a: nat, b: nat)
    requires b <= |p|
  {
    forall k | a <= k < b && p[k].Code? :: !p[k].inst.base.St?
  }

  lemma InstrStoresNothing(i: Instr, t: Homes)
    requires Lowerable(i) && !i.base.St?
    ensures StoresNothing(LowerInstr(i, t))
  {
    hide LowerSources;
    SourcesStoreNothing(i.operands[1..], t, FirstTemp);
    assert !FinalInst(i, t).opcode.ST?;
  }

  lemma {:induction false} PieceStoresNothing(p: Program, t: Homes, a: nat, b: nat, names: set<Reg>)
    requires StraightPiece(p, a, b, names) && StoreFree(p, a, b)
    ensures StoresNothing(LowerPiece(p, t, a, b))
    decreases b
  {
    hide LowerInstr, Lowerable;
    if a < b {
      PieceStoresNothing(p, t, a, b - 1, names);
      if p[b - 1].Code? {
        InstrStoresNothing(p[b - 1].inst, t);
      }
    }
  }

  lemma PerformKeepsMemory(unit: Unit, i: Instr, s: State)
    requires !i.base.St? && Perform(unit, i, s).Some?
    ensures Perform(unit, i, s).value.mem == s.mem
  {
  }

  predicate SameMemory(states: seq<State>, mem: Memory) { forall k | 0 <= k < |states| :: states[k].mem == mem }

  lemma {:induction false} AloneItem(unit: Unit, i: Instr, states: seq<State>, mem: Memory, size: nat)
    requires !i.base.St? && SameMemory(states, mem) && PackItem(unit, i, states, mem, size).Some?
    ensures
      var pack := PackItem(unit, i, states, mem, size).value;
      && pack.mem == mem && |pack.states| == |states| && SameMemory(pack.states, mem)
      && forall k | 0 <= k < |states| :: Perform(unit, i, states[k]) == Some(pack.states[k])
    decreases |states|
  {
    hide Perform, OutOfRange;
    if states != [] {
      assert states[0].(mem := mem) == states[0];
      PerformKeepsMemory(unit, i, states[0]);
      AloneItem(unit, i, states[1..], mem, size);
    }
  }

  /** Without stores the pack leaves each thread where its own execution of the piece leaves it. */
  lemma {:induction false} AlonePiece(unit: Unit, p: Program, a: nat, b: nat, states: seq<State>, mem: Memory, size: nat)
    requires b <= |p| && StoreFree(p, a, b) && SameMemory(states, mem)
    requires PackPiece(unit, p, a, b, states, mem, size).Some?
    ensures
      var pack := PackPiece(unit, p, a, b, states, mem, size).value;
      && pack.mem == mem && |pack.states| == |states| && SameMemory(pack.states, mem)
      && forall k | 0 <= k < |states| :: PerformPiece(unit, p, a, b, states[k]) == Some(pack.states[k])
    decreases b
  {
    hide Perform, PackItem;
    if a < b {
      AlonePiece(unit, p, a, b - 1, states, mem, size);
      var pack := PackPiece(unit, p, a, b - 1, states, mem, size).value;
      if p[b - 1].Code? {
        AloneItem(unit, p[b - 1].inst, pack.states, mem, size);
      }
    }
  }

  /* ---------- without accesses, nothing is out of range ---------- */

  predicate AccessFree(p: Program, a: nat, b: nat)
    requires b <= |p|
  {
    forall k | a <= k < b && p[k].Code? :: Computes(p[k].inst)
  }

  lemma {:induction false} ComputeItem(unit: Unit, i: Instr, states: seq<State>, mem: Memory, size: nat)
    requires Computes(i)
    ensures PackItem(unit, i, states, mem, size).Some?
    decreases |states|
  {
    if states != [] {
      PerformTotal(unit, i, states[0].(mem := mem));
      ComputeItem(unit, i, states[1..], ThreadStep(unit, i, states[0], mem, size).value.mem, size);
    }
  }

  lemma {:induction false} ComputePiece(unit: Unit, p: Program, a: nat, b: nat, states: seq<State>, mem: Memory,
                                        size: nat)
    requires b <= |p| && AccessFree(p, a, b)
    ensures PackPiece(unit, p, a, b, states, mem, size).Some?
    decreases b
  {
    hide PackItem;
    if a < b {
      ComputePiece(unit, p, a, b - 1, states, mem, size);
      if p[b - 1].Code? {
        var pack := PackPiece(unit, p, a, b - 1, states, mem, size).value;
        ComputeItem(unit, p[b - 1].inst, pack.states, pack.mem, size);
      }
    }
  }
}
