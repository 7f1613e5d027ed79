/**
 Two instructions without a conflict can be executed in either order. Conflicts are those of the
 machine itself (both halves of a register pair, guard predicates, memory), not those the scheduler
 tracks.
 */
module Commute {
  import opened Isa
  import opened Machine

  predicate IsPair(i: Inst) {
    i.opcode.LOADI64? || (i.opcode.CPY? && (i.dtype.B64? || i.dtype.F64?)) || (i.opcode.LD? && i.dtype.B64?)
  }

  function Gprs(s: set<nat>): set<nat> { set r | r in s && r < 256 }

  function RegsRead(i: Inst): set<nat> {
    if i.opcode.CPY? then Gprs(if IsPair(i) then {i.src1, i.src1 + 1} else {i.src1})
    else if i.opcode.LD? then Gprs({i.src1})
    else if i.opcode.ST? || i.opcode.CMPP? || i.opcode.Binary? then Gprs({i.src1, i.src2})
    else if i.opcode.Ternary? then Gprs({i.src1, i.src2, i.src3})
    else {}
  }

  function RegsWritten(i: Inst): set<nat> {
    if IsPair(i) then Gprs({i.dest, i.dest + 1})
    else if i.opcode.LOADI? || i.opcode.CPY? || i.opcode.LD? || i.opcode.Binary? || i.opcode.Ternary?
    then Gprs({i.dest})
    else {}
  }

  function PredsRead(i: Inst): set<nat> {
    if i.guard.Some? then {i.guard.value} else {}
  }

  function PredsWritten(i: Inst): set<nat> {
    if i.opcode.CMPP? then {i.dest} else {}
  }

  predicate MemoryConflict(i: Inst, j: Inst) {
    (i.opcode.ST? && (j.opcode.ST? || j.opcode.LD?)) || (i.opcode.LD? && j.opcode.ST?)
  }

  predicate Conflict(i: Inst, j: Inst) {
    || !(RegsWritten(i) !! RegsRead(j) + RegsWritten(j))
    || !(RegsRead(i) !! RegsWritten(j))
    || !(PredsWritten(i) !! PredsRead(j) + PredsWritten(j))
    || !(PredsRead(i) !! PredsWritten(j))
    || MemoryConflict(i, j)
  }

  lemma ConflictSymmetric(i: Inst, j: Inst)
    ensures Conflict(i, j) == Conflict(j, i)
  {
  }

  /* ---------- footprints ---------- */

  /** The two lanes look the same to `i`. */
  predicate Agree(i: Inst, a: Lane, b: Lane) {
    && a.special == b.special
    && (forall r | r in RegsRead(i) :: a.regs[r] == b.regs[r])
    && (forall p | p in PredsRead(i) && p < 8 :: a.preds[p] == b.preds[p])
  }

  lemma EffectDependsOnReads(fpu: Fpu, i: Inst, a: Lane, b: Lane, mem: Memory)
    requires Agree(i, a, b)
    ensures LaneEffect(fpu, i, a, mem) == LaneEffect(fpu, i, b, mem)
  {
  }

  lemma EffectIgnoresMemory(fpu: Fpu, i: Inst, a: Lane, m: Memory, n: Memory)
    requires !i.opcode.ST? && !i.opcode.LD?
    ensures LaneEffect(fpu, i, a, m) == LaneEffect(fpu, i, a, n)
  {
  }

  predicate Within(e: Effect, i: Inst) {
    match e
    case SetReg(r, _) => r in RegsWritten(i)
    case SetPair(r, _, _) => r in RegsWritten(i) && r + 1 in RegsWritten(i)
    case SetPred(p, _) => p in PredsWritten(i)
    case _ => true
  }

  lemma EffectWithinWrites(fpu: Fpu, i: Inst, a: Lane, mem: Memory)
    ensures Within(LaneEffect(fpu, i, a, mem), i)
  {
  }

  /* ---------- one lane ---------- */

  lemma FrameLane(i: Inst, j: Inst, e: Effect, a: Lane)
    requires !Conflict(i, j) && e.Valid() && Within(e, j)
    ensures Agree(i, ApplyLane(e, a), a)
  {
    forall r | r in RegsRead(i)
      ensures ApplyLane(e, a).regs[r] == a.regs[r]
    {
    }
    forall p | p in PredsRead(i) && p < 8
      ensures ApplyLane(e, a).preds[p] == a.preds[p]
    {
    }
  }

  lemma ApplyCommutes(i: Inst, j: Inst, e: Effect, f: Effect, a: Lane)
    requires !Conflict(i, j) && e.Valid() && f.Valid() && Within(e, i) && Within(f, j)
    ensures ApplyLane(f, ApplyLane(e, a)) == ApplyLane(e, ApplyLane(f, a))
  {
    assert forall r | r in RegsWritten(i) :: r !in RegsWritten(j);
    assert forall p | p in PredsWritten(i) :: p !in PredsWritten(j);
    var x, y := ApplyLane(f, ApplyLane(e, a)), ApplyLane(e, ApplyLane(f, a));
    assert x.regs == y.regs;
    assert x.preds == y.preds;
  }

  /* ---------- one warp ---------- */

  function Then(exec: Exec, i: Inst, w: Option<Warp>): Option<Warp> {
    if w.None? then None else exec(i, w.value)
  }

  /** On this machine unconflicting instructions commute, exceptions included. */
  ghost predicate Commuting(exec: Exec) {
    forall i: Inst, j: Inst, w: Warp {:trigger Then(exec, j, exec(i, w))} | !Conflict(i, j) ::
      Then(exec, j, exec(i, w)) == Then(exec, i, exec(j, w))
  }

  lemma {:induction false} StepKeepsMemory(fpu: Fpu, i: Inst, w: Warp)
    requires !i.opcode.ST?
    ensures WarpStep(fpu, i, w).Some? ==> WarpStep(fpu, i, w).value.mem == w.mem
    decreases |w.lanes|
  {
    if w.lanes != [] {
      StepKeepsMemory(fpu, i, Warp(w.lanes[1..], w.mem));
    }
  }

  lemma {:induction false} StepIgnoresMemory(fpu: Fpu, i: Inst, lanes: seq<Lane>, m: Memory, n: Memory)
    requires !i.opcode.ST? && !i.opcode.LD?
    ensures WarpStep(fpu, i, Warp(lanes, m)).Some? == WarpStep(fpu, i, Warp(lanes, n)).Some?
    ensures WarpStep(fpu, i, Warp(lanes, m)).Some? ==>
              WarpStep(fpu, i, Warp(lanes, m)).value.lanes == WarpStep(fpu, i, Warp(lanes, n)).value.lanes
    decreases |lanes|
  {
    if lanes != [] {
      EffectIgnoresMemory(fpu, i, lanes[0], m, n);
      StepIgnoresMemory(fpu, i, lanes[1..], m, n);
    }
  }

  /** Unconflicting instructions commute on a whole warp, exceptions included. */
  lemma {:induction false} StepsCommute(fpu: Fpu, i: Inst, j: Inst, w: Warp)
    requires !Conflict(i, j)
    ensures Then(WarpExec(fpu), j, WarpStep(fpu, i, w)) == Then(WarpExec(fpu), i, WarpStep(fpu, j, w))
  {
    if j.opcode.ST? {
      ConflictSymmetric(i, j);
      StepsCommuteOrdered(fpu, j, i, w);
    } else {
      StepsCommuteOrdered(fpu, i, j, w);
    }
  }

  lemma WarpCommutes(fpu: Fpu)
    ensures Commuting(WarpExec(fpu))
  {
    forall i: Inst, j: Inst, w: Warp | !Conflict(i, j)
      ensures Then(WarpExec(fpu), j, WarpExec(fpu)(i, w)) == Then(WarpExec(fpu), i, WarpExec(fpu)(j, w))
    {
      StepsCommute(fpu, i, j, w);
    }
  }

  lemma {:induction false} StepsCommuteOrdered(fpu: Fpu, i: Inst, j: Inst, w: Warp)
    requires !Conflict(i, j) && !j.opcode.ST?
    ensures Then(WarpExec(fpu), j, WarpStep(fpu, i, w)) == Then(WarpExec(fpu), i, WarpStep(fpu, j, w))
    decreases |w.lanes|
  {
    if w.lanes != [] {
      var a, rest, mem := w.lanes[0], w.lanes[1..], w.mem;
      var e, f := LaneEffect(fpu, i, a, mem), LaneEffect(fpu, j, a, mem);
      var after := ApplyMem(e, mem);
      EffectWithinWrites(fpu, i, a, mem);
      EffectWithinWrites(fpu, j, a, mem);
      FrameLane(i, j, f, a);
      EffectDependsOnReads(fpu, i, ApplyLane(f, a), a, mem);
      ConflictSymmetric(i, j);
      FrameLane(j, i, e, a);
      EffectDependsOnReads(fpu, j, ApplyLane(e, a), a, mem);
      ApplyCommutes(i, j, e, f, a);
      StepsCommuteOrdered(fpu, i, j, Warp(rest, after));
      StepKeepsMemory(fpu, j, Warp(rest, mem));
      StepKeepsMemory(fpu, j, Warp(rest, after));
      if !i.opcode.ST? {
        StepKeepsMemory(fpu, i, Warp(rest, mem));
      } else {
        StepIgnoresMemory(fpu, j, rest, mem, after);
      }
      var s1 := WarpStep(fpu, i, Warp(rest, after));
      if s1.Some? {
        EffectAfter(fpu, i, j, ApplyLane(e, a), mem, s1.value.mem);
        StepCons(fpu, j, ApplyLane(e, a), s1.value);
      }
      var s2 := WarpStep(fpu, j, Warp(rest, mem));
      if s2.Some? {
        StepCons(fpu, i, ApplyLane(f, a), s2.value);
      }
    }
  }

  lemma StepCons(fpu: Fpu, i: Inst, a: Lane, tail: Warp)
    ensures
      var e := LaneEffect(fpu, i, a, tail.mem);
      WarpStep(fpu, i, Warp([a] + tail.lanes, tail.mem)) ==
      if e.Trap? then None
      else
        match WarpStep(fpu, i, Warp(tail.lanes, ApplyMem(e, tail.mem)))
        case None => None
        case Some(rest) => Some(Warp([ApplyLane(e, a)] + rest.lanes, rest.mem))
  {
    assert ([a] + tail.lanes)[1..] == tail.lanes;
  }

  lemma EffectAfter(fpu: Fpu, i: Inst, j: Inst, a: Lane, m: Memory, n: Memory)
    requires !Conflict(i, j) && !j.opcode.ST? && (!i.opcode.ST? ==> m == n)
    ensures LaneEffect(fpu, j, a, m) == LaneEffect(fpu, j, a, n)
  {
    if i.opcode.ST? {
      EffectIgnoresMemory(fpu, j, a, m, n);
    }
  }
}
