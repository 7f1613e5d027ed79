/** The branch trace of a warp: what the simulator records for every BRX, and that scheduling keeps it. */
module BranchTraces {
  import opened Isa
  import opened Machine
  import opened Commute
  import opened ScheduleMeaning
  import opened ScheduleProgram

  /** Which warp it is: its block, and its first thread in the block. */
  datatype Site = Site(block: nat, start: nat)

  datatype BranchTrace = BranchTrace(
    pc: int,
    target: int,
    predicate_: nat,
    site: Site,
    decisions: seq<bool>,
    uniform: bool,
    taken: bool)

  function Decisions(inst: Inst, lanes: seq<Lane>): (d: seq<bool>)
    requires inst.guard.Some? && inst.guard.value < 8
    ensures |d| == |lanes| && forall k | 0 <= k < |d| :: d[k] == Decision(inst, lanes[k])
  {
    seq(|lanes|, k requires 0 <= k < |lanes| => Decision(inst, lanes[k]))
  }

  predicate All(d: seq<bool>, b: bool) { forall k | 0 <= k < |d| :: d[k] == b }

  /** What a BRX records; a predicate that does not exist raises an exception before. */
  function Recorded(inst: Inst, pc: int, lanes: seq<Lane>, site: Site): seq<BranchTrace> {
    if inst.guard.None? || inst.guard.value >= 8 || lanes == [] then []
    else
      var d := Decisions(inst, lanes);
      [BranchTrace(pc, inst.imm, inst.guard.value, site, d, All(d, true) || All(d, false), All(d, true))]
  }

  function StepTrace(inst: Inst, pc: int, w: Warp, site: Site): seq<BranchTrace> {
    if inst.opcode == Control(BRX) then Recorded(inst, pc, w.lanes, site) else []
  }

  /** All that a run records, whether it halts or fails. */
  function Traced(exec: Exec, p: seq<Inst>, pc: int, w: Warp, left: nat, site: Site): seq<BranchTrace>
    decreases left, 1
  {
    if left == 0 || !(0 <= pc < |p|) then []
    else StepTrace(p[pc], pc, w, site) + TracedAfter(exec, p, Step(exec, p, pc, w), left - 1, site)
  }

  function TracedAfter(exec: Exec, p: seq<Inst>, o: Outcome, left: nat, site: Site): seq<BranchTrace>
    decreases left, 2
  {
    if o.Running? then Traced(exec, p, o.pc, o.warp, left, site) else []
  }

  /* ---------- divergence ---------- */

  /** How many of the branches diverged. */
  function Diverged(trace: seq<BranchTrace>): nat {
    if trace == [] then 0 else Diverged(trace[..|trace| - 1]) + (if trace[|trace| - 1].uniform then 0 else 1)
  }

  lemma {:induction false} DivergedAppend(a: seq<BranchTrace>, b: seq<BranchTrace>)
    ensures Diverged(a + b) == Diverged(a) + Diverged(b)
  {
    if b == [] {
      assert a + b == a;
    } else {
      assert (a + b)[..|a + b| - 1] == a + b[..|b| - 1];
      DivergedAppend(a, b[..|b| - 1]);
    }
  }

  /** A BRX fails on a divergent warp, and records that. */
  lemma BranchDiverges(inst: Inst, pc: int, w: Warp, site: Site)
    ensures Diverged(Recorded(inst, pc, w.lanes, site)) == 1 ==> BranchStep(inst, pc, w).Failed?
    ensures Diverged(Recorded(inst, pc, w.lanes, site)) <= 1
  {
    if inst.guard.Some? && inst.guard.value < 8 && w.lanes != [] {
      var d, t := Decisions(inst, w.lanes), Recorded(inst, pc, w.lanes, site);
      assert t[..0] == [];
      if BranchStep(inst, pc, w).Running? {
        assert All(d, true) || All(d, false);
      }
    }
  }

  /** A warp records at most one divergent branch, and none if it halts. */
  lemma {:induction false} DivergesOnce(exec: Exec, p: seq<Inst>, pc: int, w: Warp, left: nat, executed: nat,
                                        site: Site)
    ensures Diverged(Traced(exec, p, pc, w, left, site)) <= 1
    ensures Run(exec, p, pc, w, left, executed).Done? ==> Diverged(Traced(exec, p, pc, w, left, site)) == 0
    decreases left
  {
    hide Recorded, BranchStep;
    if left > 0 && 0 <= pc < |p| {
      var o := Step(exec, p, pc, w);
      BranchDiverges(p[pc], pc, w, site);
      DivergedAppend(StepTrace(p[pc], pc, w, site), TracedAfter(exec, p, o, left - 1, site));
      if o.Running? {
        DivergesOnce(exec, p, o.pc, o.warp, left - 1, executed + 1, site);
      }
    }
  }

  /* ---------- scheduling keeps the trace ---------- */

  /** A straight-line stretch records nothing. */
  lemma {:induction false} StretchTrace(exec: Exec, p: seq<Inst>, a: nat, b: nat, w: Warp, left: nat, site: Site)
    requires a <= b <= |p| && forall k | a <= k < b :: !IsControl(p[k])
    ensures
      Traced(exec, p, a, w, left, site) ==
      if left < b - a then []
      else
        match ExecSeq(exec, p[a..b], Some(w))
        case None => []
        case Some(w') => Traced(exec, p, b, w', left - (b - a), site)
    decreases b - a
  {
    if a < b {
      assert p[a..b][0] == p[a] && p[a..b][1..] == p[a + 1..b];
      var next := exec(p[a], w);
      if left > 0 {
        if next.Some? {
          StretchTrace(exec, p, a + 1, b, next.value, left - 1, site);
        } else {
          ErrorStays(exec, p[a + 1..b]);
        }
      }
    } else {
      assert p[a..b] == [];
    }
  }

  /** What a run records from the end of a block's body on, `w` being the warp there. */
  function EndTrace(exec: Exec, p: seq<Inst>, last: Option<Inst>, t: nat, w: Option<Warp>, left: int,
                    site: Site): seq<BranchTrace>
    requires last.Some? ==> IsControl(last.value)
  {
    if w.None? || left < 0 then []
    else if last.None? then Traced(exec, p, t, w.value, left, site)
    else if left == 0 then []
    else StepTrace(last.value, t, w.value, site)
         + TracedAfter(exec, p, ControlStep(last.value, t, w.value), left - 1, site)
  }

  function LastOf(p: seq<Inst>, s: nat): Option<Inst>
    requires s < |p|
  {
    var b := Block(p, s);
    if BodyLength(b) < |b| then Some(b[BodyLength(b)]) else None
  }

  function BodyOutcome(exec: Exec, p: seq<Inst>, s: nat, w: Warp): Option<Warp>
    requires s < |p|
  {
    ExecSeq(exec, Block(p, s)[..BodyLength(Block(p, s))], Some(w))
  }

  lemma BodyTrace(exec: Exec, p: seq<Inst>, s: nat, t: nat, last: Option<Inst>, w: Warp, left: nat, site: Site)
    requires s <= t <= |p| && forall k | s <= k < t :: !IsControl(p[k])
    requires last.Some? ==> t < |p| && p[t] == last.value && IsControl(last.value)
    ensures Traced(exec, p, s, w, left, site)
         == EndTrace(exec, p, last, t, ExecSeq(exec, p[s..t], Some(w)), left - (t - s), site)
  {
    StretchTrace(exec, p, s, t, w, left, site);
  }

  lemma BlockTrace(exec: Exec, p: seq<Inst>, s: nat, w: Warp, left: nat, site: Site)
    requires NoCalls(p) && BlockStart(p, s) && s < |p|
    ensures LastOf(p, s).Some? ==> IsControl(LastOf(p, s).value)
    ensures Traced(exec, p, s, w, left, site)
         == EndTrace(exec, p, LastOf(p, s), s + BodyLength(Block(p, s)), BodyOutcome(exec, p, s, w),
                     left - BodyLength(Block(p, s)), site)
  {
    BodyHasNoControl(p, s);
    SliceOfSlice(p, s, BlockEnd(p, s), BodyLength(Block(p, s)));
    BodyTrace(exec, p, s, s + BodyLength(Block(p, s)), LastOf(p, s), w, left, site);
  }

  /** The blocks at `s` have the same body outcome and the same last control instruction. */
  predicate EndsAlike(exec: Exec, p: seq<Inst>, r: seq<Inst>, s: nat, w: Warp)
    requires s < |p| && s < |r|
  {
    && BlockStart(r, s) && BodyLength(Block(r, s)) == BodyLength(Block(p, s))
    && LastOf(r, s) == LastOf(p, s) && BodyOutcome(exec, r, s, w) == BodyOutcome(exec, p, s, w)
  }

  /** What the traces of two programs depend on. */
  ghost predicate Alike(exec: Exec, p: seq<Inst>, r: seq<Inst>) {
    && |r| == |p| && NoCalls(p) && NoCalls(r)
    && forall s: nat, w: Warp {:trigger BodyOutcome(exec, r, s, w)} | s < |p| && BlockStart(p, s) ::
         EndsAlike(exec, p, r, s, w)
  }

  lemma SimilarEndsAlike(exec: Exec, p: seq<Inst>, r: seq<Inst>, s: nat, w: Warp)
    requires Similar(exec, p, r) && BlockStart(p, s) && s < |p|
    ensures EndsAlike(exec, p, r, s, w)
  {
    LeadersFixed(exec, p, r, s);
    BlockEndsFixed(exec, p, r, s);
    assert Block(r, s) == r[s..BlockEnd(p, s)];
    BlocksShaped(p, s);
    BlocksShaped(r, s);
    SameBody(Block(p, s), Block(r, s));
    assert SameEffect(exec, Block(p, s), Block(r, s));
  }

  lemma SimilarAlike(exec: Exec, p: seq<Inst>, r: seq<Inst>)
    requires Similar(exec, p, r)
    ensures Alike(exec, p, r)
  {
    forall s: nat, w: Warp | s < |p| && BlockStart(p, s)
      ensures EndsAlike(exec, p, r, s, w)
    {
      SimilarEndsAlike(exec, p, r, s, w);
    }
  }

  /** Where a run can be after the block at `s`. */
  lemma EndsAtLeader(exec: Exec, p: seq<Inst>, s: nat, w: Warp)
    requires NoCalls(p) && BlockStart(p, s) && s < |p| && BodyOutcome(exec, p, s, w).Some?
    ensures
      var t, last, v := s + BodyLength(Block(p, s)), LastOf(p, s), BodyOutcome(exec, p, s, w).value;
      if last.None? then BodyLength(Block(p, s)) > 0 && (t < |p| ==> BlockStart(p, t))
      else IsControl(last.value) && AtLeader(p, ControlStep(last.value, t, v))
  {
    BodyHasNoControl(p, s);
    StepsToLeader(exec, p, s, w);
  }

  predicate AtLeader(p: seq<Inst>, o: Outcome) { o.Running? && 0 <= o.pc < |p| ==> BlockStart(p, o.pc) }

  lemma {:induction false} SameEnds(exec: Exec, p: seq<Inst>, r: seq<Inst>, last: Option<Inst>, t: nat, w: Warp,
                                    left: nat, site: Site)
    requires Alike(exec, p, r)
    requires if last.None? then t < |p| ==> BlockStart(p, t)
             else IsControl(last.value) && AtLeader(p, ControlStep(last.value, t, w))
    ensures EndTrace(exec, r, last, t, Some(w), left, site) == EndTrace(exec, p, last, t, Some(w), left, site)
    decreases if last.None? then left + 1 else left, 0
  {
    if last.None? {
      SameTraces(exec, p, r, t, w, left, site);
    } else if left > 0 {
      var o := ControlStep(last.value, t, w);
      if o.Running? {
        SameTraces(exec, p, r, o.pc, o.warp, left - 1, site);
      }
    }
  }

  /** What both programs record from corresponding blocks on. */
  lemma BothTraces(exec: Exec, p: seq<Inst>, r: seq<Inst>, s: nat, w: Warp, left: nat, site: Site)
    returns (last: Option<Inst>, n: nat, after: Option<Warp>)
    requires s < |p| == |r| && NoCalls(p) && NoCalls(r) && BlockStart(p, s) && EndsAlike(exec, p, r, s, w)
    ensures last.Some? ==> IsControl(last.value)
    ensures Traced(exec, p, s, w, left, site) == EndTrace(exec, p, last, s + n, after, left - n, site)
    ensures Traced(exec, r, s, w, left, site) == EndTrace(exec, r, last, s + n, after, left - n, site)
    ensures after.Some? && last.None? ==> n > 0 && (s + n < |p| ==> BlockStart(p, s + n))
    ensures after.Some? && last.Some? ==> AtLeader(p, ControlStep(last.value, s + n, after.value))
  {
    hide Traced, EndTrace, ControlStep, BodyOutcome, LastOf, BodyLength;
    BlockTrace(exec, p, s, w, left, site);
    BlockTrace(exec, r, s, w, left, site);
    last, n, after := LastOf(p, s), BodyLength(Block(p, s)), BodyOutcome(exec, p, s, w);
    if after.Some? {
      EndsAtLeader(exec, p, s, w);
    }
  }

  lemma {:induction false} SameTraces(exec: Exec, p: seq<Inst>, r: seq<Inst>, pc: int, w: Warp, left: nat, site: Site)
    requires Alike(exec, p, r) && (0 <= pc < |p| ==> BlockStart(p, pc))
    ensures Traced(exec, r, pc, w, left, site) == Traced(exec, p, pc, w, left, site)
    decreases left, 1
  {
    hide StepTrace, Step, ControlStep, NoCalls, EndsAlike, Block;
    if left > 0 && 0 <= pc < |p| {
      var outcome := BodyOutcome(exec, r, pc, w);
      var last, n, after := BothTraces(exec, p, r, pc, w, left, site);
      if after.Some? && left >= n {
        SameEnds(exec, p, r, last, pc + n, after.value, left - n, site);
      }
    }
  }

  /** The scheduled program records the branches of the original, with the same decisions, even in runs that fail. */
  lemma TracePreserved(fpu: Fpu, p: seq<Inst>, w: Warp, limit: nat, site: Site)
    requires NoCalls(p) && BlocksCovered(p)
    ensures Traced(WarpExec(fpu), ScheduledText(p, 0), 0, w, limit, site) == Traced(WarpExec(fpu), p, 0, w, limit, site)
  {
    var exec, r := WarpExec(fpu), ScheduledText(p, 0);
    WarpCommutes(fpu);
    TextIsScheduled(p);
    ScheduledSimilar(exec, p, r);
    SimilarAlike(exec, p, r);
    SameTraces(exec, p, r, 0, w, limit, site);
  }
}
