/** Scheduling a whole lowered program block by block preserves every run. */
module ScheduleProgram {
  import opened Isa
  import opened Machine
  import opened Commute
  import opened Sequences
  import opened ScheduleGraph
  import opened ScheduleConflicts
  import opened ScheduleMeaning
  import opened Scheduler

  predicate IsBranch(inst: Inst) { inst.opcode == Control(BR) || inst.opcode == Control(BRX) }

  /* ---------- basic blocks ---------- */

  /** First instruction, branch target, or successor of a branch or HALT. */
  predicate Leader(p: seq<Inst>, i: nat) {
    && i < |p|
    && (i == 0 || IsControl(p[i - 1]) || exists k | 0 <= k < |p| :: IsBranch(p[k]) && p[k].imm == i)
  }

  /** A leader; quantifiers over blocks range over this predicate. */
  predicate BlockStart(p: seq<Inst>, s: nat) { Leader(p, s) }

  /** The next leader after `s`, or the end of the program. */
  function BlockEnd(p: seq<Inst>, s: nat): (e: nat)
    requires s < |p|
    ensures s < e <= |p|
    decreases |p| - s
  {
    if s + 1 == |p| || Leader(p, s + 1) then s + 1 else BlockEnd(p, s + 1)
  }

  lemma {:induction false} BlockEndFacts(p: seq<Inst>, s: nat)
    requires s < |p|
    ensures forall i: nat | s < i < BlockEnd(p, s) :: !Leader(p, i)
    ensures BlockEnd(p, s) < |p| ==> Leader(p, BlockEnd(p, s))
    decreases |p| - s
  {
    if !(s + 1 == |p| || Leader(p, s + 1)) {
      BlockEndFacts(p, s + 1);
    }
  }

  function Block(p: seq<Inst>, s: nat): (b: seq<Inst>)
    requires s < |p|
    ensures |b| == BlockEnd(p, s) - s > 0
  {
    p[s..BlockEnd(p, s)]
  }

  /** `r` is `p` with every block replaced, in place, by its schedule. */
  ghost predicate ScheduledProgram(p: seq<Inst>, r: seq<Inst>) {
    && |r| == |p|
    && forall s: nat | BlockStart(p, s) :: r[s..BlockEnd(p, s)] == Scheduled(Block(p, s))
  }

  /** The scheduled program from the leader `s` on. */
  ghost function ScheduledText(p: seq<Inst>, s: nat): (r: seq<Inst>)
    requires s <= |p|
    ensures |r| == |p| - s
    decreases |p| - s
  {
    if s == |p| then [] else Scheduled(Block(p, s)) + ScheduledText(p, BlockEnd(p, s))
  }

  lemma SliceOfSlice<T>(p: seq<T>, s: nat, e: nat, n: nat)
    requires s <= s + n <= e <= |p|
    ensures p[s..e][..n] == p[s..s + n]
  {
  }

  ghost function TextOf(p: seq<Inst>): nat -> seq<Inst> { (k: nat) => if k <= |p| then ScheduledText(p, k) else [] }

  ghost function BlocksOf(p: seq<Inst>): nat -> seq<Inst> { (k: nat) => if k < |p| then Scheduled(Block(p, k)) else [] }

  ghost function EndsOf(p: seq<Inst>): nat -> nat { (k: nat) => if k < |p| then BlockEnd(p, k) else k }

  ghost function StartsOf(p: seq<Inst>): nat -> bool { (k: nat) => BlockStart(p, k) }

  lemma TextPieces(p: seq<Inst>)
    ensures Pieces(|p|, StartsOf(p), EndsOf(p), TextOf(p), BlocksOf(p))
  {
    forall s: nat | s < |p|
      ensures
        var e := EndsOf(p)(s);
        s < e <= |p| && |BlocksOf(p)(s)| == e - s && TextOf(p)(s) == BlocksOf(p)(s) + TextOf(p)(e)
    {
      assert ScheduledText(p, s) == Scheduled(Block(p, s)) + ScheduledText(p, BlockEnd(p, s));
    }
    forall s: nat, i: nat | s < |p| && s < i < EndsOf(p)(s)
      ensures !StartsOf(p)(i)
    {
      BlockEndFacts(p, s);
    }
  }

  lemma TextAt(p: seq<Inst>, s: nat)
    requires s < |p|
    ensures TextOf(p)(0) == ScheduledText(p, 0) && EndsOf(p)(s) == BlockEnd(p, s)
    ensures BlocksOf(p)(s) == Scheduled(Block(p, s)) && StartsOf(p)(s) == BlockStart(p, s)
  {
  }

  lemma BlockOfText(p: seq<Inst>, s: nat, whole: seq<Inst>, end: nat, block: seq<Inst>)
    requires s < |p| && StartsOf(p)(s) && whole == TextOf(p)(0) && end == EndsOf(p)(s) && block == BlocksOf(p)(s)
    ensures s <= end <= |whole| == |p| && whole[s..end] == block
  {
    hide Scheduled, ScheduledText, BlockEnd, Leader;
    TextPieces(p);
    PieceAt(|p|, StartsOf(p), EndsOf(p), TextOf(p), BlocksOf(p), 0, s);
  }

  lemma TextIsScheduled(p: seq<Inst>)
    ensures ScheduledProgram(p, ScheduledText(p, 0))
  {
    forall s: nat | BlockStart(p, s)
      ensures ScheduledText(p, 0)[s..BlockEnd(p, s)] == Scheduled(Block(p, s))
    {
      TextAt(p, s);
      BlockOfText(p, s, ScheduledText(p, 0), BlockEnd(p, s), Scheduled(Block(p, s)));
    }
  }

  lemma SmallBlock(b: seq<Inst>)
    requires |b| <= 2
    ensures Scheduled(b) == b
  {
  }

  lemma {:induction false} SmallProgram(p: seq<Inst>, s: nat)
    requires s <= |p| <= 2
    ensures ScheduledText(p, s) == p[s..]
    decreases |p| - s
  {
    if s < |p| {
      SmallBlock(Block(p, s));
      SmallProgram(p, BlockEnd(p, s));
    }
  }

  predicate IsCall(inst: Inst) { inst.opcode == Control(CALL) || inst.opcode == Control(RET) }

  /** The lowerer emits no calls, and the machine rejects them. */
  predicate NoCalls(p: seq<Inst>) {
    forall k | 0 <= k < |p| :: !IsCall(p[k])
  }

  /** In every block the machine's conflicts are among those the scheduler guarantees. */
  ghost predicate BlocksCovered(p: seq<Inst>) {
    forall s: nat | BlockStart(p, s) :: Covered(Block(p, s))
  }

  /** `r` has its control instructions where `b` has them. */
  predicate SameShape(b: seq<Inst>, r: seq<Inst>) {
    && |r| == |b|
    && forall k | 0 <= k < |b| :: IsControl(r[k]) == IsControl(b[k]) && (IsControl(b[k]) ==> r[k] == b[k])
  }

  ghost predicate SameEffect(exec: Exec, b: seq<Inst>, r: seq<Inst>) {
    && |r| == |b|
    && forall w: Option<Warp> ::
         ExecSeq(exec, r[..BodyLength(b)], w) == ExecSeq(exec, b[..BodyLength(b)], w)
  }

  /** What a run of `p` needs to know about `r`. */
  ghost predicate Similar(exec: Exec, p: seq<Inst>, r: seq<Inst>) {
    && |r| == |p| && NoCalls(p) && NoCalls(r)
    && forall s: nat | BlockStart(p, s) ::
         SameShape(Block(p, s), r[s..BlockEnd(p, s)]) && SameEffect(exec, Block(p, s), r[s..BlockEnd(p, s)])
  }

  lemma NoCallsMeans(b: seq<Inst>, k: nat)
    requires NoCalls(b) && k < |b|
    ensures KindOf(b[k]).ControlKind? <==> IsControl(b[k])
  {
  }

  lemma BlocksShaped(p: seq<Inst>, s: nat)
    requires NoCalls(p) && s < |p|
    ensures NoCalls(Block(p, s))
    ensures forall k | 0 <= k < |Block(p, s)| - 1 :: !IsControl(Block(p, s)[k])
    ensures BlockShaped(NodesOf(Block(p, s)))
  {
    var b := Block(p, s);
    BlockEndFacts(p, s);
    forall k | 0 <= k < |b| - 1
      ensures !IsControl(b[k])
    {
      assert !Leader(p, s + k + 1);
      assert b[k] == p[s + k];
    }
    forall k | 0 <= k < |b| - 1
      ensures !NodesOf(b)[k].kind.ControlKind?
    {
      NoCallsMeans(b, k);
    }
  }

  lemma ScheduleKeepsCallFree(b: seq<Inst>)
    requires NoCalls(b)
    ensures NoCalls(Scheduled(b))
  {
  }

  lemma ShapeKept(b: seq<Inst>, r: seq<Inst>)
    requires NoCalls(b) && NoCalls(r) && |r| == |b|
    requires forall k | 0 <= k < |b| - 1 :: !IsControl(b[k])
    requires forall k | 0 <= k < BodyLength(b) :: !KindOf(r[k]).ControlKind?
    requires BodyLength(b) < |b| ==> r[BodyLength(b)] == b[BodyLength(b)]
    ensures SameShape(b, r)
  {
    forall k | 0 <= k < |b|
      ensures IsControl(r[k]) == IsControl(b[k]) && (IsControl(b[k]) ==> r[k] == b[k])
    {
      NoCallsMeans(b, k);
      NoCallsMeans(r, k);
    }
  }

  lemma BlockSimilar(exec: Exec, p: seq<Inst>, s: nat)
    requires Commuting(exec) && NoCalls(p) && BlocksCovered(p) && BlockStart(p, s)
    ensures SameShape(Block(p, s), Scheduled(Block(p, s)))
    ensures SameEffect(exec, Block(p, s), Scheduled(Block(p, s)))
    ensures NoCalls(Scheduled(Block(p, s)))
  {
    var b := Block(p, s);
    BlocksShaped(p, s);
    ScheduleKeepsCallFree(b);
    BlockPreserved(exec, b, None);
    ShapeKept(b, Scheduled(b));
    forall w: Option<Warp>
      ensures ExecSeq(exec, Scheduled(b)[..BodyLength(b)], w) == ExecSeq(exec, b[..BodyLength(b)], w)
    {
      BlockPreserved(exec, b, w);
    }
  }

  lemma ScheduledSimilar(exec: Exec, p: seq<Inst>, r: seq<Inst>)
    requires Commuting(exec) && ScheduledProgram(p, r) && NoCalls(p) && BlocksCovered(p)
    ensures Similar(exec, p, r)
  {
    forall s: nat | BlockStart(p, s)
      ensures SameShape(Block(p, s), r[s..BlockEnd(p, s)]) && SameEffect(exec, Block(p, s), r[s..BlockEnd(p, s)])
    {
      BlockSimilar(exec, p, s);
    }
    forall k | 0 <= k < |r|
      ensures !IsCall(r[k])
    {
      var s := Containing(p, k);
      BlockSimilar(exec, p, s);
      assert r[k] == r[s..BlockEnd(p, s)][k - s];
    }
  }

  /** The leader of the block that contains `i`. */
  lemma Containing(p: seq<Inst>, i: nat) returns (s: nat)
    requires i < |p|
    ensures s <= i && BlockStart(p, s) && i < BlockEnd(p, s)
  {
    s := i;
    while !Leader(p, s)
      invariant s <= i
      invariant forall k: nat | s < k <= i :: !Leader(p, k)
      decreases s
    {
      s := s - 1;
    }
    BlockEndFacts(p, s);
  }

  lemma ControlsFixed(exec: Exec, p: seq<Inst>, r: seq<Inst>, i: nat)
    requires Similar(exec, p, r) && i < |p|
    ensures IsControl(r[i]) == IsControl(p[i])
    ensures IsControl(p[i]) ==> r[i] == p[i]
  {
    var s := Containing(p, i);
    assert SameShape(Block(p, s), r[s..BlockEnd(p, s)]);
    assert p[i] == Block(p, s)[i - s] && r[i] == r[s..BlockEnd(p, s)][i - s];
  }

  /** Block starts and branch targets stay where they were. */
  lemma LeadersFixed(exec: Exec, p: seq<Inst>, r: seq<Inst>, i: nat)
    requires Similar(exec, p, r)
    ensures Leader(r, i) == Leader(p, i)
  {
    forall k | 0 <= k < |p|
      ensures IsControl(r[k]) == IsControl(p[k]) && (IsControl(p[k]) ==> r[k] == p[k])
    {
      ControlsFixed(exec, p, r, k);
    }
    if exists k | 0 <= k < |p| :: IsBranch(p[k]) && p[k].imm == i {
      var k :| 0 <= k < |p| && IsBranch(p[k]) && p[k].imm == i;
      assert IsBranch(r[k]) && r[k].imm == i;
    }
    if exists k | 0 <= k < |r| :: IsBranch(r[k]) && r[k].imm == i {
      var k :| 0 <= k < |r| && IsBranch(r[k]) && r[k].imm == i;
      assert IsBranch(p[k]) && p[k].imm == i;
    }
  }

  lemma {:induction false} BlockEndsFixed(exec: Exec, p: seq<Inst>, r: seq<Inst>, s: nat)
    requires Similar(exec, p, r) && s < |p|
    ensures BlockEnd(r, s) == BlockEnd(p, s)
    decreases |p| - s
  {
    LeadersFixed(exec, p, r, s + 1);
    if !(s + 1 == |p| || Leader(p, s + 1)) {
      BlockEndsFixed(exec, p, r, s + 1);
    }
  }

  /* ---------- execution by blocks ---------- */

  /** Execute the block that starts at `s`. */
  function BlockStep(exec: Exec, p: seq<Inst>, s: nat, w: Warp): Outcome
    requires s < |p|
  {
    var b := Block(p, s);
    var n := BodyLength(b);
    match ExecSeq(exec, b[..n], Some(w))
    case None => Failed
    case Some(w') =>
      if n < |b| && IsControl(b[n]) then ControlStep(b[n], s + n, w') else Running(s + |b|, w')
  }

  /** The two programs have the same blocks, and these compute the same. */
  ghost predicate SameBlocks(exec: Exec, p: seq<Inst>, r: seq<Inst>) {
    && |r| == |p|
    && (forall s: nat | BlockStart(p, s) :: BlockStart(r, s) && |Block(r, s)| == |Block(p, s)|)
    && (forall s: nat, w: Warp | BlockStart(p, s) :: BlockStep(exec, r, s, w) == BlockStep(exec, p, s, w))
  }

  lemma BlockStepPreserved(exec: Exec, p: seq<Inst>, r: seq<Inst>, s: nat, w: Warp)
    requires Similar(exec, p, r) && BlockStart(p, s)
    ensures BlockStep(exec, r, s, w) == BlockStep(exec, p, s, w)
  {
    BlockEndsFixed(exec, p, r, s);
    assert Block(r, s) == r[s..BlockEnd(p, s)];
    BlocksShaped(p, s);
    BlocksShaped(r, s);
    SameBody(Block(p, s), Block(r, s));
    assert SameEffect(exec, Block(p, s), Block(r, s));
  }

  lemma SameBody(b: seq<Inst>, r: seq<Inst>)
    requires NoCalls(b) && NoCalls(r) && SameShape(b, r) && b != []
    ensures BodyLength(r) == BodyLength(b)
    ensures BodyLength(b) < |b| ==> r[BodyLength(b)] == b[BodyLength(b)]
  {
    NoCallsMeans(b, |b| - 1);
    NoCallsMeans(r, |b| - 1);
  }

  lemma SimilarSameBlocks(exec: Exec, p: seq<Inst>, r: seq<Inst>)
    requires Similar(exec, p, r)
    ensures SameBlocks(exec, p, r)
  {
    forall s: nat | BlockStart(p, s)
      ensures BlockStart(r, s) && |Block(r, s)| == |Block(p, s)|
    {
      LeadersFixed(exec, p, r, s);
      BlockEndsFixed(exec, p, r, s);
    }
    forall s: nat, w: Warp | BlockStart(p, s)
      ensures BlockStep(exec, r, s, w) == BlockStep(exec, p, s, w)
    {
      BlockStepPreserved(exec, p, r, s, w);
    }
  }

  /** The state after `n` blocks, where `step` executes the block at a leader. */
  function After(step: (nat, Warp) -> Outcome, size: nat, n: nat, pc: int, w: Warp): Outcome
    decreases n
  {
    if n == 0 then Running(pc, w)
    else if !(0 <= pc < size) then Failed
    else
      match step(pc, w)
      case Running(pc', w') => After(step, size, n - 1, pc', w')
      case stopped => stopped
  }

  function BlockMachine(exec: Exec, p: seq<Inst>): (nat, Warp) -> Outcome {
    (s: nat, v: Warp) => if s < |p| then BlockStep(exec, p, s, v) else Failed
  }

  /** The machine state at the boundary after `n` blocks. */
  function Boundary(exec: Exec, p: seq<Inst>, n: nat, w: Warp): Outcome {
    After(BlockMachine(exec, p), |p|, n, 0, w)
  }

  /** Control always continues at a leader or outside the program. */
  lemma StepsToLeader(exec: Exec, p: seq<Inst>, s: nat, w: Warp)
    requires BlockStart(p, s)
    ensures
      var o := BlockStep(exec, p, s, w);
      o.Running? ==> o.pc < 0 || o.pc >= |p| || BlockStart(p, o.pc)
  {
    var b := Block(p, s);
    var n := BodyLength(b);
    BlockEndFacts(p, s);
    if n < |b| && IsControl(b[n]) {
      assert b[n] == p[s + n];
      assert s + n + 1 == BlockEnd(p, s);
    }
  }

  lemma {:induction false} SameAfter(p: seq<Inst>, f: (nat, Warp) -> Outcome, g: (nat, Warp) -> Outcome,
                                     n: nat, pc: int, w: Warp)
    requires forall s: nat, v: Warp | BlockStart(p, s) :: f(s, v) == g(s, v)
    requires forall s: nat, v: Warp | BlockStart(p, s) && f(s, v).Running? ::
               0 <= f(s, v).pc < |p| ==> BlockStart(p, f(s, v).pc)
    requires 0 <= pc < |p| ==> BlockStart(p, pc)
    ensures After(f, |p|, n, pc, w) == After(g, |p|, n, pc, w)
    decreases n
  {
    if n > 0 && 0 <= pc < |p| {
      var o := f(pc, w);
      assert o == g(pc, w);
      if o.Running? {
        SameAfter(p, f, g, n - 1, o.pc, o.warp);
      }
    }
  }

  /** The same sequence of blocks, with the same registers, predicates and memory at every boundary. */
  lemma BoundariesPreserved(fpu: Fpu, p: seq<Inst>, n: nat, w: Warp)
    requires NoCalls(p) && BlocksCovered(p)
    ensures Boundary(WarpExec(fpu), ScheduledText(p, 0), n, w) == Boundary(WarpExec(fpu), p, n, w)
  {
    var exec, r := WarpExec(fpu), ScheduledText(p, 0);
    WarpCommutes(fpu);
    TextIsScheduled(p);
    ScheduledSimilar(exec, p, r);
    SimilarSameBlocks(exec, p, r);
    var f, g := BlockMachine(exec, p), BlockMachine(exec, r);
    forall s: nat, v: Warp | BlockStart(p, s)
      ensures f(s, v) == g(s, v)
      ensures f(s, v).Running? && 0 <= f(s, v).pc < |p| ==> BlockStart(p, f(s, v).pc)
    {
      StepsToLeader(exec, p, s, v);
    }
    SameAfter(p, f, g, n, 0, w);
  }

  /* ---------- whole runs ---------- */

  /** A straight-line stretch takes one step per instruction, or ends in an exception. */
  lemma {:induction false} RunStretch(exec: Exec, p: seq<Inst>, a: nat, b: nat, w: Warp, left: nat, executed: nat)
    requires a <= b <= |p| && forall k | a <= k < b :: !IsControl(p[k])
    ensures
      Run(exec, p, a, w, left, executed) ==
      if left < b - a then Error
      else
        match ExecSeq(exec, p[a..b], Some(w))
        case None => Error
        case Some(w') => Run(exec, p, b, w', left - (b - a), executed + (b - a))
    decreases b - a
  {
    if a < b {
      assert p[a..b][0] == p[a] && p[a..b][1..] == p[a + 1..b];
      var next := exec(p[a], w);
      if left > 0 {
        if next.Some? {
          RunStretch(exec, p, a + 1, b, next.value, left - 1, executed + 1);
        } else {
          ErrorStays(exec, p[a + 1..b]);
        }
      }
    } else {
      assert p[a..b] == [];
    }
  }

  lemma RunControl(exec: Exec, p: seq<Inst>, t: nat, w: Warp, left: nat, executed: nat)
    requires t < |p| && IsControl(p[t])
    ensures Run(exec, p, t, w, left, executed) ==
            Continue(exec, p, ControlStep(p[t], t, w), 1, left, executed)
  {
  }

  /** The rest of a run, `n` steps later. */
  function Continue(exec: Exec, p: seq<Inst>, o: Outcome, n: nat, left: nat, executed: nat): Final {
    if left < n then Error
    else
      match o
      case Failed => Error
      case Halted(w) => Done(w, executed + n)
      case Running(pc, w) => Run(exec, p, pc, w, left - n, executed + n)
  }

  /** One block of a run. */
  lemma RunBlock(exec: Exec, p: seq<Inst>, s: nat, w: Warp, left: nat, executed: nat)
    requires NoCalls(p) && BlockStart(p, s)
    ensures Run(exec, p, s, w, left, executed)
         == Continue(exec, p, BlockStep(exec, p, s, w), |Block(p, s)|, left, executed)
  {
    var b := Block(p, s);
    var n := BodyLength(b);
    BodyHasNoControl(p, s);
    SliceOfSlice(p, s, BlockEnd(p, s), n);
    RunBody(exec, p, s, s + n, s + |b|, w, left, executed);
  }

  /** Only the last instruction of a block may be a control instruction. */
  lemma BodyHasNoControl(p: seq<Inst>, s: nat)
    requires NoCalls(p) && BlockStart(p, s) && s < |p|
    ensures
      var b, n := Block(p, s), BodyLength(Block(p, s));
      && n <= |b| <= n + 1
      && (forall k | s <= k < s + n :: !IsControl(p[k]))
      && (n < |b| ==> IsControl(p[s + n]) && b[n] == p[s + n])
  {
    var b := Block(p, s);
    BlocksShaped(p, s);
    forall k | 0 <= k < |b|
      ensures b[k] == p[s + k] && (KindOf(b[k]).ControlKind? <==> IsControl(b[k]))
    {
      NoCallsMeans(b, k);
    }
    forall k | s <= k < s + BodyLength(b)
      ensures !IsControl(p[k])
    {
      assert b[k - s] == p[k];
    }
  }

  lemma RunBody(exec: Exec, p: seq<Inst>, s: nat, t: nat, e: nat, w: Warp, left: nat, executed: nat)
    requires s <= t <= e <= |p| && e - 1 <= t
    requires forall k | s <= k < t :: !IsControl(p[k])
    requires t < e ==> IsControl(p[t])
    ensures
      Run(exec, p, s, w, left, executed) ==
      match ExecSeq(exec, p[s..t], Some(w))
      case None => Error
      case Some(w') =>
        Continue(exec, p, if t < e then ControlStep(p[t], t, w') else Running(e, w'), e - s, left, executed)
  {
    RunStretch(exec, p, s, t, w, left, executed);
    var after := ExecSeq(exec, p[s..t], Some(w));
    if after.Some? && t < e && left >= t - s {
      RunControl(exec, p, t, after.value, left - (t - s), executed + (t - s));
    }
  }

  lemma {:induction false} SameRuns(exec: Exec, p: seq<Inst>, r: seq<Inst>, pc: int, w: Warp, left: nat, executed: nat)
    requires SameBlocks(exec, p, r) && NoCalls(p) && NoCalls(r)
    requires 0 <= pc < |p| ==> BlockStart(p, pc)
    ensures Run(exec, r, pc, w, left, executed) == Run(exec, p, pc, w, left, executed)
    decreases left
  {
    if 0 <= pc < |p| {
      RunBlock(exec, p, pc, w, left, executed);
      RunBlock(exec, r, pc, w, left, executed);
      StepsToLeader(exec, p, pc, w);
      SameContinuation(exec, p, r, BlockStep(exec, p, pc, w), |Block(p, pc)|, left, executed);
    } else {
      Outside(exec, p, pc, w, left, executed);
      Outside(exec, r, pc, w, left, executed);
    }
  }

  lemma {:induction false} SameContinuation(exec: Exec, p: seq<Inst>, r: seq<Inst>, o: Outcome, n: nat,
                                            left: nat, executed: nat)
    requires SameBlocks(exec, p, r) && NoCalls(p) && NoCalls(r) && n > 0
    requires o.Running? && 0 <= o.pc < |p| ==> BlockStart(p, o.pc)
    ensures Continue(exec, r, o, n, left, executed) == Continue(exec, p, o, n, left, executed)
    decreases left, 0
  {
    if o.Running? && left >= n {
      SameRuns(exec, p, r, o.pc, o.warp, left - n, executed + n);
    }
  }

  lemma Outside(exec: Exec, p: seq<Inst>, pc: int, w: Warp, left: nat, executed: nat)
    requires !(0 <= pc < |p|)
    ensures Run(exec, p, pc, w, left, executed) == Error
  {
  }

  /**
   Scheduling preserves meaning: for every start state and every step limit, the scheduled program ends
   in the same state after the same number of instructions, or raises an exception exactly when the
   original does.
   */
  lemma RunPreserved(fpu: Fpu, p: seq<Inst>, w: Warp, limit: nat)
    requires NoCalls(p) && BlocksCovered(p)
    ensures Run(WarpExec(fpu), ScheduledText(p, 0), 0, w, limit, 0) == Run(WarpExec(fpu), p, 0, w, limit, 0)
  {
    var exec, r := WarpExec(fpu), ScheduledText(p, 0);
    WarpCommutes(fpu);
    TextIsScheduled(p);
    ScheduledSimilar(exec, p, r);
    SimilarSameBlocks(exec, p, r);
    SameRuns(exec, p, r, 0, w, limit, 0);
  }

  /** The condition a caller can check: stable guards and no pair writes in any block. */
  lemma StableProgramCovered(p: seq<Inst>)
    requires NoCalls(p)
    requires forall s: nat | BlockStart(p, s) :: GuardsStable(Block(p, s)) && NoPairs(Block(p, s))
    ensures BlocksCovered(p)
  {
    forall s: nat | BlockStart(p, s)
      ensures Covered(Block(p, s))
    {
      BlocksShaped(p, s);
      StableBlockCovered(Block(p, s));
    }
  }

  /* ---------- the pass ---------- */

  method FindLeaders(p: seq<Inst>) returns (leaders: set<nat>)
    requires p != []
    ensures forall i: nat :: i in leaders <==> Leader(p, i)
    ensures forall i: nat :: i in leaders <==>
              && i < |p|
              && (|| i == 0 || p[i - 1].opcode in {Control(BR), Control(BRX), Control(HALT)}
                  || exists k :: 0 <= k < |p| && p[k].opcode in {Control(BR), Control(BRX)} && p[k].imm == i)
  {
    leaders := {0};
    for i := 0 to |p|
      invariant forall l: nat :: l in leaders <==>
                  l < |p| && (l == 0 || (l <= i && IsControl(p[l - 1]))
                              || exists k | 0 <= k < i :: IsBranch(p[k]) && p[k].imm == l)
    {
      if IsBranch(p[i]) {
        var target := p[i].imm;
        if 0 <= target < |p| {
          leaders := leaders + {target};
        }
        if i + 1 < |p| {
          leaders := leaders + {i + 1};
        }
      } else if p[i].opcode == Control(HALT) {
        if i + 1 < |p| {
          leaders := leaders + {i + 1};
        }
      }
    }
  }

  /** Ascending leaders, each the end of the block before it. */
  ghost predicate LeaderList(p: seq<Inst>, sorted: seq<nat>, n: nat) {
    && |sorted| > 0 && sorted[0] == 0
    && (forall k | 0 <= k < |sorted| :: Leader(p, sorted[k]))
    && (forall k | 0 <= k < |sorted| - 1 :: BlockEnd(p, sorted[k]) == sorted[k + 1])
    && BlockEnd(p, sorted[|sorted| - 1]) >= n > sorted[|sorted| - 1]
    && (forall i: nat | i < n && Leader(p, i) :: i in sorted)
  }

  lemma NextLeader(p: seq<Inst>, sorted: seq<nat>, n: nat)
    requires LeaderList(p, sorted, n) && n < |p|
    ensures LeaderList(p, if Leader(p, n) then sorted + [n] else sorted, n + 1)
  {
    var last := sorted[|sorted| - 1];
    BlockEndFacts(p, last);
    if Leader(p, n) {
      AppendLeader(p, sorted, n);
    } else {
      assert BlockEnd(p, last) != n;
    }
  }

  lemma AppendLeader(p: seq<Inst>, sorted: seq<nat>, n: nat)
    requires LeaderList(p, sorted, n) && n < |p| && Leader(p, n) && BlockEnd(p, sorted[|sorted| - 1]) == n
    ensures LeaderList(p, sorted + [n], n + 1)
  {
    hide BlockEnd;
    var longer := sorted + [n];
    forall k | 0 <= k < |longer| - 1
      ensures BlockEnd(p, longer[k]) == longer[k + 1]
    {
      assert longer[k] == sorted[k];
    }
    forall i: nat | i < n + 1 && Leader(p, i)
      ensures i in longer
    {
      assert longer[|sorted|] == n;
    }
  }

  /** `sorted(leaders)` */
  method SortLeaders(p: seq<Inst>, leaders: set<nat>) returns (sorted: seq<nat>)
    requires p != [] && forall i: nat :: i in leaders <==> Leader(p, i)
    ensures LeaderList(p, sorted, |p|)
  {
    sorted := [0];
    for i := 1 to |p|
      invariant LeaderList(p, sorted, i)
    {
      NextLeader(p, sorted, i);
      if i in leaders {
        sorted := sorted + [i];
      }
    }
  }

  /** Overwrite one block in place. */
  method PlaceBlock(instructions: array<Inst>, start: nat, scheduled: seq<Inst>)
    requires start + |scheduled| <= instructions.Length
    modifies instructions
    ensures instructions[..start] == old(instructions[..start])
    ensures instructions[start..start + |scheduled|] == scheduled
    ensures instructions[start + |scheduled|..] == old(instructions[start + |scheduled|..])
  {
    for j := 0 to |scheduled|
      invariant instructions[..start] == old(instructions[..start])
      invariant instructions[start..start + j] == scheduled[..j]
      invariant instructions[start + j..] == old(instructions[start + j..])
    {
      ghost var before := instructions[start + j..];
      instructions[start + j] := scheduled[j];
      assert instructions[start + j + 1..] == before[1..];
      assert instructions[start..start + j + 1] == instructions[start..start + j] + [scheduled[j]];
    }
  }

  /** Schedule `instructions[start..end]` in place. */
  method ScheduleRange(instructions: array<Inst>, start: nat, end: nat) returns (ok: bool)
    requires start <= end <= instructions.Length
    modifies instructions
    ensures ok
    ensures instructions[..end] == old(instructions[..start]) + Scheduled(old(instructions[start..end]))
    ensures instructions[end..] == old(instructions[end..])
  {
    var block := instructions[start..end];
    if |block| > 2 {
      var scheduled := ScheduleBlock(block);
      if scheduled.None? {
        return false;
      }
      PlaceBlock(instructions, start, scheduled.value);
    } else {
      SmallBlock(block);
    }
    ok := true;
    assert instructions[..end] == instructions[..start] + instructions[start..end];
  }

  /** `None` is the scheduler's error, which never happens. */
  method ScheduleLowered(program: seq<Inst>) returns (r: Option<seq<Inst>>)
    ensures r == Some(ScheduledText(program, 0))
  {
    if |program| <= 2 {
      SmallProgram(program, 0);
      return Some(program);
    }
    var instructions := new Inst[|program|](i requires 0 <= i < |program| => program[i]);
    var leaders := FindLeaders(program);
    var sortedLeaders := SortLeaders(program, leaders);
    var start: nat := 0;
    assert instructions[..] == program;
    for li := 0 to |sortedLeaders|
      invariant start == if li < |sortedLeaders| then sortedLeaders[li] else |program|
      invariant instructions[..start] + ScheduledText(program, start) == ScheduledText(program, 0)
      invariant instructions[start..] == program[start..]
    {
      var end := if li + 1 < |sortedLeaders| then sortedLeaders[li + 1] else |program|;
      NextBlock(program, sortedLeaders, li);
      BlockRange(program, start, end, instructions[start..]);
      ghost var front, back := instructions[..start], instructions[start..];
      ArraySlices(instructions, start, end);
      var ok := ScheduleRange(instructions, start, end);
      if !ok {
        return None;
      }
      Regroup(front, Scheduled(back[..end - start]), ScheduledText(program, end));
      start := end;
    }
    ArraySlices(instructions, start, start);
    r := Some(instructions[..]);
  }

  lemma ArraySlices<T>(a: array<T>, start: nat, end: nat)
    requires start <= end <= a.Length
    ensures a[start..end] == a[start..][..end - start]
    ensures a[end..] == a[start..][end - start..]
    ensures start == a.Length ==> a[..start] + [] == a[..]
  {
  }

  lemma Regroup<T>(a: seq<T>, b: seq<T>, c: seq<T>)
    ensures a + b + c == a + (b + c)
  {
  }

  lemma NextBlock(p: seq<Inst>, sorted: seq<nat>, li: nat)
    requires LeaderList(p, sorted, |p|) && li < |sorted|
    ensures sorted[li] < |p|
    ensures BlockEnd(p, sorted[li]) == if li + 1 < |sorted| then sorted[li + 1] else |p|
  {
    assert Leader(p, sorted[li]);
  }

  lemma BlockRange(p: seq<Inst>, start: nat, end: nat, back: seq<Inst>)
    requires start < |p| && end == BlockEnd(p, start) && back == p[start..]
    ensures back[..end - start] == Block(p, start)
    ensures back[end - start..] == p[end..]
  {
  }
}
