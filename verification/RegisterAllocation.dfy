/** The register-allocation pass: live intervals, their extension over loops, the scan, and its meaning. */
module RegisterAllocation {
  import opened Isa
  import opened Ptx
  import opened Cfg
  import G = Graphs
  import opened Liveness
  import opened LoopRanges
  import opened LinearScan
  import opened LinearScanFacts
  import opened AllocationMeaning

  /* ---------- merged intervals ---------- */

  predicate IsDefined(p: Program, r: Reg) { Positions(p, Definition, r, |p|) != [] }

  /** The general-purpose registers with a definition, each with the span of its occurrences. */
  ghost predicate Merged(p: Program, iv: Intervals) {
    && (forall r: Reg :: r in iv <==> !IsPredicate(r) && IsDefined(p, r))
    && (forall r: Reg | r in iv :: Span(p, r, iv[r]))
  }

  /** A register has one span. */
  lemma SpanUnique(p: Program, r: Reg, iv: Interval, other: Interval)
    requires Span(p, r, iv) && Span(p, r, other)
    ensures iv == other
  {
  }

  lemma FirstRangeLive(p: Program, r: Reg, ranges: seq<LiveRange>)
    requires RangesOf(p, r, ranges) && IsDefined(p, r)
    ensures IsLive(ranges[0])
  {
    var defs := Positions(p, Definition, r, |p|);
    assert IsSplit(defs, Positions(p, Use, r, |p|), 0, Limit(p), ranges[0]);
  }

  lemma UndefinedNotLive(p: Program, r: Reg, ranges: seq<LiveRange>)
    requires RangesOf(p, r, ranges) && !IsDefined(p, r)
    ensures forall j | 0 <= j < |ranges| :: !IsLive(ranges[j])
  {
  }

  method MergeRegister(ghost p: Program, r: Reg, ranges: seq<LiveRange>) returns (iv: Option<Interval>)
    requires RangesOf(p, r, ranges)
    ensures iv.Some? <==> IsDefined(p, r)
    ensures iv.Some? ==> Span(p, r, iv.value)
  {
    iv := MergeRanges(ranges);
    if iv.Some? {
      if !IsDefined(p, r) {
        UndefinedNotLive(p, r, ranges);
        assert false;
      }
      SpanOfMerged(p, r, ranges, iv.value);
    } else if IsDefined(p, r) {
      FirstRangeLive(p, r, ranges);
      assert false;
    }
  }

  method MergeAll(ghost p: Program, facts: Ranges) returns (iv: Intervals)
    requires LivenessOf(p, facts)
    ensures Merged(p, iv)
  {
    iv := map[];
    var todo := facts.Keys;
    while todo != {}
      invariant todo <= facts.Keys
      invariant forall r: Reg :: r in iv <==> r in facts.Keys - todo && !IsPredicate(r) && IsDefined(p, r)
      invariant forall r: Reg | r in iv :: Span(p, r, iv[r])
      decreases todo
    {
      var r :| r in todo;
      todo := todo - {r};
      var merged := MergeRegister(p, r, facts[r]);
      if merged.Some? && !IsPredicate(r) {
        iv := iv[r := merged.value];
      }
    }
  }

  /* ---------- extension over the loops ---------- */

  predicate HasUseIn(facts: Ranges, r: Reg, a: nat, b: nat) {
    r in facts && exists j, k :: 0 <= j < |facts[r]| && IsLive(facts[r][j]) && 0 <= k < |facts[r][j].uses|
                               && a <= facts[r][j].uses[k] <= b
  }

  function ExtendOne(facts: Ranges, r: Reg, iv: Interval, range: (nat, nat)): Interval {
    if HasUseIn(facts, r, range.0, range.1) && iv.last < range.1 then Interval(iv.first, range.1) else iv
  }

  function ExtendOverLoops(facts: Ranges, iv: Intervals, range: Option<(nat, nat)>): (r: Intervals)
    ensures r.Keys == iv.Keys
  {
    match range
    case None => iv
    case Some(bounds) => map r | r in iv :: ExtendOne(facts, r, iv[r], bounds)
  }

  /* ---------- sorting ---------- */

  ghost predicate HasJob(jobs: seq<Job>, r: Reg) { exists j :: 0 <= j < |jobs| && jobs[j].reg == r }

  ghost predicate JobsOf(jobs: seq<Job>, iv: Intervals) {
    && Ordered(jobs)
    && (forall j | 0 <= j < |jobs| :: jobs[j].reg in iv && jobs[j].iv == iv[jobs[j].reg])
    && (forall r: Reg | r in iv :: HasJob(jobs, r))
  }

  lemma JobUnique(jobs: seq<Job>, k: nat, i: nat)
    requires Ordered(jobs) && k < |jobs| && i < |jobs| && jobs[k].reg == jobs[i].reg
    ensures k == i
  {
    assert k < i ==> Follows(jobs, k, i);
    assert i < k ==> Follows(jobs, i, k);
  }

  lemma {:induction false} EarliestExists(iv: Intervals, regs: set<Reg>)
    requires regs <= iv.Keys && regs != {}
    ensures exists r :: r in regs && forall q | q in regs :: iv[r].first <= iv[q].first
    decreases |regs|
  {
    var x :| x in regs;
    var rest := regs - {x};
    if rest != {} {
      EarliestExists(iv, rest);
      var r :| r in rest && forall q | q in rest :: iv[r].first <= iv[q].first;
      assert forall q | q in regs :: q == x || q in rest;
      var least := if iv[x].first < iv[r].first then x else r;
      assert least in regs && forall q | q in regs :: iv[least].first <= iv[q].first;
    } else {
      assert regs == {x};
    }
  }

  method SortByFirst(iv: Intervals) returns (jobs: seq<Job>)
    requires forall r | r in iv :: iv[r].first <= iv[r].last
    ensures JobsOf(jobs, iv)
  {
    jobs := [];
    var todo := iv.Keys;
    while todo != {}
      invariant todo <= iv.Keys && Ordered(jobs)
      invariant forall j | 0 <= j < |jobs| :: jobs[j].reg in iv.Keys - todo && jobs[j].iv == iv[jobs[j].reg]
      invariant forall j, r | 0 <= j < |jobs| && r in todo :: jobs[j].iv.first <= iv[r].first
      invariant forall r: Reg | r in iv && r !in todo :: HasJob(jobs, r)
      decreases todo
    {
      EarliestExists(iv, todo);
      var r :| r in todo && forall q | q in todo :: iv[r].first <= iv[q].first;
      todo := todo - {r};
      jobs := AddJob(jobs, Job(r, iv[r]));
    }
  }

  method AddJob(jobs: seq<Job>, job: Job) returns (more: seq<Job>)
    requires Ordered(jobs) && job.iv.first <= job.iv.last
    requires forall j | 0 <= j < |jobs| :: jobs[j].reg != job.reg && jobs[j].iv.first <= job.iv.first
    ensures more == jobs + [job] && Ordered(more)
    ensures HasJob(more, job.reg) && forall r: Reg | HasJob(jobs, r) :: HasJob(more, r)
  {
    more := jobs + [job];
    assert more[|jobs|] == job && forall j | 0 <= j < |jobs| :: more[j] == jobs[j];
    forall i: nat, j: nat | i < j < |more|
      ensures Follows(more, i, j)
    {
      if j < |jobs| {
        assert Follows(jobs, i, j);
      }
    }
  }

  /* ---------- the pass ---------- */

  /** What the pass computes: the jobs, in order, of the merged intervals extended over the loops. */
  ghost predicate Allocated(p: Program, mapping: Mapping, jobs: seq<Job>, range: Option<(nat, nat)>, iv: Intervals) {
    && (WellFormed(p) ==> Bounds(range, (k: nat) => InSomeLoop(p, CfgOf(p), k)))
    && (!WellFormed(p) ==> range.None?)
    && ExtendedIntervals(p, range, iv)
    && JobsOf(jobs, iv) && ScannedTo(jobs, mapping)
  }

  ghost predicate ScannedTo(jobs: seq<Job>, mapping: Mapping) {
    exists s: Scan :: ScansTo(jobs, s) && mapping == s.mapping
  }

  ghost predicate ExtendedIntervals(p: Program, range: Option<(nat, nat)>, iv: Intervals) {
    exists facts, merged :: LivenessOf(p, facts) && Merged(p, merged) && iv == ExtendOverLoops(facts, merged, range)
  }

  method AllocateRegisters(p: Program) returns (mapping: Mapping)
    ensures exists jobs, range, iv :: Allocated(p, mapping, jobs, range, iv)
  {
    var facts := AnalyzeLiveness(p);
    var range := ComputeLoopRange(p);
    var merged := MergeAll(p, facts);
    var extended := ExtendOverLoops(facts, merged, range);
    var jobs := SortByFirst(extended);
    var s := ScanJobs(jobs);
    mapping := s.mapping;
    assert ScannedTo(jobs, mapping);
    assert Allocated(p, mapping, jobs, range, extended);
  }

  /* ---------- intervals protect what the loops carry ---------- */

  /** Every register used inside the loops, at or after its first definition, is used or occurs where it counts. */
  ghost predicate LoopsCovered(p: Program, range: Option<(nat, nat)>) {
    range.Some? ==> forall r: Reg, u: nat | CarriedUse(p, range.value, r, u) :: CoveredIn(p, range.value, r)
  }

  predicate CarriedUse(p: Program, range: (nat, nat), r: Reg, u: nat) {
    !IsPredicate(r) && Occurs(p, Use, u, r) && range.0 <= u <= range.1 && Positions(p, Definition, r, u + 1) != []
  }

  /** Liveness records a use in the loops, or the register occurs at their end or after it. */
  ghost predicate CoveredIn(p: Program, range: (nat, nat), r: Reg) {
    UsedInLoops(p, range, r) || exists k: nat :: range.1 <= k && Mentions(p, r, k)
  }

  ghost predicate UsedInLoops(p: Program, range: (nat, nat), r: Reg) {
    exists v: nat :: range.0 <= v <= range.1 && KeptUse(p, r, v)
  }

  predicate Mentions(p: Program, r: Reg, k: nat) { Occurs(p, Definition, k, r) || Occurs(p, Use, k, r) }

  /** A use at or after the first definition, unless it is the operand of a third or later definition. */
  predicate KeptUse(p: Program, r: Reg, u: nat) {
    && Occurs(p, Use, u, r) && Positions(p, Definition, r, u + 1) != []
    && (Occurs(p, Definition, u, r) ==> |Positions(p, Definition, r, u)| <= 1)
  }

  predicate AtMostTwoDefinitions(p: Program, r: Reg) { |Positions(p, Definition, r, |p|)| <= 2 }

  lemma {:induction false} PositionsGrow(p: Program, role: Role, r: Reg, n: nat, m: nat)
    requires n <= m
    ensures |Positions(p, role, r, n)| <= |Positions(p, role, r, m)|
    ensures n < m && Occurs(p, role, n, r) ==> |Positions(p, role, r, n)| < |Positions(p, role, r, m)|
    decreases m
  {
    if n < m {
      PositionsGrow(p, role, r, n, m - 1);
    }
  }

  /** With at most two definitions of each register every use after the first is recorded. */
  lemma TwoDefinitionsRecorded(p: Program, range: Option<(nat, nat)>)
    requires forall r: Reg | !IsPredicate(r) :: AtMostTwoDefinitions(p, r)
    ensures LoopsCovered(p, range)
  {
    if range.Some? {
      forall r: Reg, u: nat | CarriedUse(p, range.value, r, u)
        ensures CoveredIn(p, range.value, r)
      {
        PositionsGrow(p, Definition, r, u, |p|);
        assert AtMostTwoDefinitions(p, r);
        assert KeptUse(p, r, u);
      }
    }
  }

  lemma KeptIsRecorded(p: Program, facts: Ranges, r: Reg, u: nat)
    requires LivenessOf(p, facts) && r in facts && IsDefined(p, r)
    ensures KeptUse(p, r, u) <==> Recorded(facts[r], u)
  {
    RecordedExactly(p, r, facts[r], u);
    if Occurs(p, Use, u, r) {
      FirstDefinitionBefore(p, r, u, Positions(p, Definition, r, |p|), Positions(p, Definition, r, u + 1));
    }
  }

  lemma FirstDefinitionBefore(p: Program, r: Reg, u: nat, all: seq<nat>, early: seq<nat>)
    requires all == Positions(p, Definition, r, |p|) && early == Positions(p, Definition, r, u + 1)
    requires all != [] && u < |p|
    ensures all[0] <= u <==> early != []
  {
    PositionsFacts(p, Definition, r, |p|);
    PositionsFacts(p, Definition, r, u + 1);
    if all[0] <= u {
      assert all[0] in all;
      assert all[0] in early;
    }
    if early != [] {
      assert early[0] in early;
      assert early[0] in all;
    }
  }

  /** The pass extends an interval exactly when a recorded use lies in the loops. */
  lemma HasUseExactly(p: Program, facts: Ranges, r: Reg, a: nat, b: nat)
    requires LivenessOf(p, facts) && r in facts && IsDefined(p, r)
    ensures HasUseIn(facts, r, a, b) <==> exists u: nat :: a <= u <= b && KeptUse(p, r, u)
  {
    if HasUseIn(facts, r, a, b) {
      var j, k :| 0 <= j < |facts[r]| && IsLive(facts[r][j]) && 0 <= k < |facts[r][j].uses|
                  && a <= facts[r][j].uses[k] <= b;
      var u := facts[r][j].uses[k];
      assert Recorded(facts[r], u);
      KeptIsRecorded(p, facts, r, u);
    }
    if u: nat :| a <= u <= b && KeptUse(p, r, u) {
      KeptIsRecorded(p, facts, r, u);
      var j :| 0 <= j < |facts[r]| && IsLive(facts[r][j]) && u in facts[r][j].uses;
    }
  }

  /** The loop range with the labels just before it, or an empty one. */
  function RangeWithLabels(p: Program, range: Option<(nat, nat)>): LoopRange {
    match range
    case None => LoopRange(1, 0)
    case Some((a, b)) => LoopRange(LabelRun(p, a), b)
  }

  function LabelRun(p: Program, a: nat): (lo: nat)
    ensures lo <= a && forall k | lo <= k < a :: k < |p| && p[k].Label?
    ensures lo > 0 ==> lo > |p| || p[lo - 1].Code?
  {
    if 0 < a <= |p| && p[a - 1].Label? then LabelRun(p, a - 1) else a
  }

  lemma UsesInRange(p: Program, a: nat, b: nat, r: Reg, u: nat)
    requires Occurs(p, Use, u, r)
    ensures InRange(RangeWithLabels(p, Some((a, b))), u) <==> a <= u <= b
  {
  }

  /** What the extension leaves of a merged interval. */
  lemma ExtendedReach(p: Program, facts: Ranges, range: (nat, nat), r: Reg, iv: Interval)
    requires LivenessOf(p, facts) && r in facts && IsDefined(p, r) && Span(p, r, iv)
    ensures
      var e := ExtendOne(facts, r, iv, range);
      && e.first == iv.first && e.last >= iv.last
      && (e.last >= range.1 <==> UsedInLoops(p, range, r) || iv.last >= range.1)
  {
    HasUseExactly(p, facts, r, range.0, range.1);
  }

  /**
   The intervals of the pass: each runs from the first definition of its register to the last place where the register
   occurs, or to the end of the loops if the register is used in them and occurs nowhere after.
   */
  lemma ExtendedExactly(p: Program, range: Option<(nat, nat)>, iv: Intervals, r: Reg)
    requires ExtendedIntervals(p, range, iv)
    ensures r in iv <==> !IsPredicate(r) && exists d: nat :: Occurs(p, Definition, d, r)
    ensures r in iv ==>
              && Occurs(p, Definition, iv[r].first, r) && (forall d: nat | Occurs(p, Definition, d, r) :: iv[r].first <= d)
              && (forall k: nat | Mentions(p, r, k) && iv[r].first <= k :: k <= iv[r].last)
    ensures r in iv && range.Some? && UsedInLoops(p, range.value, r) ==> range.value.1 <= iv[r].last
    ensures r in iv ==>
              || Mentions(p, r, iv[r].last)
              || (range.Some? && UsedInLoops(p, range.value, r) && iv[r].last == range.value.1)
  {
    var facts, merged :| LivenessOf(p, facts) && Merged(p, merged) && iv == ExtendOverLoops(facts, merged, range);
    hide Span, HasUseIn, UsedInLoops, LivenessOf, IsDefined;
    DefinedExactly(p, r);
    if r in iv {
      assert iv[r] == if range.Some? then ExtendOne(facts, r, merged[r], range.value) else merged[r];
      SpanExactly(p, r, merged[r]);
      if range.Some? {
        UsedExactly(p, facts, range.value, r);
      }
    }
  }

  lemma SpanExactly(p: Program, r: Reg, iv: Interval)
    requires Span(p, r, iv)
    ensures Occurs(p, Definition, iv.first, r) && (forall d: nat | Occurs(p, Definition, d, r) :: iv.first <= d)
    ensures Mentions(p, r, iv.last) && forall k: nat | Mentions(p, r, k) && iv.first <= k :: k <= iv.last
  {
  }

  lemma UsedExactly(p: Program, facts: Ranges, range: (nat, nat), r: Reg)
    requires LivenessOf(p, facts) && IsDefined(p, r)
    ensures HasUseIn(facts, r, range.0, range.1) <==> UsedInLoops(p, range, r)
  {
    if r in facts {
      HasUseExactly(p, facts, r, range.0, range.1);
    }
  }

  lemma DefinedExactly(p: Program, r: Reg)
    ensures IsDefined(p, r) <==> exists d: nat :: Occurs(p, Definition, d, r)
  {
    PositionsFacts(p, Definition, r, |p|);
    if IsDefined(p, r) {
      assert Positions(p, Definition, r, |p|)[0] in Positions(p, Definition, r, |p|);
    }
    if d: nat :| Occurs(p, Definition, d, r) {
      assert d in Positions(p, Definition, r, |p|);
    }
  }

  /** A merged interval reaches `b` by itself exactly when the register occurs there or later. */
  lemma SpanReaches(p: Program, r: Reg, iv: Interval, u: nat, b: nat)
    requires Span(p, r, iv) && Occurs(p, Use, u, r) && iv.first <= u <= b
    ensures iv.last >= b <==> exists k: nat :: b <= k && Mentions(p, r, k)
  {
    if iv.last >= b {
      assert Mentions(p, r, iv.last);
    }
  }

  lemma FirstIsLeast(p: Program, r: Reg, iv: Interval, u: nat)
    requires Span(p, r, iv)
    ensures iv.first <= u <==> Positions(p, Definition, r, u + 1) != []
  {
    PositionsFacts(p, Definition, r, u + 1);
    if iv.first <= u {
      assert iv.first in Positions(p, Definition, r, u + 1);
    }
    if Positions(p, Definition, r, u + 1) != [] {
      assert Positions(p, Definition, r, u + 1)[0] in Positions(p, Definition, r, u + 1);
    }
  }

  ghost predicate Reached(p: Program, range: (nat, nat), r: Reg) {
    forall u: nat | CarriedUse(p, range, r, u) :: CoveredIn(p, range, r)
  }

  lemma CarriedReaches(p: Program, facts: Ranges, range: (nat, nat), r: Reg, iv: Interval, u: nat)
    requires LivenessOf(p, facts) && r in facts && IsDefined(p, r) && Span(p, r, iv)
    requires CarriedUse(p, range, r, u)
    ensures iv.first <= u
    ensures ExtendOne(facts, r, iv, range).last >= range.1 <==> CoveredIn(p, range, r)
  {
    FirstIsLeast(p, r, iv, u);
    SpanReaches(p, r, iv, u, range.1);
    ExtendedReach(p, facts, range, r, iv);
  }

  /** One extended interval reaches far enough exactly when the register is covered. */
  lemma ReachExactly(p: Program, facts: Ranges, range: (nat, nat), r: Reg, iv: Interval)
    requires LivenessOf(p, facts) && r in facts && IsDefined(p, r) && !IsPredicate(r) && Span(p, r, iv)
    ensures Reach(p, RangeWithLabels(p, Some(range)), r, ExtendOne(facts, r, iv, range)) <==> Reached(p, range, r)
  {
    var l, e := RangeWithLabels(p, Some(range)), ExtendOne(facts, r, iv, range);
    ExtendedReach(p, facts, range, r, iv);
    forall u: nat | Occurs(p, Use, u, r) && iv.first <= u
      ensures u <= e.last && (InRange(l, u) <==> CarriedUse(p, range, r, u))
      ensures CarriedUse(p, range, r, u) ==> (l.hi <= e.last <==> CoveredIn(p, range, r))
    {
      UsesInRange(p, range.0, range.1, r, u);
      FirstIsLeast(p, r, iv, u);
      if CarriedUse(p, range, r, u) {
        CarriedReaches(p, facts, range, r, iv, u);
      }
    }
    forall u: nat | CarriedUse(p, range, r, u)
      ensures iv.first <= u
    {
      FirstIsLeast(p, r, iv, u);
    }
  }

  lemma DefinedSpans(p: Program, merged: Intervals, r: Reg, d: nat)
    requires Merged(p, merged) && Occurs(p, Definition, d, r) && !IsPredicate(r)
    ensures r in merged && IsDefined(p, r) && Span(p, r, merged[r]) && merged[r].first <= d <= merged[r].last
  {
    PositionsFacts(p, Definition, r, |p|);
    assert d in Positions(p, Definition, r, |p|);
  }

  lemma CarriedDefined(p: Program, range: (nat, nat), r: Reg, u: nat) returns (d: nat)
    requires CarriedUse(p, range, r, u)
    ensures Occurs(p, Definition, d, r)
  {
    PositionsFacts(p, Definition, r, u + 1);
    d := Positions(p, Definition, r, u + 1)[0];
    assert d in Positions(p, Definition, r, u + 1);
  }

  predicate Spans(iv: Intervals, r: Reg, d: nat) { r in iv && iv[r].first <= d <= iv[r].last }

  lemma DefinedProtected(p: Program, facts: Ranges, merged: Intervals, range: Option<(nat, nat)>, r: Reg, d: nat)
    requires LivenessOf(p, facts) && Merged(p, merged) && Occurs(p, Definition, d, r) && !IsPredicate(r)
    ensures
      var iv := ExtendOverLoops(facts, merged, range);
      && Spans(iv, r, d)
      && (Reach(p, RangeWithLabels(p, range), r, iv[r]) <==> (range.Some? ==> Reached(p, range.value, r)))
  {
    DefinedSpans(p, merged, r, d);
    if range.Some? {
      ExtendedReach(p, facts, range.value, r, merged[r]);
      ReachExactly(p, facts, range.value, r, merged[r]);
    }
  }

  lemma ReachedCovers(p: Program, range: (nat, nat))
    requires forall r: Reg, d: nat | Occurs(p, Definition, d, r) && !IsPredicate(r) :: Reached(p, range, r)
    ensures LoopsCovered(p, Some(range))
  {
    forall r: Reg, u: nat | CarriedUse(p, range, r, u)
      ensures CoveredIn(p, range, r)
    {
      var d := CarriedDefined(p, range, r, u);
      assert Reached(p, range, r);
    }
  }

  /** The extended intervals protect what the loops carry exactly when the loops are covered. */
  lemma ExtendedProtects(p: Program, range: Option<(nat, nat)>, iv: Intervals)
    requires ExtendedIntervals(p, range, iv)
    ensures Protects(p, RangeWithLabels(p, range), iv) <==> LoopsCovered(p, range)
  {
    var facts, merged :| LivenessOf(p, facts) && Merged(p, merged) && iv == ExtendOverLoops(facts, merged, range);
    var l := RangeWithLabels(p, range);
    if LoopsCovered(p, range) {
      forall r: Reg, d: nat | Occurs(p, Definition, d, r) && !IsPredicate(r)
        ensures Spans(iv, r, d) && Reach(p, l, r, iv[r])
      {
        DefinedProtected(p, facts, merged, range, r, d);
      }
    }
    if Protects(p, l, iv) && range.Some? {
      forall r: Reg, d: nat | Occurs(p, Definition, d, r) && !IsPredicate(r)
        ensures Reached(p, range.value, r)
      {
        DefinedProtected(p, facts, merged, range, r, d);
        assert Reach(p, l, r, iv[r]);
      }
      ReachedCovers(p, range.value);
    }
  }

  lemma AllocationColours(jobs: seq<Job>, iv: Intervals, m: Mapping)
    requires JobsOf(jobs, iv) && Allocation(jobs, m)
    ensures Colours(iv, m)
  {
    forall r, q | r in iv && q in iv && r != q && Overlap(iv[r], iv[q])
      ensures Apart(m, r, q)
    {
      assert HasJob(jobs, r) && HasJob(jobs, q);
      var i, j :| 0 <= i < |jobs| && 0 <= j < |jobs| && jobs[i].reg == r && jobs[j].reg == q;
      assert Overlap(jobs[i].iv, jobs[j].iv) && Overlap(jobs[j].iv, jobs[i].iv);
    }
  }

  /* ---------- the loop range contains the branches back ---------- */

  /** Every branch back in the text is a back edge of the control-flow graph. */
  ghost predicate Reducible(p: Program) {
    forall pc: nat, next: nat | BranchesTo(p, pc, next) && next <= pc :: G.BackEdge(CfgOf(p), BlockOf(p, pc), next)
  }

  lemma {:induction false} FirstInstruction(p: Program, t: nat, k: nat) returns (c: nat)
    requires t <= k < |p| && p[k].Code?
    ensures t <= c <= k && p[c].Code? && forall i | t <= i < c :: p[i].Label?
    decreases k - t
  {
    if p[t].Code? { c := t; } else { c := FirstInstruction(p, t + 1, k); }
  }

  lemma BranchInLoop(p: Program, g: G.Graph, pc: nat, next: nat)
    requires G.Valid(g) && pc < |p| && p[pc].Code? && G.BackEdge(g, BlockOf(p, pc), next)
    ensures InSomeLoop(p, g, pc)
  {
    var tail := BlockOf(p, pc);
    if tail != next {
      assert G.PathBetween(g, [tail], tail, tail);
    }
    assert InNaturalLoop(p, g, tail, next, pc);
  }

  /** The first instruction at or after the target of a back edge is in its loop. */
  lemma FirstInLoop(p: Program, pc: nat, next: nat, k: nat) returns (c: nat)
    requires next <= k <= pc < |p| && p[k].Code? && p[pc].Code? && BlockStart(p, next)
    requires G.BackEdge(CfgOf(p), BlockOf(p, pc), next)
    ensures next <= c <= k && InSomeLoop(p, CfgOf(p), c)
  {
    c := FirstInstruction(p, next, k);
    CfgValid(p);
    LabelsInLoop(p, CfgOf(p), BlockOf(p, pc), next, c, pc);
    assert InNaturalLoop(p, CfgOf(p), BlockOf(p, pc), next, c);
  }

  lemma BackEdgeInRange(p: Program, range: Option<(nat, nat)>, inside: nat -> bool, pc: nat, next: nat)
    requires Bounds(range, inside) && forall k: nat :: inside(k) <==> InSomeLoop(p, CfgOf(p), k)
    requires BranchesTo(p, pc, next) && next <= pc && G.BackEdge(CfgOf(p), BlockOf(p, pc), next)
    requires BlockStart(p, next)
    ensures range.Some? && range.value.0 <= pc <= range.value.1
    ensures forall k: nat | next <= k < range.value.0 :: k < |p| && p[k].Label?
  {
    CfgValid(p);
    BranchInLoop(p, CfgOf(p), pc, next);
    assert inside(pc);
    forall c: nat | InSomeLoop(p, CfgOf(p), c)
      ensures range.value.0 <= c
    {
      assert inside(c);
    }
    forall k: nat | next <= k < range.value.0
      ensures k < |p| && p[k].Label?
    {
      if p[k].Code? {
        var c := FirstInLoop(p, pc, next, k);
      }
    }
  }

  lemma {:induction false} LabelRunReaches(p: Program, a: nat, t: nat)
    requires t <= a <= |p| && forall k: nat | t <= k < a :: p[k].Label?
    ensures LabelRun(p, a) <= t
    decreases a
  {
    if t < a {
      LabelRunReaches(p, a - 1, t);
    }
  }

  lemma TargetStartsBlock(p: Program, pc: nat, next: nat)
    requires BranchesTo(p, pc, next)
    ensures BlockStart(p, next)
  {
  }

  lemma ReducibleInside(p: Program, range: Option<(nat, nat)>)
    requires WellFormed(p) && Reducible(p) && Bounds(range, (k: nat) => InSomeLoop(p, CfgOf(p), k))
    ensures BackwardInside(p, RangeWithLabels(p, range))
  {
    forall pc: nat, next: nat | BranchesTo(p, pc, next) && next <= pc
      ensures InRange(RangeWithLabels(p, range), next) && InRange(RangeWithLabels(p, range), pc)
    {
      TargetStartsBlock(p, pc, next);
      BackEdgeInRange(p, range, (k: nat) => InSomeLoop(p, CfgOf(p), k), pc, next);
      var a := range.value.0;
      if next <= a {
        LabelRunReaches(p, a, next);
      }
    }
  }

  /* ---------- the pass preserves meaning ---------- */

  /**
   Whatever its instructions compute and however often its loops iterate, the program does on the registers
   of the mapping what it does on virtual registers.
   */
  lemma AllocationPreserves<W(!new)>(p: Program, sem: Semantics<W>, mapping: Mapping, jobs: seq<Job>,
                               range: Option<(nat, nat)>, iv: Intervals, regs: Virtual, phys: Physical, w: W, n: nat)
    requires Allocated(p, mapping, jobs, range, iv) && WellFormed(p) && Respects(p, sem)
    requires DefinedFirst(p) && Reducible(p) && ForwardSafe(p, RangeWithLabels(p, range))
    requires LoopsCovered(p, range) && PressureBounded(jobs)
    ensures Simulates(p, RangeWithLabels(p, range), mapping,
                      VirtualRun(p, sem, Running(0, regs, w), n), PhysicalRun(p, sem, mapping, Running(0, phys, w), n))
  {
    ExtendedProtects(p, range, iv);
    var s: Scan :| ScansTo(jobs, s) && mapping == s.mapping;
    var states: seq<Scan> :| IsScan(jobs, states) && s == states[|jobs|];
    ScanAllocates(jobs, states);
    AllocationColours(jobs, iv, mapping);
    ReducibleInside(p, range);
    MappedRunSimulates(p, sem, RangeWithLabels(p, range), iv, mapping, regs, phys, w, n);
  }
}
