/**
 Without the pressure bound a pair can meet a free list of odd registers. The scan then lists a register that
 is in use as free, and gives it away a second time.
 */
module LinearScanHazard {
  import opened Isa
  import opened Ptx
  import opened Cfg
  import G = Graphs
  import opened Liveness
  import opened LoopRanges
  import opened LinearScan
  import opened LinearScanFacts
  import A = AllocationMeaning
  import opened RegisterAllocation

  /* ---------- a program that fills the registers ---------- */

  function Scalar(k: nat): Reg { Reg(RClass, k) }

  const Wide := Reg(RdClass, 0)
  const Late := Scalar(900)

  /** The register that item `k` defines. */
  function DefinedAt(k: nat): Reg { if k < 239 then Scalar(k) else if k == 239 then Wide else Late }

  /** The register that item `241 + j` stores. */
  function StoredAt(j: nat): Reg { if j == 2 || j == 4 then Late else Scalar(j) }

  function Compute(op: PureOp, d: Reg, operands: seq<Operand>): Instr {
    Instr(Pure(op), 0, false, Ty.U32, [RegOp(d)] + operands, None, false)
  }

  function InstrAt(k: nat): Instr {
    if k == 238 then Compute(Add, Scalar(238), [RegOp(Scalar(2)), RegOp(Scalar(4))])
    else if k < 241 then Compute(Mov, DefinedAt(k), [Imm(k)])
    else Instr(St, 0, false, Ty.U32, [Addr(StoredAt(k - 241)), RegOp(StoredAt(k - 241))], None, false)
  }

  /** 239 registers are set; the third and the fifth are used for the last time before a pair is set. */
  function Crowd(): (p: Program)
    ensures |p| == 480 && forall k | 0 <= k < 480 :: p[k] == Code(InstrAt(k))
  {
    seq(480, k requires 0 <= k < 480 => Code(InstrAt(k)))
  }

  /** The interval of the register that item `k` defines. */
  function IntervalAt(k: nat): Interval {
    if k == 2 || k == 4 then Interval(k, 238)
    else if k < 239 then Interval(k, 241 + k)
    else if k == 239 then Interval(239, 239)
    else Interval(240, 245)
  }

  function JobAt(k: nat): Job { Job(DefinedAt(k), IntervalAt(k)) }

  const Jobs: nat := 241

  /* ---------- its loops: none ---------- */

  lemma CrowdFormed()
    ensures WellFormed(Crowd())
    ensures forall i: nat :: BlockStart(Crowd(), i) <==> i == 0
    ensures SuccessorsAt(Crowd(), 0) == {}
  {
    var p := Crowd();
    assert forall i: nat | i < 480 :: p[i].Code? && !IsBra(p, i) && !IsRet(p, i);
    BlockEndFacts(p, 0);
    assert BlockEnd(p, 0) == 480;
  }

  lemma CrowdRange(range: Option<(nat, nat)>)
    requires Bounds(range, (k: nat) => InSomeLoop(Crowd(), CfgOf(Crowd()), k))
    ensures range.None?
  {
    CrowdFormed();
    CfgValid(Crowd());
    var inside := (k: nat) => InSomeLoop(Crowd(), CfgOf(Crowd()), k);
    forall k: nat
      ensures !inside(k)
    {
      if tail: nat, header: nat :| InNaturalLoop(Crowd(), CfgOf(Crowd()), tail, header, k) {
        assert false;
      }
    }
  }

  /* ---------- its intervals and jobs ---------- */

  lemma StoredRegs(r: Reg)
    ensures AllRegs([Addr(r), RegOp(r)]) == {r}
  {
    assert [Addr(r), RegOp(r)][1..] == [RegOp(r)] && [RegOp(r)][1..] == [];
    assert AllRegs([RegOp(r)]) == {r};
  }

  lemma CrowdOccurs(k: nat, r: Reg)
    ensures Occurs(Crowd(), Definition, k, r) <==> k < 241 && r == DefinedAt(k)
    ensures Occurs(Crowd(), Use, k, r) <==>
              (k == 238 && (r == Scalar(2) || r == Scalar(4))) || (241 <= k < 480 && r == StoredAt(k - 241))
  {
    if k == 238 {
      var used := [RegOp(Scalar(2)), RegOp(Scalar(4))];
      assert InstrAt(238).operands[1..] == used;
      assert used[1..] == [RegOp(Scalar(4))] && used[1..][1..] == [];
      assert AllRegs(used) == {Scalar(2), Scalar(4)};
    } else if k < 241 {
      assert InstrAt(k).operands[1..] == [Imm(k)] && [Imm(k)][1..] == [];
      assert AllRegs([Imm(k)]) == {};
    } else if k < 480 {
      StoredRegs(StoredAt(k - 241));
    }
  }

  lemma CrowdSpan(d: nat)
    requires d < Jobs
    ensures Span(Crowd(), DefinedAt(d), IntervalAt(d))
  {
    var r, iv := DefinedAt(d), IntervalAt(d);
    forall k: nat
      ensures Occurs(Crowd(), Definition, k, r) <==> k == d
      ensures Occurs(Crowd(), Use, k, r) ==> k <= iv.last
    {
      CrowdOccurs(k, r);
    }
    CrowdOccurs(iv.last, r);
  }

  lemma CrowdDefined(r: Reg)
    ensures IsDefined(Crowd(), r) <==> exists d: nat :: d < Jobs && DefinedAt(d) == r
  {
    var defs := Positions(Crowd(), Definition, r, 480);
    PositionsFacts(Crowd(), Definition, r, 480);
    if defs != [] {
      assert defs[0] in defs;
      CrowdOccurs(defs[0], r);
    }
    if d: nat :| d < Jobs && DefinedAt(d) == r {
      CrowdOccurs(d, r);
      assert d in defs;
    }
  }

  /** The intervals are those of the registers in the order of their definitions. */
  ghost predicate Lists(iv: A.Intervals, jobAt: nat -> Job, n: nat) {
    && (forall k: nat | k < n :: jobAt(k).reg in iv && jobAt(k).iv == iv[jobAt(k).reg] && jobAt(k).iv.first == k)
    && (forall r | r in iv :: exists k: nat :: k < n && jobAt(k).reg == r)
  }

  lemma CrowdLists(iv: A.Intervals)
    requires Merged(Crowd(), iv)
    ensures Lists(iv, JobAt, Jobs)
  {
    forall k: nat | k < Jobs
      ensures JobAt(k).reg in iv && JobAt(k).iv == iv[JobAt(k).reg]
    {
      CrowdDefined(DefinedAt(k));
      CrowdSpan(k);
      SpanUnique(Crowd(), DefinedAt(k), IntervalAt(k), iv[DefinedAt(k)]);
    }
    forall r | r in iv
      ensures exists k: nat :: k < Jobs && JobAt(k).reg == r
    {
      CrowdDefined(r);
      var d: nat :| d < Jobs && DefinedAt(d) == r;
      assert JobAt(d).reg == r;
    }
  }

  lemma FirstBound(jobs: seq<Job>, iv: A.Intervals, jobAt: nat -> Job, n: nat, k: nat)
    requires JobsOf(jobs, iv) && Lists(iv, jobAt, n) && k < |jobs|
    ensures jobs[k].iv.first < n && jobs[k] == jobAt(jobs[k].iv.first)
  {
    var r := jobs[k].reg;
    assert r in iv;
    var d: nat :| d < n && jobAt(d).reg == r;
  }

  /** Sorting leaves no choice when the first items differ. */
  lemma {:induction false} SortedJob(jobs: seq<Job>, iv: A.Intervals, jobAt: nat -> Job, n: nat, k: nat)
    requires JobsOf(jobs, iv) && Lists(iv, jobAt, n) && k < n
    ensures k < |jobs| && jobs[k] == jobAt(k)
  {
    assert HasJob(jobs, jobAt(k).reg);
    var i: nat :| i < |jobs| && jobs[i].reg == jobAt(k).reg;
    assert jobs[i] == jobAt(k);
    if i < k {
      SortedJob(jobs, iv, jobAt, n, i);
      assert false;
    }
    if k < i {
      FirstBound(jobs, iv, jobAt, n, k);
      assert Follows(jobs, k, i);
      var f := jobs[k].iv.first;
      assert f < k;
      SortedJob(jobs, iv, jobAt, n, f);
      JobUnique(jobs, f, k);
      assert false;
    }
  }

  lemma SortedJobs(jobs: seq<Job>, iv: A.Intervals, jobAt: nat -> Job, n: nat)
    requires JobsOf(jobs, iv) && Lists(iv, jobAt, n)
    ensures |jobs| == n && forall k: nat | k < n :: jobs[k] == jobAt(k)
  {
    forall k: nat | k < n
      ensures k < |jobs| && jobs[k] == jobAt(k)
    {
      SortedJob(jobs, iv, jobAt, n, k);
    }
    if |jobs| > n {
      FirstBound(jobs, iv, jobAt, n, n);
      var f := jobs[n].iv.first;
      SortedJob(jobs, iv, jobAt, n, f);
      JobUnique(jobs, f, n);
      assert false;
    }
    if |jobs| < n {
      SortedJob(jobs, iv, jobAt, n, |jobs|);
      assert false;
    }
  }

  /** The pass sees exactly these jobs, in this order. */
  ghost predicate CrowdJobs(jobs: seq<Job>) { |jobs| == Jobs && forall k: nat | k < Jobs :: jobs[k] == JobAt(k) }

  /* ---------- the scan ---------- */

  function HeldAfter(n: nat): (r: seq<Held>)
    ensures |r| == n && forall k | 0 <= k < n :: r[k] == Held(IntervalAt(k).last, k + 1)
  {
    seq(n, k requires 0 <= k < n => Held(IntervalAt(k).last, k + 1))
  }

  lemma {:induction false} NothingExpires(active: seq<Held>, now: nat)
    requires forall k | 0 <= k < |active| :: active[k].end >= now
    ensures Survivors(active, now) == active && Expired(active, now) == []
  {
    if active != [] {
      var rest, h := active[..|active| - 1], active[|active| - 1];
      NothingExpires(rest, now);
      assert rest + [h] == active;
    }
  }

  lemma ExpireNothing(s: Scan, now: nat)
    requires forall k | 0 <= k < |s.active| :: s.active[k].end >= now
    ensures Expire(s, now) == s
  {
    NothingExpires(s.active, now);
    assert s.free + [] == s.free;
  }

  /** The first `n` jobs have the first `n` registers. */
  ghost predicate Filled(s: Scan, n: nat)
    requires n <= MaxGpr
  {
    && s.free == AllFree()[..MaxGpr - n] && s.active == HeldAfter(n)
    && Wide !in s.mapping
    && (n > 3 ==> Scalar(3) in s.mapping && s.mapping[Scalar(3)] == 4)
  }

  lemma HoldNext(s: Scan, n: nat, after: Scan)
    requires n < MaxGpr && Filled(s, n) && after == Assign(s, JobAt(n))
    ensures after.free == AllFree()[..MaxGpr - (n + 1)] && after.active == HeldAfter(n + 1)
    ensures after.mapping == s.mapping[Scalar(n) := n + 1]
  {
    assert s.free[|s.free| - 1] == n + 1;
    assert s.free[..|s.free| - 1] == AllFree()[..MaxGpr - (n + 1)];
    assert HeldAfter(n) + [Held(IntervalAt(n).last, n + 1)] == HeldAfter(n + 1);
  }

  lemma TakeOne(s: Scan, n: nat, after: Scan)
    requires n < MaxGpr && Filled(s, n) && ServesNext(JobAt(n), s, after)
    ensures Filled(after, n + 1)
  {
    ExpireNothing(s, n);
    HoldNext(s, n, after);
  }

  lemma {:induction false} FirstFilled(jobs: seq<Job>, states: seq<Scan>, n: nat)
    requires n <= MaxGpr && CrowdJobs(jobs) && IsScan(jobs, states)
    ensures Filled(states[n], n)
  {
    if n > 0 {
      FirstFilled(jobs, states, n - 1);
      assert ServesNext(jobs[n - 1], states[n - 1], states[n - 1 + 1]);
      TakeOne(states[n - 1], n - 1, states[n]);
    } else {
      assert AllFree()[..MaxGpr] == AllFree();
    }
  }

  lemma {:induction false} TwoExpire(n: nat)
    requires n <= MaxGpr
    ensures Expired(HeldAfter(n), 239) == if n <= 2 then [] else if n <= 4 then [3] else [3, 5]
    ensures forall h | h in Survivors(HeldAfter(n), 239) :: h.end > 240
  {
    if n > 0 {
      TwoExpire(n - 1);
      assert HeldAfter(n)[..n - 1] == HeldAfter(n - 1);
    }
  }

  /** A pair that finds the odd registers 3 and 5 puts register 4 on the free list. */
  lemma OddRegisters(t: Scan, job: Job)
    requires t.free == [3, 5] && IsPairName(job.reg)
    ensures Hazard(t, job) && Assign(t, job) == t.(free := [3, 4])
  {
    assert !PairAt(t.free, 0) && !PairAt(t.free, 1);
    assert LastPair(t.free, 2).None?;
    assert t.free[..1] == [3];
    assert [3] + [4] == [3, 4];
  }

  /** The pair finds the odd registers 3 and 5; register 4, which is in use, is put on the free list. */
  lemma PairRequest(s: Scan, after: Scan)
    requires Filled(s, MaxGpr) && ServesNext(JobAt(239), s, after)
    ensures Hazard(Expire(s, 239), JobAt(239))
    ensures after.free == [3, 4] && after.mapping == s.mapping && forall h | h in after.active :: h.end > 240
  {
    hide Assign, Hazard;
    TwoExpire(MaxGpr);
    var t := Expire(s, 239);
    assert s.free == [];
    assert t.free == [3, 5];
    OddRegisters(t, JobAt(239));
  }

  lemma LateRequest(s: Scan, after: Scan)
    requires s.free == [3, 4] && (forall h | h in s.active :: h.end > 240) && ServesNext(JobAt(240), s, after)
    ensures after.mapping == s.mapping[Late := 4]
  {
    assert forall k | 0 <= k < |s.active| :: s.active[k] in s.active;
    ExpireNothing(s, 240);
  }

  lemma CrowdScan(jobs: seq<Job>, states: seq<Scan>)
    requires CrowdJobs(jobs) && IsScan(jobs, states)
    ensures MeetsHazard(jobs, states, 239) && Wide !in states[241].mapping
    ensures Late in states[241].mapping && Scalar(3) in states[241].mapping
    ensures states[241].mapping[Late] == 4 && states[241].mapping[Scalar(3)] == 4
  {
    FirstFilled(jobs, states, 239);
    assert ServesNext(jobs[239], states[239], states[239 + 1]);
    assert ServesNext(jobs[240], states[240], states[240 + 1]);
    PairRequest(states[239], states[240]);
    LateRequest(states[240], states[241]);
  }

  lemma CrowdPass(mapping: Mapping, jobs: seq<Job>, range: Option<(nat, nat)>, iv: A.Intervals)
    requires Allocated(Crowd(), mapping, jobs, range, iv)
    ensures range.None? && Lists(iv, JobAt, Jobs) && CrowdJobs(jobs)
  {
    CrowdFormed();
    CrowdRange(range);
    CrowdLists(iv);
    SortedJobs(jobs, iv, JobAt, Jobs);
  }

  lemma CrowdMapping(jobs: seq<Job>, mapping: Mapping)
    requires CrowdJobs(jobs) && Ordered(jobs) && ScannedTo(jobs, mapping)
    ensures Scalar(3) in mapping && Late in mapping && mapping[Scalar(3)] == mapping[Late] == 4
    ensures Wide !in mapping && !PressureBounded(jobs)
  {
    var s: Scan :| ScansTo(jobs, s) && mapping == s.mapping;
    var states: seq<Scan> :| IsScan(jobs, states) && s == states[|jobs|];
    CrowdScan(jobs, states);
    if PressureBounded(jobs) {
      JobServed(jobs, states, 239);
      assert false;
    }
  }

  lemma CrowdIntervals(iv: A.Intervals)
    requires Lists(iv, JobAt, Jobs)
    ensures Wide in iv && Scalar(3) in iv && Late in iv && Overlap(iv[Scalar(3)], iv[Late])
  {
    assert JobAt(3).reg in iv && JobAt(239).reg in iv && JobAt(240).reg in iv;
  }

  lemma NotColoured(iv: A.Intervals, mapping: Mapping, r: Reg, q: Reg)
    requires r in iv && q in iv && r != q && Overlap(iv[r], iv[q])
    requires r in mapping && q in mapping && mapping[r] == mapping[q]
    ensures !A.Colours(iv, mapping)
  {
    assert mapping[r] in PhysOf(r, mapping[r]) && mapping[r] in PhysOf(q, mapping[q]);
    assert !A.Apart(mapping, r, q);
  }

  /**
   The pass maps the fourth register and the late one to register 4 although both are live at item 240, and
   leaves the pair without registers.
   */
  lemma CrowdMeetsHazard(mapping: Mapping, jobs: seq<Job>, range: Option<(nat, nat)>, iv: A.Intervals)
    requires Allocated(Crowd(), mapping, jobs, range, iv)
    ensures Scalar(3) in iv && Late in iv && Overlap(iv[Scalar(3)], iv[Late])
    ensures Scalar(3) in mapping && Late in mapping && mapping[Scalar(3)] == mapping[Late] == 4
    ensures Wide in iv && Wide !in mapping && !A.Colours(iv, mapping) && !PressureBounded(jobs)
  {
    CrowdPass(mapping, jobs, range, iv);
    CrowdIntervals(iv);
    CrowdMapping(jobs, mapping);
    NotColoured(iv, mapping, Scalar(3), Late);
  }
}
