/** What the linear scan keeps: a partition of the registers, disjoint overlapping jobs, and totality. */
module LinearScanFacts {
  import opened Isa
  import opened Ptx
  import S = Sequences
  import opened Liveness
  import opened LinearScan

  /* ---------- the free list and the active list partition the registers ---------- */

  function HeldCount(active: seq<Held>, x: nat): nat {
    if active == [] then 0
    else HeldCount(active[..|active| - 1], x) + (if active[|active| - 1].phys == x then 1 else 0)
  }

  /** How often `x` is listed. */
  function Count(s: Scan, x: nat): nat { S.Occurs(s.free, x) + HeldCount(s.active, x) }

  /** Every usable register is listed once, free or in use, and no other is listed. */
  ghost predicate Partitioned(s: Scan) {
    forall x: nat :: Count(s, x) == if 1 <= x <= MaxGpr then 1 else 0
  }

  lemma {:induction false} OccursIn(s: seq<nat>, x: nat)
    ensures S.Occurs(s, x) > 0 <==> x in s
  {
    if s != [] {
      OccursIn(s[1..], x);
    }
  }

  lemma OccursSplit(s: seq<nat>, i: nat, x: nat)
    requires i < |s|
    ensures S.Occurs(s, x) == S.Occurs(Drop(s, i), x) + (if s[i] == x then 1 else 0)
  {
    assert s == s[..i] + ([s[i]] + s[i + 1..]);
    S.OccursAppend(s[..i], [s[i]] + s[i + 1..], x);
    S.OccursAppend([s[i]], s[i + 1..], x);
    S.OccursAppend(s[..i], s[i + 1..], x);
  }

  lemma OccursLast(s: seq<nat>, x: nat)
    requires s != []
    ensures S.Occurs(s, x) == S.Occurs(s[..|s| - 1], x) + (if s[|s| - 1] == x then 1 else 0)
  {
    OccursSplit(s, |s| - 1, x);
    assert Drop(s, |s| - 1) == s[..|s| - 1];
  }

  lemma {:induction false} HeldCountIn(active: seq<Held>, x: nat)
    ensures HeldCount(active, x) > 0 <==> exists h :: h in active && h.phys == x
  {
    if active != [] {
      var rest := active[..|active| - 1];
      assert active == rest + [active[|active| - 1]];
      HeldCountIn(rest, x);
    }
  }

  lemma HeldOne(active: seq<Held>, h: Held, x: nat)
    ensures HeldCount(active + [h], x) == HeldCount(active, x) + (if h.phys == x then 1 else 0)
  {
    assert (active + [h])[..|active|] == active;
  }

  lemma {:induction false} ExpireCount(active: seq<Held>, now: nat, x: nat)
    ensures HeldCount(Survivors(active, now), x) + S.Occurs(Expired(active, now), x) == HeldCount(active, x)
  {
    if active != [] {
      var rest, h := active[..|active| - 1], active[|active| - 1];
      ExpireCount(rest, now, x);
      if h.end < now {
        S.OccursAppend(Expired(rest, now), [h.phys], x);
        assert Survivors(active, now) == Survivors(rest, now);
      } else {
        HeldOne(Survivors(rest, now), h, x);
        assert Expired(active, now) == Expired(rest, now);
      }
    }
  }

  lemma {:induction false} SurvivorsFacts(active: seq<Held>, now: nat)
    ensures forall h: Held :: h in Survivors(active, now) <==> h in active && h.end >= now
  {
    if active != [] {
      var rest := active[..|active| - 1];
      assert active == rest + [active[|active| - 1]];
      SurvivorsFacts(rest, now);
    }
  }

  lemma ExpireKeepsPartition(s: Scan, now: nat)
    requires Partitioned(s)
    ensures Partitioned(Expire(s, now))
  {
    forall x: nat
      ensures Count(Expire(s, now), x) == Count(s, x)
    {
      S.OccursAppend(s.free, Expired(s.active, now), x);
      ExpireCount(s.active, now, x);
    }
  }

  lemma DropTwoCount(s: seq<nat>, i: nat, j: nat, x: nat)
    requires i < |s| && j < |s| && i != j
    ensures S.Occurs(s, x) == S.Occurs(DropTwo(s, i, j), x) + (if s[i] == x then 1 else 0) + (if s[j] == x then 1 else 0)
  {
    if i > j {
      OccursSplit(s, i, x);
      OccursSplit(Drop(s, i), j, x);
    } else {
      OccursSplit(s, j, x);
      OccursSplit(Drop(s, j), i, x);
    }
  }

  /* ---------- one assignment ---------- */

  /** The registers of a mapped register: two for a pair. */
  function PhysOf(r: Reg, m: nat): set<nat> { if IsPairName(r) then {m, m + 1} else {m} }

  predicate Aligned(r: Reg, m: nat) {
    if IsPairName(r) then m % 2 == 0 && 2 <= m && m + 1 <= MaxGpr else 1 <= m <= MaxGpr
  }

  function HeldFor(job: Job, m: nat): seq<Held> {
    if IsPairName(job.reg) then [Held(job.iv.last, m), Held(job.iv.last, m + 1)] else [Held(job.iv.last, m)]
  }

  /** `job` has been given the free register (or pair) `m`. */
  ghost predicate Granted(s: Scan, job: Job, m: nat, after: Scan) {
    && Aligned(job.reg, m) && (forall x | x in PhysOf(job.reg, m) :: x in s.free)
    && after.mapping == s.mapping[job.reg := m]
    && after.active == s.active + HeldFor(job, m)
    && Partitioned(after)
  }

  /** A pair is requested, no aligned pair is free, and the last free register is odd. */
  predicate Hazard(s: Scan, job: Job) {
    && IsPairName(job.reg) && LastPair(s.free, |s.free|).None?
    && |s.free| >= 2 && s.free[|s.free| - 1] % 2 == 1
  }

  /** Whether a register or an aligned pair can be found. */
  predicate Available(s: Scan, job: Job) {
    if IsPairName(job.reg) then LastPair(s.free, |s.free|).Some? else s.free != []
  }

  lemma FreeIsUsable(s: Scan, x: nat)
    requires Partitioned(s) && x in s.free
    ensures 1 <= x <= MaxGpr && S.Occurs(s.free, x) == 1 && HeldCount(s.active, x) == 0
  {
    OccursIn(s.free, x);
    assert Count(s, x) > 0;
  }

  lemma GrantOne(s: Scan, job: Job)
    requires Partitioned(s) && !IsPairName(job.reg) && s.free != []
    ensures Granted(s, job, s.free[|s.free| - 1], Assign(s, job))
  {
    var m, after := s.free[|s.free| - 1], Assign(s, job);
    FreeIsUsable(s, m);
    forall x: nat
      ensures Count(after, x) == Count(s, x)
    {
      OccursLast(s.free, x);
      HeldOne(s.active, Held(job.iv.last, m), x);
    }
  }

  lemma MovePairCount(s: Scan, job: Job, i: nat, j: nat, x: nat)
    requires i < |s.free| && j < |s.free| && i != j && s.free[j] == s.free[i] + 1
    ensures Count(HoldPair(s.(free := DropTwo(s.free, i, j)), job, s.free[i]), x) == Count(s, x)
  {
    var first, second := Held(job.iv.last, s.free[i]), Held(job.iv.last, s.free[i] + 1);
    assert s.active + [first, second] == s.active + [first] + [second];
    DropTwoCount(s.free, i, j, x);
    HeldOne(s.active, first, x);
    HeldOne(s.active + [first], second, x);
  }

  lemma UsablePair(s: Scan, r: Reg, m: nat)
    requires Partitioned(s) && IsPairName(r) && m in s.free && m + 1 in s.free && m % 2 == 0
    ensures Aligned(r, m)
  {
    FreeIsUsable(s, m);
    FreeIsUsable(s, m + 1);
  }

  lemma AssignFoundPair(s: Scan, job: Job, i: nat)
    requires Partitioned(s) && IsPairName(job.reg) && LastPair(s.free, |s.free|) == Some(i)
    ensures
      var m, j := s.free[i], FirstIndex(s.free, s.free[i] + 1);
      Assign(s, job) == HoldPair(s.(free := DropTwo(s.free, i, j)), job, m) && Aligned(job.reg, m)
  {
    hide Partitioned, HoldPair, DropTwo, Fallback;
    UsablePair(s, job.reg, s.free[i]);
  }

  lemma GrantPair(s: Scan, job: Job, i: nat)
    requires Partitioned(s) && IsPairName(job.reg) && LastPair(s.free, |s.free|) == Some(i)
    ensures Granted(s, job, s.free[i], Assign(s, job))
  {
    AssignFoundPair(s, job, i);
    PairGranted(s, job, i, FirstIndex(s.free, s.free[i] + 1), Assign(s, job));
  }

  lemma PairGranted(s: Scan, job: Job, i: nat, j: nat, after: Scan)
    requires Partitioned(s) && IsPairName(job.reg) && i < |s.free| && j < |s.free| && i != j
    requires s.free[j] == s.free[i] + 1 && Aligned(job.reg, s.free[i])
    requires after == HoldPair(s.(free := DropTwo(s.free, i, j)), job, s.free[i])
    ensures Granted(s, job, s.free[i], after)
  {
    forall x: nat
      ensures Count(after, x) == Count(s, x)
    {
      MovePairCount(s, job, i, j, x);
    }
  }

  /** A popped odd register is replaced by its even neighbour, which is in use or reserved. */
  lemma FallbackLosesOdd(s: Scan, job: Job, rest: seq<nat>, popped: nat)
    requires Partitioned(s) && s.free == rest + [popped] && rest != [] && popped % 2 == 1
    ensures Fallback(s, job) == s.(free := rest + [popped - 1])
    ensures !Partitioned(s.(free := rest + [popped - 1]))
  {
    FreeIsUsable(s, popped);
    OccursLast(s.free, popped);
    assert s.free[..|rest|] == rest;
    OccursIn(rest, popped);
    S.OccursAppend(rest, [popped - 1], popped);
    assert Count(s.(free := rest + [popped - 1]), popped) == 0;
  }

  lemma FallbackKeepsEven(s: Scan, job: Job, rest: seq<nat>, popped: nat)
    requires s.free == rest + [popped] && popped % 2 == 0 && !PairAt(s.free, |rest|)
    ensures Fallback(s, job) == s
  {
    assert s.free[..|rest|] == rest;
  }

  lemma AssignFallsBack(s: Scan, job: Job)
    requires IsPairName(job.reg) && LastPair(s.free, |s.free|).None?
    ensures Assign(s, job) == Fallback(s, job)
  {
  }

  /** The fallback never serves a pair: it leaves the state as it is or lists a register twice. */
  lemma FallbackFails(s: Scan, job: Job)
    requires Partitioned(s) && IsPairName(job.reg) && LastPair(s.free, |s.free|).None?
    ensures Assign(s, job).mapping == s.mapping && Assign(s, job).active == s.active
    ensures Hazard(s, job) ==> !Partitioned(Assign(s, job))
    ensures !Hazard(s, job) ==> Assign(s, job) == s
  {
    AssignFallsBack(s, job);
    if |s.free| >= 2 {
      var rest, popped := s.free[..|s.free| - 1], s.free[|s.free| - 1];
      FallbackCases(s, job, Fallback(s, job), rest, popped);
    }
  }

  lemma FallbackCases(s: Scan, job: Job, after: Scan, rest: seq<nat>, popped: nat)
    requires Partitioned(s) && LastPair(s.free, |s.free|).None? && after == Fallback(s, job)
    requires s.free == rest + [popped] && rest != []
    ensures popped % 2 == 0 ==> after == s
    ensures popped % 2 == 1 ==> !Partitioned(after) && after.mapping == s.mapping && after.active == s.active
  {
    if popped % 2 == 0 {
      FallbackKeepsEven(s, job, rest, popped);
    } else {
      FallbackLosesOdd(s, job, rest, popped);
    }
  }

  /** One assignment keeps the partition exactly when it is not the hazard. */
  lemma AssignPartitionedExactly(s: Scan, job: Job)
    requires Partitioned(s)
    ensures Partitioned(Assign(s, job)) <==> !Hazard(s, job)
  {
    if Available(s, job) {
      if IsPairName(job.reg) {
        GrantPair(s, job, LastPair(s.free, |s.free|).value);
      } else {
        GrantOne(s, job);
      }
    } else if IsPairName(job.reg) {
      FallbackFails(s, job);
    }
  }

  /* ---------- what holds after every job ---------- */

  /** One job per register, by first definition. */
  predicate Ordered(jobs: seq<Job>) {
    && (forall i: nat, j: nat | i < j < |jobs| :: Follows(jobs, i, j))
    && (forall j | 0 <= j < |jobs| :: jobs[j].iv.first <= jobs[j].iv.last)
  }

  predicate Follows(jobs: seq<Job>, i: nat, j: nat)
    requires i < j < |jobs|
  {
    jobs[i].reg != jobs[j].reg && jobs[i].iv.first <= jobs[j].iv.first
  }

  lemma EarlierDiffer(jobs: seq<Job>, n: nat)
    requires n < |jobs| && Ordered(jobs)
    ensures forall j: nat | j < n :: jobs[j].reg != jobs[n].reg && jobs[j].iv.first <= jobs[n].iv.first
  {
    forall j: nat | j < n
      ensures jobs[j].reg != jobs[n].reg && jobs[j].iv.first <= jobs[n].iv.first
    {
      assert Follows(jobs, j, n);
    }
  }

  /** Job `j` has the registers that start at `s.mapping` of its register. */
  predicate Placed(jobs: seq<Job>, s: Scan, j: nat)
    requires j < |jobs|
  {
    jobs[j].reg in s.mapping
  }

  function RegsOfJob(jobs: seq<Job>, s: Scan, j: nat): set<nat>
    requires j < |jobs| && Placed(jobs, s, j)
  {
    PhysOf(jobs[j].reg, s.mapping[jobs[j].reg])
  }

  predicate Owns(jobs: seq<Job>, s: Scan, j: nat, h: Held)
    requires j < |jobs|
  {
    Placed(jobs, s, j) && h.end == jobs[j].iv.last && h.phys in RegsOfJob(jobs, s, j)
  }

  ghost predicate Accounted(jobs: seq<Job>, n: nat, s: Scan)
    requires n <= |jobs|
  {
    && (forall r | r in s.mapping :: exists j :: 0 <= j < n && jobs[j].reg == r)
    && (forall h: Held | h in s.active :: exists j: nat :: j < n && Owns(jobs, s, j, h))
  }

  ghost predicate StillHeld(jobs: seq<Job>, n: nat, s: Scan, now: nat)
    requires n <= |jobs|
  {
    forall j: nat, x: nat | j < n && Placed(jobs, s, j) && jobs[j].iv.last >= now && x in RegsOfJob(jobs, s, j) ::
      Held(jobs[j].iv.last, x) in s.active
  }

  ghost predicate AllAligned(jobs: seq<Job>, n: nat, s: Scan)
    requires n <= |jobs|
  {
    forall j: nat | j < n && Placed(jobs, s, j) :: Aligned(jobs[j].reg, s.mapping[jobs[j].reg])
  }

  /** Jobs that overlap share no register. */
  ghost predicate InterferenceFree(jobs: seq<Job>, n: nat, s: Scan)
    requires n <= |jobs|
  {
    forall i: nat, j: nat |
      i < j < n && Placed(jobs, s, i) && Placed(jobs, s, j) && Overlap(jobs[i].iv, jobs[j].iv) ::
      RegsOfJob(jobs, s, i) !! RegsOfJob(jobs, s, j)
  }

  ghost predicate Sound(jobs: seq<Job>, n: nat, s: Scan, now: nat)
    requires n <= |jobs|
  {
    Partitioned(s) && Accounted(jobs, n, s) && StillHeld(jobs, n, s, now) && AllAligned(jobs, n, s)
    && InterferenceFree(jobs, n, s)
  }

  lemma ExpireKeepsSound(jobs: seq<Job>, n: nat, s: Scan, now: nat, later: nat)
    requires n <= |jobs| && Sound(jobs, n, s, now) && now <= later
    ensures Sound(jobs, n, Expire(s, later), later)
    ensures forall h: Held | h in Expire(s, later).active :: h.end >= later
  {
    var t := Expire(s, later);
    ExpireKeepsPartition(s, later);
    SurvivorsFacts(s.active, later);
    forall h: Held | h in t.active
      ensures exists j: nat :: j < n && Owns(jobs, t, j, h)
    {
      var j: nat :| j < n && Owns(jobs, s, j, h);
      assert Owns(jobs, t, j, h);
    }
  }

  lemma SkipKeepsSound(jobs: seq<Job>, n: nat, s: Scan, now: nat)
    requires n < |jobs| && Ordered(jobs) && Sound(jobs, n, s, now)
    ensures Sound(jobs, n + 1, s, now) && !Placed(jobs, s, n)
  {
    EarlierDiffer(jobs, n);
    forall h: Held | h in s.active
      ensures exists j: nat :: j < n + 1 && Owns(jobs, s, j, h)
    {
      var j: nat :| j < n && Owns(jobs, s, j, h);
    }
  }

  lemma FreeNotHeld(s: Scan, x: nat, h: Held)
    requires Partitioned(s) && x in s.free && h in s.active
    ensures h.phys != x
  {
    FreeIsUsable(s, x);
    HeldCountIn(s.active, x);
  }

  /** Earlier jobs keep their registers when job `n` is granted some. */
  lemma GrantKeepsPlaces(jobs: seq<Job>, n: nat, s: Scan, m: nat, after: Scan)
    requires n < |jobs| && Ordered(jobs) && Granted(s, jobs[n], m, after)
    ensures Placed(jobs, after, n) && RegsOfJob(jobs, after, n) == PhysOf(jobs[n].reg, m)
    ensures forall j: nat | j < n :: Placed(jobs, after, j) == Placed(jobs, s, j)
    ensures forall j: nat | j < n && Placed(jobs, s, j) ::
              after.mapping[jobs[j].reg] == s.mapping[jobs[j].reg]
              && RegsOfJob(jobs, after, j) == RegsOfJob(jobs, s, j)
  {
    EarlierDiffer(jobs, n);
  }

  lemma GrantKeepsAccounted(jobs: seq<Job>, n: nat, s: Scan, m: nat, after: Scan)
    requires n < |jobs| && Ordered(jobs) && Accounted(jobs, n, s) && Granted(s, jobs[n], m, after)
    ensures Accounted(jobs, n + 1, after)
  {
    GrantKeepsPlaces(jobs, n, s, m, after);
    forall h: Held | h in after.active
      ensures exists j: nat :: j < n + 1 && Owns(jobs, after, j, h)
    {
      if h in s.active {
        var j: nat :| j < n && Owns(jobs, s, j, h);
        assert Owns(jobs, after, j, h);
      } else {
        assert Owns(jobs, after, n, h);
      }
    }
    forall r | r in after.mapping
      ensures exists j :: 0 <= j < n + 1 && jobs[j].reg == r
    {
      if r != jobs[n].reg {
        var j :| 0 <= j < n && jobs[j].reg == r;
      }
    }
  }

  lemma GrantKeepsHeld(jobs: seq<Job>, n: nat, s: Scan, now: nat, m: nat, after: Scan)
    requires n < |jobs| && Ordered(jobs) && StillHeld(jobs, n, s, now) && Granted(s, jobs[n], m, after)
    ensures StillHeld(jobs, n + 1, after, now)
  {
    GrantKeepsPlaces(jobs, n, s, m, after);
    assert forall h | h in s.active || h in HeldFor(jobs[n], m) :: h in after.active;
    forall j: nat, x: nat |
        j < n + 1 && Placed(jobs, after, j) && jobs[j].iv.last >= now && x in RegsOfJob(jobs, after, j)
      ensures Held(jobs[j].iv.last, x) in after.active
    {
      if j == n {
        assert Held(jobs[n].iv.last, x) in HeldFor(jobs[n], m);
      }
    }
  }

  lemma GrantKeepsInterferenceFree(jobs: seq<Job>, n: nat, s: Scan, m: nat, after: Scan)
    requires n < |jobs| && Ordered(jobs) && Partitioned(s) && Granted(s, jobs[n], m, after)
    requires InterferenceFree(jobs, n, s) && StillHeld(jobs, n, s, jobs[n].iv.first)
    ensures InterferenceFree(jobs, n + 1, after)
  {
    GrantKeepsPlaces(jobs, n, s, m, after);
    forall i: nat | i < n && Placed(jobs, after, i) && Overlap(jobs[i].iv, jobs[n].iv)
      ensures RegsOfJob(jobs, after, i) !! RegsOfJob(jobs, after, n)
    {
      forall x | x in RegsOfJob(jobs, after, i)
        ensures x !in RegsOfJob(jobs, after, n)
      {
        assert Held(jobs[i].iv.last, x) in s.active;
        if x in s.free {
          FreeNotHeld(s, x, Held(jobs[i].iv.last, x));
        }
      }
    }
  }

  lemma GrantKeepsSound(jobs: seq<Job>, n: nat, s: Scan, m: nat, after: Scan)
    requires n < |jobs| && Ordered(jobs) && Sound(jobs, n, s, jobs[n].iv.first) && Granted(s, jobs[n], m, after)
    ensures Sound(jobs, n + 1, after, jobs[n].iv.first) && Placed(jobs, after, n)
  {
    GrantKeepsPlaces(jobs, n, s, m, after);
    GrantKeepsAccounted(jobs, n, s, m, after);
    GrantKeepsHeld(jobs, n, s, jobs[n].iv.first, m, after);
    GrantKeepsInterferenceFree(jobs, n, s, m, after);
  }

  function Now(jobs: seq<Job>, n: nat): nat
    requires n <= |jobs|
  {
    if n == 0 then 0 else jobs[n - 1].iv.first
  }

  lemma InitialSound(jobs: seq<Job>)
    ensures Sound(jobs, 0, Fresh(), 0)
  {
    forall x: nat
      ensures Count(Fresh(), x) == if 1 <= x <= MaxGpr then 1 else 0
    {
      OccursDescending(MaxGpr, x);
      assert AllFree() == Descending(MaxGpr);
    }
  }

  function Descending(n: nat): (r: seq<nat>)
    ensures |r| == n && forall k | 0 <= k < n :: r[k] == n - k
  {
    if n == 0 then [] else [n] + Descending(n - 1)
  }

  lemma {:induction false} OccursDescending(n: nat, x: nat)
    ensures S.Occurs(Descending(n), x) == if 1 <= x <= n then 1 else 0
  {
    if n > 0 {
      OccursDescending(n - 1, x);
      assert Descending(n)[1..] == Descending(n - 1);
    }
  }

  /** Serving job `n` without the hazard keeps everything; the job is placed when it can be. */
  lemma ServeSound(jobs: seq<Job>, n: nat, s: Scan, after: Scan)
    requires n < |jobs| && Ordered(jobs) && Sound(jobs, n, s, jobs[n].iv.first)
    requires !Hazard(s, jobs[n]) && after == Assign(s, jobs[n])
    ensures Sound(jobs, n + 1, after, jobs[n].iv.first)
    ensures Placed(jobs, after, n) <==> Available(s, jobs[n])
  {
    var job := jobs[n];
    if Available(s, job) {
      if IsPairName(job.reg) {
        var i := LastPair(s.free, |s.free|).value;
        GrantPair(s, job, i);
        GrantKeepsSound(jobs, n, s, s.free[i], after);
      } else {
        GrantOne(s, job);
        GrantKeepsSound(jobs, n, s, s.free[|s.free| - 1], after);
      }
    } else {
      if IsPairName(job.reg) {
        FallbackFails(s, job);
      }
      SkipKeepsSound(jobs, n, s, jobs[n].iv.first);
    }
  }

  /** The state in which job `n` is served. */
  function Before(jobs: seq<Job>, states: seq<Scan>, n: nat): Scan
    requires n < |jobs| && n < |states|
  {
    Expire(states[n], jobs[n].iv.first)
  }

  predicate MeetsHazard(jobs: seq<Job>, states: seq<Scan>, n: nat)
    requires n < |jobs| && n < |states|
  {
    Hazard(Before(jobs, states, n), jobs[n])
  }

  lemma StepSound(jobs: seq<Job>, n: nat, s: Scan, next: Scan)
    requires n < |jobs| && Ordered(jobs) && Sound(jobs, n, s, Now(jobs, n)) && ServesNext(jobs[n], s, next)
    requires !Hazard(Expire(s, jobs[n].iv.first), jobs[n])
    ensures Sound(jobs, n + 1, next, Now(jobs, n + 1))
    ensures Placed(jobs, next, n) <==> Available(Expire(s, jobs[n].iv.first), jobs[n])
  {
    assert n > 0 ==> Follows(jobs, n - 1, n);
    ExpireKeepsSound(jobs, n, s, Now(jobs, n), jobs[n].iv.first);
    ServeSound(jobs, n, Expire(s, jobs[n].iv.first), next);
  }

  /** As long as no job meets the hazard, everything stays sound. */
  lemma {:induction false} ScanSound(jobs: seq<Job>, states: seq<Scan>, n: nat)
    requires IsScan(jobs, states) && Ordered(jobs) && n <= |jobs|
    requires forall j: nat | j < n :: !MeetsHazard(jobs, states, j)
    ensures Sound(jobs, n, states[n], Now(jobs, n))
  {
    if n == 0 {
      InitialSound(jobs);
    } else {
      ScanSound(jobs, states, n - 1);
      assert ServesNext(jobs[n - 1], states[n - 1], states[n - 1 + 1]);
      assert !MeetsHazard(jobs, states, n - 1);
      StepSound(jobs, n - 1, states[n - 1], states[n]);
    }
  }

  /** The scan accounts for every register at every job exactly when no job meets the hazard. */
  lemma ScanPartitionedExactly(jobs: seq<Job>, states: seq<Scan>)
    requires IsScan(jobs, states) && Ordered(jobs)
    ensures (forall j: nat | j < |jobs| :: !MeetsHazard(jobs, states, j)) <==>
            (forall j: nat | j <= |jobs| :: Partitioned(states[j]))
  {
    if forall j: nat | j < |jobs| :: !MeetsHazard(jobs, states, j) {
      forall j: nat | j <= |jobs|
        ensures Partitioned(states[j])
      {
        ScanSound(jobs, states, j);
      }
    }
    if forall j: nat | j <= |jobs| :: Partitioned(states[j]) {
      forall j: nat | j < |jobs|
        ensures !MeetsHazard(jobs, states, j)
      {
        assert ServesNext(jobs[j], states[j], states[j + 1]);
        assert Partitioned(states[j]);
        ExpireKeepsPartition(states[j], jobs[j].iv.first);
        AssignPartitionedExactly(Expire(states[j], jobs[j].iv.first), jobs[j]);
      }
    }
  }

  /* ---------- pressure ---------- */

  const AlignedPairs: nat := 119

  /** The jobs whose interval contains item `t`. */
  function At(jobs: seq<Job>, t: nat): set<nat> {
    set j: nat | j < |jobs| && jobs[j].iv.first <= t <= jobs[j].iv.last
  }

  /** No item lies in more than 119 intervals. */
  ghost predicate PressureBounded(jobs: seq<Job>) { forall t: nat :: |At(jobs, t)| <= AlignedPairs }

  lemma {:induction false} ImageSize(a: set<nat>, f: nat -> nat)
    ensures |set x | x in a :: f(x)| <= |a|
    decreases |a|
  {
    if a != {} {
      var y :| y in a;
      var b := a - {y};
      ImageSize(b, f);
      assert (set x | x in a :: f(x)) == (set x | x in b :: f(x)) + {f(y)};
    }
  }

  /** Fewer than 119 aligned pairs leave one out. */
  lemma SomePairLeft(pairs: set<nat>) returns (k: nat)
    requires |pairs| < AlignedPairs
    ensures 1 <= k <= AlignedPairs && k !in pairs
  {
    var all := S.Range(AlignedPairs + 1) - {0};
    if forall k | k in all :: k in pairs {
      S.SubsetSize(all, pairs);
    }
    k :| k in all && k !in pairs;
  }

  /** The aligned pair that a placed job touches. */
  function PairOf(jobs: seq<Job>, s: Scan, j: nat): nat {
    if j < |jobs| && Placed(jobs, s, j) then s.mapping[jobs[j].reg] / 2 else 0
  }

  lemma OwnerTouches(jobs: seq<Job>, n: nat, s: Scan, j: nat, h: Held)
    requires j < n <= |jobs| && AllAligned(jobs, n, s) && Owns(jobs, s, j, h)
    ensures PairOf(jobs, s, j) == h.phys / 2
  {
  }

  lemma PairFree(s: Scan, k: nat)
    requires Partitioned(s) && 1 <= k <= AlignedPairs && forall h | h in s.active :: h.phys / 2 != k
    ensures 2 * k in s.free && 2 * k + 1 in s.free
    ensures LastPair(s.free, |s.free|).Some?
  {
    assert Count(s, 2 * k) == 1 && Count(s, 2 * k + 1) == 1;
    HeldCountIn(s.active, 2 * k);
    HeldCountIn(s.active, 2 * k + 1);
    OccursIn(s.free, 2 * k);
    OccursIn(s.free, 2 * k + 1);
    var i: nat :| i < |s.free| && s.free[i] == 2 * k;
    assert PairAt(s.free, i);
  }

  /** Under the bound an aligned pair is always free, so every job is served and no job meets the hazard. */
  lemma PressureLeavesPair(jobs: seq<Job>, n: nat, s: Scan)
    requires n < |jobs| && Ordered(jobs) && PressureBounded(jobs) && Sound(jobs, n, s, jobs[n].iv.first)
    requires forall h: Held | h in s.active :: h.end >= jobs[n].iv.first
    ensures Available(s, jobs[n]) && !Hazard(s, jobs[n])
  {
    var t := jobs[n].iv.first;
    var owners := At(jobs, t) - {n};
    var f := (j: nat) => PairOf(jobs, s, j);
    var pairs := set j | j in owners :: f(j);
    ImageSize(owners, f);
    assert n in At(jobs, t);
    assert |At(jobs, t)| <= AlignedPairs;
    assert |owners| == |At(jobs, t)| - 1;
    var k := SomePairLeft(pairs);
    forall h | h in s.active
      ensures h.phys / 2 != k
    {
      var j := OwnerPresent(jobs, n, s, h);
      assert j in owners && f(j) in pairs;
    }
    PairFree(s, k);
  }

  /** The owner of a register in use is another job that is live now. */
  lemma OwnerPresent(jobs: seq<Job>, n: nat, s: Scan, h: Held) returns (j: nat)
    requires n < |jobs| && Ordered(jobs) && Accounted(jobs, n, s) && AllAligned(jobs, n, s)
    requires h in s.active && h.end >= jobs[n].iv.first
    ensures j < n && j in At(jobs, jobs[n].iv.first) && PairOf(jobs, s, j) == h.phys / 2
  {
    j :| j < n && Owns(jobs, s, j, h);
    OwnerTouches(jobs, n, s, j, h);
    EarlierDiffer(jobs, n);
  }

  lemma BoundedStep(jobs: seq<Job>, n: nat, s: Scan, next: Scan)
    requires n < |jobs| && Ordered(jobs) && PressureBounded(jobs)
    requires Sound(jobs, n, s, Now(jobs, n)) && ServesNext(jobs[n], s, next)
    ensures Sound(jobs, n + 1, next, Now(jobs, n + 1))
    ensures Placed(jobs, next, n) && !Hazard(Expire(s, jobs[n].iv.first), jobs[n])
  {
    assert n > 0 ==> Follows(jobs, n - 1, n);
    ExpireKeepsSound(jobs, n, s, Now(jobs, n), jobs[n].iv.first);
    PressureLeavesPair(jobs, n, Expire(s, jobs[n].iv.first));
    StepSound(jobs, n, s, next);
  }

  lemma {:induction false} BoundedSound(jobs: seq<Job>, states: seq<Scan>, n: nat)
    requires IsScan(jobs, states) && Ordered(jobs) && PressureBounded(jobs) && n <= |jobs|
    ensures Sound(jobs, n, states[n], Now(jobs, n))
  {
    if n == 0 {
      InitialSound(jobs);
    } else {
      BoundedSound(jobs, states, n - 1);
      assert ServesNext(jobs[n - 1], states[n - 1], states[n - 1 + 1]);
      BoundedStep(jobs, n - 1, states[n - 1], states[n]);
    }
  }

  predicate KeysGrow(before: Scan, after: Scan) { before.mapping.Keys <= after.mapping.Keys }

  lemma PlacedNext(job: Job, s: Scan, after: Scan)
    requires ServesNext(job, s, after)
    ensures KeysGrow(s, after)
  {
  }

  lemma AllKeysGrow(jobs: seq<Job>, states: seq<Scan>)
    requires IsScan(jobs, states)
    ensures forall k: nat | k < |jobs| :: KeysGrow(states[k], states[k + 1])
  {
    forall k: nat | k < |jobs|
      ensures KeysGrow(states[k], states[k + 1])
    {
      PlacedNext(jobs[k], states[k], states[k + 1]);
    }
  }

  lemma {:induction false} PlacedLater(states: seq<Scan>, n: nat, m: nat, r: Reg)
    requires forall k: nat | k < |states| - 1 :: KeysGrow(states[k], states[k + 1])
    requires n <= m < |states| && r in states[n].mapping
    ensures r in states[m].mapping
    decreases m
  {
    if n < m {
      PlacedLater(states, n, m - 1, r);
      assert KeysGrow(states[m - 1], states[m - 1 + 1]);
    }
  }

  /** Job `j` has been served, without the hazard. */
  lemma JobServed(jobs: seq<Job>, states: seq<Scan>, j: nat)
    requires IsScan(jobs, states) && j < |jobs| && Ordered(jobs) && PressureBounded(jobs)
    ensures Placed(jobs, states[|jobs|], j) && !MeetsHazard(jobs, states, j)
  {
    BoundedSound(jobs, states, j);
    assert ServesNext(jobs[j], states[j], states[j + 1]);
    BoundedStep(jobs, j, states[j], states[j + 1]);
    AllKeysGrow(jobs, states);
    PlacedLater(states, j + 1, |jobs|, jobs[j].reg);
  }

  /** Every register is mapped, to registers in 1..239, pairs to an even base, overlapping jobs to disjoint ones. */
  ghost predicate Allocation(jobs: seq<Job>, mapping: Mapping) {
    && (forall j | 0 <= j < |jobs| :: jobs[j].reg in mapping && Aligned(jobs[j].reg, mapping[jobs[j].reg]))
    && (forall i, j | 0 <= i < j < |jobs| && Overlap(jobs[i].iv, jobs[j].iv) ::
          PhysOf(jobs[i].reg, mapping[jobs[i].reg]) !! PhysOf(jobs[j].reg, mapping[jobs[j].reg]))
  }

  lemma SoundAllocates(jobs: seq<Job>, s: Scan, now: nat)
    requires Sound(jobs, |jobs|, s, now) && forall j: nat | j < |jobs| :: Placed(jobs, s, j)
    ensures Allocation(jobs, s.mapping)
  {
    assert forall j | 0 <= j < |jobs| :: jobs[j].reg in s.mapping by {
      assert forall j: nat | j < |jobs| :: jobs[j].reg in s.mapping;
    }
    forall i, j | 0 <= i < j < |jobs| && Overlap(jobs[i].iv, jobs[j].iv)
      ensures PhysOf(jobs[i].reg, s.mapping[jobs[i].reg]) !! PhysOf(jobs[j].reg, s.mapping[jobs[j].reg])
    {
      assert RegsOfJob(jobs, s, i) !! RegsOfJob(jobs, s, j);
    }
  }

  /** Under the pressure bound the scan is total and interference-free, and never meets the hazard. */
  lemma ScanAllocates(jobs: seq<Job>, states: seq<Scan>)
    requires IsScan(jobs, states) && Ordered(jobs) && PressureBounded(jobs)
    ensures Allocation(jobs, states[|jobs|].mapping) && Partitioned(states[|jobs|])
    ensures forall j: nat | j < |jobs| :: !MeetsHazard(jobs, states, j)
  {
    BoundedSound(jobs, states, |jobs|);
    forall j: nat | j < |jobs|
      ensures Placed(jobs, states[|jobs|], j) && !MeetsHazard(jobs, states, j)
    {
      JobServed(jobs, states, j);
    }
    SoundAllocates(jobs, states[|jobs|], Now(jobs, |jobs|));
  }

  /** Only registers of jobs are mapped, so all of the mapping is aligned. */
  lemma MappedAligned(jobs: seq<Job>, states: seq<Scan>, r: Reg)
    requires IsScan(jobs, states) && Ordered(jobs) && PressureBounded(jobs) && r in states[|jobs|].mapping
    ensures Aligned(r, states[|jobs|].mapping[r])
  {
    BoundedSound(jobs, states, |jobs|);
    var j :| 0 <= j < |jobs| && jobs[j].reg == r;
    assert Placed(jobs, states[|jobs|], j);
  }
}
