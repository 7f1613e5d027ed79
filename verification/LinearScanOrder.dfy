/** Which registers the linear scan gives out: the last freed first, and no more registers than are live at once. */
module LinearScanOrder {
  import opened Isa
  import opened Ptx
  import opened Liveness
  import opened LinearScan
  import opened LinearScanFacts

  /* ---------- the order of the free list ---------- */

  lemma {:induction false} ExpiredAppend(a: seq<Held>, b: seq<Held>, now: nat)
    ensures Expired(a + b, now) == Expired(a, now) + Expired(b, now)
    ensures Survivors(a + b, now) == Survivors(a, now) + Survivors(b, now)
    decreases |b|
  {
    if b == [] {
      assert a + b == a;
    } else {
      assert (a + b)[..|a + b| - 1] == a + b[..|b| - 1];
      ExpiredAppend(a, b[..|b| - 1], now);
    }
  }

  /**
   When a job begins, each register whose interval ended before it joins the end of the free list, in the order in
   which they were given out; one that ends at the job itself does not.
   */
  lemma FreedExactly(s: Scan, now: nat, a: seq<Held>, h: Held, b: seq<Held>)
    requires s.active == a + [h] + b
    ensures Expired(s.active, now) == Expired(a, now) + (if h.end < now then [h.phys] else []) + Expired(b, now)
    ensures Survivors(s.active, now) == Survivors(a, now) + (if h.end < now then [] else [h]) + Survivors(b, now)
    ensures Expire(s, now) == Scan(s.free + Expired(s.active, now), Survivors(s.active, now), s.mapping)
  {
    ExpiredAppend(a + [h], b, now);
    ExpiredAppend(a, [h], now);
    assert [h][..0] == [];
    assert Expired([h], now) == if h.end < now then [h.phys] else [];
  }

  /** A register takes the last of the free list. */
  lemma RegisterTakesLast(s: Scan, job: Job)
    requires !IsPairName(job.reg) && s.free != []
    ensures
      var m, after := s.free[|s.free| - 1], Assign(s, job);
      && after.mapping == s.mapping[job.reg := m] && after.free == s.free[..|s.free| - 1]
      && after.active == s.active + [Held(job.iv.last, m)]
  {
  }

  /** The last even register whose neighbour is free. */
  predicate LastFreePair(free: seq<nat>, i: nat, j: nat) {
    && i < |free| && free[i] % 2 == 0 && j < |free| && free[j] == free[i] + 1 && free[j] !in free[..j]
    && forall k | i < k < |free| :: free[k] % 2 == 0 ==> free[k] + 1 !in free
  }

  /** A pair takes the last free one, and the rest of the free list stays as it is. */
  lemma PairTakesLast(s: Scan, job: Job, i: nat, j: nat)
    requires Partitioned(s) && IsPairName(job.reg) && LastFreePair(s.free, i, j)
    ensures
      var m, after := s.free[i], Assign(s, job);
      && after.mapping == s.mapping[job.reg := m]
      && after.active == s.active + [Held(job.iv.last, m), Held(job.iv.last, m + 1)]
      && after.free == if i > j then s.free[..j] + s.free[j + 1..i] + s.free[i + 1..]
                       else s.free[..i] + s.free[i + 1..j] + s.free[j + 1..]
  {
    hide Partitioned, DropTwo, Assign;
    PairFound(s.free, i, j);
    AssignFoundPair(s, job, i);
    DroppedTwo(s.free, i, j);
  }

  lemma PairFound(free: seq<nat>, i: nat, j: nat)
    requires LastFreePair(free, i, j)
    ensures LastPair(free, |free|) == Some(i) && free[i] + 1 in free && FirstIndex(free, free[i] + 1) == j && i != j
  {
    hide FirstIndex, LastPair;
    assert PairAt(free, i);
    FirstIs(free, free[i] + 1, j);
  }

  lemma {:induction false} FirstIs(s: seq<nat>, x: nat, j: nat)
    requires j < |s| && s[j] == x && x !in s[..j]
    ensures x in s && FirstIndex(s, x) == j
    decreases |s|
  {
    if s[0] != x {
      assert s[1..][..j - 1] == s[..j][1..];
      FirstIs(s[1..], x, j - 1);
    }
  }

  lemma DroppedTwo(s: seq<nat>, i: nat, j: nat)
    requires i < |s| && j < |s| && i != j
    ensures DropTwo(s, i, j) == if i > j then s[..j] + s[j + 1..i] + s[i + 1..] else s[..i] + s[i + 1..j] + s[j + 1..]
  {
  }

  /* ---------- no more registers than are live at once ---------- */

  /** How many of the first `n` jobs end at `t` or later. */
  function LiveFrom(jobs: seq<Job>, n: nat, t: nat): nat
    requires n <= |jobs|
  {
    if n == 0 then 0 else LiveFrom(jobs, n - 1, t) + (if jobs[n - 1].iv.last >= t then 1 else 0)
  }

  /** The most jobs live at once at the start of one of the first `n`. */
  function Peak(jobs: seq<Job>, n: nat): nat
    requires n <= |jobs|
  {
    if n == 0 then 0
    else
      var here, before := LiveFrom(jobs, n, jobs[n - 1].iv.first), Peak(jobs, n - 1);
      if here > before then here else before
  }

  function HeldFrom(active: seq<Held>, t: nat): nat {
    if active == [] then 0
    else HeldFrom(active[..|active| - 1], t) + (if active[|active| - 1].end >= t then 1 else 0)
  }

  lemma {:induction false} HeldSurvivors(active: seq<Held>, now: nat, t: nat)
    ensures HeldFrom(Survivors(active, now), t) <= HeldFrom(active, t)
    ensures |Survivors(active, now)| == HeldFrom(active, now)
    ensures |Survivors(active, now)| + |Expired(active, now)| == |active|
  {
    if active != [] {
      HeldSurvivors(active[..|active| - 1], now, t);
      var h, rest := active[|active| - 1], Survivors(active[..|active| - 1], now);
      HeldMore(rest, h, t);
      assert rest + [] == rest;
    }
  }

  lemma HeldMore(active: seq<Held>, h: Held, t: nat)
    ensures HeldFrom(active + [h], t) == HeldFrom(active, t) + (if h.end >= t then 1 else 0)
  {
    assert (active + [h])[..|active|] == active;
  }

  /** Registers above `top` have never been given out, and those up to `top` are in use or were freed. */
  ghost predicate Compact(s: Scan, top: nat) {
    && top <= MaxGpr && MaxGpr - top <= |s.free| && |s.free| + |s.active| == MaxGpr
    && (forall k | 0 <= k < MaxGpr - top :: s.free[k] == MaxGpr - k)
    && (forall k | MaxGpr - top <= k < |s.free| :: s.free[k] <= top)
    && (forall k | 0 <= k < |s.active| :: s.active[k].phys <= top)
    && (forall r | r in s.mapping :: s.mapping[r] <= top)
  }

  ghost predicate Bounded(jobs: seq<Job>, n: nat, s: Scan)
    requires n <= |jobs|
  {
    forall t: nat :: HeldFrom(s.active, t) <= LiveFrom(jobs, n, t)
  }

  lemma {:induction false} ExpiredFromActive(active: seq<Held>, now: nat, top: nat)
    requires forall k | 0 <= k < |active| :: active[k].phys <= top
    ensures forall k | 0 <= k < |Expired(active, now)| :: Expired(active, now)[k] <= top
    ensures forall k | 0 <= k < |Survivors(active, now)| :: Survivors(active, now)[k].phys <= top
  {
    if active != [] {
      ExpiredFromActive(active[..|active| - 1], now, top);
    }
  }

  lemma ExpireCompact(jobs: seq<Job>, n: nat, s: Scan, top: nat, now: nat)
    requires n <= |jobs| && Compact(s, top) && Bounded(jobs, n, s)
    ensures Compact(Expire(s, now), top) && Bounded(jobs, n, Expire(s, now))
    ensures |Expire(s, now).active| <= LiveFrom(jobs, n, now)
  {
    ExpiredFromActive(s.active, now, top);
    forall t: nat
      ensures HeldFrom(Expire(s, now).active, t) <= LiveFrom(jobs, n, t)
    {
      HeldSurvivors(s.active, now, t);
    }
    HeldSurvivors(s.active, now, now);
  }

  lemma AssignCompact(jobs: seq<Job>, n: nat, s: Scan, top: nat) returns (more: nat)
    requires n < |jobs| && Compact(s, top) && Bounded(jobs, n, s) && !IsPairName(jobs[n].reg)
    requires |s.active| <= LiveFrom(jobs, n, jobs[n].iv.first) && jobs[n].iv.first <= jobs[n].iv.last
    ensures Compact(Assign(s, jobs[n]), more) && Bounded(jobs, n + 1, Assign(s, jobs[n]))
    ensures more == top || more <= LiveFrom(jobs, n + 1, jobs[n].iv.first)
  {
    var after := Assign(s, jobs[n]);
    more := top;
    forall t: nat
      ensures HeldFrom(after.active, t) <= LiveFrom(jobs, n + 1, t)
    {
      if s.free != [] {
        HeldMore(s.active, Held(jobs[n].iv.last, s.free[|s.free| - 1]), t);
      }
    }
    if s.free != [] && |s.free| == MaxGpr - top {
      more := top + 1;
    }
  }

  /** A scan without pairs gives out no register above the peak, so a new one only when all others are in use. */
  lemma {:induction false} RegistersNeeded(jobs: seq<Job>, states: seq<Scan>, n: nat) returns (top: nat)
    requires IsScan(jobs, states) && Ordered(jobs) && n <= |jobs|
    requires forall k | 0 <= k < |jobs| :: !IsPairName(jobs[k].reg)
    ensures Compact(states[n], top) && Bounded(jobs, n, states[n]) && top <= Peak(jobs, n)
    ensures forall r | r in states[n].mapping :: states[n].mapping[r] <= Peak(jobs, n)
  {
    hide Compact, Bounded;
    top := 0;
    if n == 0 {
      FreshCompact(jobs);
    } else {
      top := RegistersNeeded(jobs, states, n - 1);
      assert ServesNext(jobs[n - 1], states[n - 1], states[n]);
      ExpireCompact(jobs, n - 1, states[n - 1], top, jobs[n - 1].iv.first);
      top := AssignCompact(jobs, n - 1, Expire(states[n - 1], jobs[n - 1].iv.first), top);
    }
    MappedBelow(states[n], top);
  }

  lemma FreshCompact(jobs: seq<Job>)
    ensures Compact(Fresh(), 0) && Bounded(jobs, 0, Fresh())
  {
  }

  lemma MappedBelow(s: Scan, top: nat)
    requires Compact(s, top)
    ensures forall r | r in s.mapping :: s.mapping[r] <= top
  {
  }
}
