/** The linear scan over live intervals: free list, active list and mapping. */
module LinearScan {
  import opened Isa
  import opened Ptx
  import opened Sequences
  import opened Liveness

  const MaxGpr: nat := 239

  datatype Job = Job(reg: Reg, iv: Interval)

  /** A physical register in use up to item `end`. */
  datatype Held = Held(end: nat, phys: nat)

  type Mapping = map<Reg, nat>

  datatype Scan = Scan(free: seq<nat>, active: seq<Held>, mapping: Mapping)

  /* ---------- one job, as functions ---------- */

  /** The usable registers, the lowest last. */
  function AllFree(): (r: seq<nat>)
    ensures |r| == MaxGpr && forall k | 0 <= k < |r| :: r[k] == MaxGpr - k
  {
    seq(MaxGpr, k requires 0 <= k < MaxGpr => MaxGpr - k)
  }

  function Survivors(active: seq<Held>, now: nat): seq<Held> {
    if active == [] then []
    else
      var h := active[|active| - 1];
      Survivors(active[..|active| - 1], now) + (if h.end < now then [] else [h])
  }

  function Expired(active: seq<Held>, now: nat): seq<nat> {
    if active == [] then []
    else
      var h := active[|active| - 1];
      Expired(active[..|active| - 1], now) + (if h.end < now then [h.phys] else [])
  }

  function Expire(s: Scan, now: nat): Scan {
    s.(free := s.free + Expired(s.active, now), active := Survivors(s.active, now))
  }

  predicate PairAt(free: seq<nat>, i: nat) { i < |free| && free[i] % 2 == 0 && free[i] + 1 in free }

  /** The last index below `n` that holds the even half of a free pair. */
  function LastPair(free: seq<nat>, n: nat): (i: Option<nat>)
    requires n <= |free|
    ensures i.Some? ==> i.value < n && PairAt(free, i.value)
    ensures forall k | (if i.Some? then i.value < k else 0 <= k) && k < n :: !PairAt(free, k)
  {
    if n == 0 then None else if PairAt(free, n - 1) then Some(n - 1) else LastPair(free, n - 1)
  }

  function FirstIndex(s: seq<nat>, x: nat): (j: nat)
    requires x in s
    ensures j < |s| && s[j] == x && x !in s[..j]
  {
    if s[0] == x then 0
    else
      var j := FirstIndex(s[1..], x) + 1;
      assert s[..j] == [s[0]] + s[1..][..j - 1];
      j
  }

  function Drop(s: seq<nat>, i: nat): seq<nat>
    requires i < |s|
  {
    s[..i] + s[i + 1..]
  }

  function DropTwo(s: seq<nat>, i: nat, j: nat): seq<nat>
    requires i < |s| && j < |s| && i != j
  {
    if i > j then Drop(Drop(s, i), j) else Drop(Drop(s, j), i)
  }

  function HoldPair(s: Scan, job: Job, phys: nat): Scan {
    Scan(s.free, s.active + [Held(job.iv.last, phys), Held(job.iv.last, phys + 1)], s.mapping[job.reg := phys])
  }

  function HoldOne(s: Scan, job: Job, phys: nat): Scan {
    Scan(s.free, s.active + [Held(job.iv.last, phys)], s.mapping[job.reg := phys])
  }

  /** The path for a pair when the search for an aligned one failed. */
  function Fallback(s: Scan, job: Job): Scan {
    if |s.free| < 2 then s
    else
      var popped, rest := s.free[|s.free| - 1], s.free[..|s.free| - 1];
      var phys := if popped % 2 == 1 then popped - 1 else popped;
      if phys + 1 in rest then
        var taken := s.(free := Drop(rest, FirstIndex(rest, phys + 1)));
        if phys > 0 && phys % 2 == 0 && phys + 1 <= MaxGpr then HoldPair(taken, job, phys) else taken
      else s.(free := rest + [phys])
  }

  function AssignPair(s: Scan, job: Job): Scan {
    match LastPair(s.free, |s.free|)
    case None => Fallback(s, job)
    case Some(i) =>
      var phys := s.free[i];
      var taken := s.(free := DropTwo(s.free, i, FirstIndex(s.free, phys + 1)));
      if phys == 0 then Fallback(taken, job) else HoldPair(taken, job, phys)
  }

  function AssignOne(s: Scan, job: Job): Scan {
    if s.free == [] then s
    else HoldOne(s.(free := s.free[..|s.free| - 1]), job, s.free[|s.free| - 1])
  }

  function Assign(s: Scan, job: Job): Scan {
    if IsPairName(job.reg) then AssignPair(s, job) else AssignOne(s, job)
  }

  /** The state before the first job. */
  function Fresh(): Scan { Scan(AllFree(), [], map[]) }

  predicate ServesNext(job: Job, before: Scan, after: Scan) { after == Assign(Expire(before, job.iv.first), job) }

  /** The states of a scan, before each job and after the last. */
  ghost predicate IsScan(jobs: seq<Job>, states: seq<Scan>) {
    && |states| == |jobs| + 1 && states[0] == Fresh()
    && forall k: nat | k < |jobs| :: ServesNext(jobs[k], states[k], states[k + 1])
  }

  /* ---------- the scan itself ---------- */

  method ExpireActive(free: seq<nat>, active: seq<Held>, now: nat) returns (free': seq<nat>, active': seq<Held>)
    ensures free' == free + Expired(active, now) && active' == Survivors(active, now)
  {
    free', active' := free, [];
    for k := 0 to |active|
      invariant free' == free + Expired(active[..k], now) && active' == Survivors(active[..k], now)
    {
      assert active[..k + 1][..k] == active[..k];
      if active[k].end < now {
        free' := free' + [active[k].phys];
      } else {
        active' := active' + [active[k]];
      }
    }
    assert active[..|active|] == active;
  }

  method FindPair(free: seq<nat>) returns (i: Option<nat>)
    ensures i == LastPair(free, |free|)
  {
    var k: nat := |free|;
    while k > 0
      invariant k <= |free|
      invariant LastPair(free, |free|) == LastPair(free, k)
    {
      k := k - 1;
      if free[k] % 2 == 0 && free[k] + 1 in free {
        return Some(k);
      }
    }
    i := None;
  }

  /** What the free list becomes when it holds no aligned pair: its last register, if odd, is lowered by one. */
  function Lowered(free: seq<nat>): seq<nat> {
    if |free| >= 2 && free[|free| - 1] % 2 == 1 then free[..|free| - 1] + [free[|free| - 1] - 1] else free
  }

  /** Without a free aligned pair no pair is handed out: only the last register of the free list may change. */
  lemma FallbackLowers(s: Scan, job: Job)
    requires LastPair(s.free, |s.free|).None? && Distinct(s.free)
    ensures Fallback(s, job) == s.(free := Lowered(s.free))
  {
    if |s.free| >= 2 {
      var rest, popped := s.free[..|s.free| - 1], s.free[|s.free| - 1];
      assert s.free == rest + [popped];
      assert !PairAt(s.free, |s.free| - 1);
      assert popped !in rest;
    }
  }

  method TakeAnyPair(s: Scan, job: Job) returns (after: Scan)
    ensures after == Fallback(s, job)
  {
    hide HoldPair, FirstIndex, Drop;
    var free := s.free;
    if |free| < 2 {
      return s;
    }
    var phys := free[|free| - 1];
    free := free[..|free| - 1];
    if phys % 2 == 1 && phys > 0 {
      phys := phys - 1;
    }
    if phys + 1 in free {
      free := Drop(free, FirstIndex(free, phys + 1));
      after := s.(free := free);
      if phys > 0 && phys % 2 == 0 && phys + 1 <= MaxGpr {
        after := HoldPair(after, job, phys);
      }
    } else {
      after := s.(free := free + [phys]);
    }
  }

  method TakePair(s: Scan, job: Job) returns (after: Scan)
    ensures after == AssignPair(s, job)
  {
    var free, chosen: Option<nat> := s.free, None;
    var found := FindPair(free);
    if found.Some? {
      var i, even := found.value, free[found.value];
      var j := FirstIndex(free, even + 1);
      if i > j {
        free := Drop(Drop(free, i), j);
      } else {
        free := Drop(Drop(free, j), i);
      }
      if even != 0 {
        chosen := Some(even);
      }
    }
    if chosen.Some? {
      after := HoldPair(s.(free := free), job, chosen.value);
    } else {
      after := TakeAnyPair(s.(free := free), job);
    }
  }

  method PlaceJob(s: Scan, job: Job) returns (after: Scan)
    ensures ServesNext(job, s, after)
  {
    var free, active := ExpireActive(s.free, s.active, job.iv.first);
    after := Scan(free, active, s.mapping);
    if IsPairName(job.reg) {
      after := TakePair(after, job);
    } else if free != [] {
      after := HoldOne(after.(free := free[..|free| - 1]), job, free[|free| - 1]);
    }
  }

  /** A scan of the jobs ends in this state. */
  ghost predicate ScansTo(jobs: seq<Job>, s: Scan) {
    exists states: seq<Scan> :: IsScan(jobs, states) && s == states[|jobs|]
  }

  method ScanJobs(jobs: seq<Job>) returns (s: Scan)
    ensures ScansTo(jobs, s)
  {
    s := Fresh();
    ghost var states := [s];
    for k := 0 to |jobs|
      invariant |states| == k + 1 && states[0] == Fresh() && s == states[k]
      invariant forall i: nat | i < k :: ServesNext(jobs[i], states[i], states[i + 1])
    {
      s := PlaceJob(s, jobs[k]);
      assert ServesNext(jobs[k], states[k], s);
      states := states + [s];
    }
    assert IsScan(jobs, states);
  }
}
