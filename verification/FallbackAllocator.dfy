/** The allocator of the lowering: it completes a register mapping on demand and hands out temporaries. */
module FallbackAllocator {
  import opened Isa
  import opened Ptx
  import opened LinearScan
  import opened LinearScanFacts

  const FirstTemp: nat := 240
  const LastTemp: nat := 255

  function Span(base: nat, width: nat): set<nat> {
    if width == 2 then {base, base + 1} else {base}
  }

  predicate Fits(base: nat, width: nat, reserved: set<nat>) {
    && (width == 2 ==> base % 2 == 0)
    && Span(base, width) !! reserved && base + width <= FirstTemp
  }

  /** The search of `_allocate`: `None` is the error when it runs out of registers. */
  function Search(base: nat, width: nat, reserved: set<nat>): Option<nat>
    requires width == 1 || width == 2
    decreases FirstTemp + 1 - base
  {
    var aligned := if width == 2 && base % 2 == 1 then base + 1 else base;
    if Span(aligned, width) !! reserved && aligned + width <= FirstTemp then Some(aligned)
    else if aligned + 1 >= FirstTemp then None
    else Search(aligned + 1, width, reserved)
  }

  /** The search finds the least fitting base from its start, and fails only when there is none. */
  lemma {:induction false} SearchExactly(base: nat, width: nat, reserved: set<nat>)
    requires width == 1 || width == 2
    ensures
      match Search(base, width, reserved)
      case Some(b) => base <= b && Fits(b, width, reserved) && forall c: nat | base <= c < b :: !Fits(c, width, reserved)
      case None => forall c: nat | base <= c :: !Fits(c, width, reserved)
    decreases FirstTemp + 1 - base
  {
    var aligned := if width == 2 && base % 2 == 1 then base + 1 else base;
    if !(Span(aligned, width) !! reserved && aligned + width <= FirstTemp) && aligned + 1 < FirstTemp {
      SearchExactly(aligned + 1, width, reserved);
    }
  }

  /* ---------- the registers as a value ---------- */

  datatype Pool = Pool(next: nat, mapping: Mapping, reserved: set<nat>)

  datatype Request = Request(token: Reg, isPair: bool)

  function ReservedBy(pre: Mapping): set<nat> {
    (set r | r in pre :: pre[r]) + (set r | r in pre && IsPairName(r) :: pre[r] + 1)
  }

  function Initial(pre: Mapping): Pool { Pool(1, pre, ReservedBy(pre)) }

  function Width(isPair: bool): nat { if isPair then 2 else 1 }

  /** One call of `reg`: the pool after it and the register, or `None` for the error. */
  function Call(pool: Pool, q: Request): (Pool, Option<nat>) {
    if q.token in pool.mapping then (pool, Some(pool.mapping[q.token]))
    else
      var width := Width(q.isPair);
      match Search(pool.next, width, pool.reserved)
      case None => (pool, None)
      case Some(base) =>
        (Pool(base + width, pool.mapping[q.token := base], pool.reserved + Span(base, width)), Some(base))
  }

  /** The pool after a sequence of calls; a failed call leaves it as it was. */
  function Calls(pool: Pool, requests: seq<Request>): Pool {
    if requests == [] then pool
    else Call(Calls(pool, requests[..|requests| - 1]), requests[|requests| - 1]).0
  }

  /* ---------- the two stages stay disjoint ---------- */

  /** A width for each name, as the name says for the names that the scan has mapped. */
  type Widths = Reg -> bool

  ghost predicate Consistent(pre: Mapping, requests: seq<Request>, pairs: Widths) {
    && (forall r | r in pre :: pairs(r) == IsPairName(r))
    && (forall k | 0 <= k < |requests| :: requests[k].isPair == pairs(requests[k].token))
  }

  function RegsOf(pool: Pool, pairs: Widths, r: Reg): set<nat>
    requires r in pool.mapping
  {
    Span(pool.mapping[r], Width(pairs(r)))
  }

  ghost predicate AllReserved(pool: Pool, pairs: Widths) {
    forall r | r in pool.mapping :: RegsOf(pool, pairs, r) <= pool.reserved
  }

  ghost predicate PreKept(pre: Mapping, pool: Pool) {
    pool.next >= 1 && forall r | r in pre :: r in pool.mapping && pool.mapping[r] == pre[r]
  }

  /** A register given to a name that the scan did not map. */
  predicate WellPlaced(pool: Pool, pairs: Widths, r: Reg)
    requires r in pool.mapping
  {
    var m := pool.mapping[r];
    1 <= m && m + Width(pairs(r)) <= FirstTemp && (pairs(r) ==> m % 2 == 0)
  }

  ghost predicate NewPlaced(pre: Mapping, pool: Pool, pairs: Widths) {
    forall r | r in pool.mapping && r !in pre :: WellPlaced(pool, pairs, r)
  }

  ghost predicate DisjointFrom(pool: Pool, pairs: Widths, r: Reg)
    requires r in pool.mapping
  {
    forall q | q in pool.mapping && q != r :: RegsOf(pool, pairs, r) !! RegsOf(pool, pairs, q)
  }

  /** A name mapped on demand shares no register with any other name. */
  ghost predicate NewDisjoint(pre: Mapping, pool: Pool, pairs: Widths) {
    forall r | r in pool.mapping && r !in pre :: DisjointFrom(pool, pairs, r)
  }

  ghost predicate Disjoint(pre: Mapping, pool: Pool, pairs: Widths) {
    AllReserved(pool, pairs) && PreKept(pre, pool) && NewPlaced(pre, pool, pairs) && NewDisjoint(pre, pool, pairs)
  }

  lemma CallKeepsDisjoint(pre: Mapping, pool: Pool, q: Request, pairs: Widths)
    requires Disjoint(pre, pool, pairs) && q.isPair == pairs(q.token)
    ensures Disjoint(pre, Call(pool, q).0, pairs)
  {
    var after := Call(pool, q).0;
    SearchExactly(pool.next, Width(q.isPair), pool.reserved);
    if after != pool {
      forall r | r in after.mapping && r !in pre
        ensures DisjointFrom(after, pairs, r)
      {
        forall s | s in after.mapping && s != r
          ensures RegsOf(after, pairs, r) !! RegsOf(after, pairs, s)
        {
          if r in pool.mapping && s in pool.mapping {
            assert DisjointFrom(pool, pairs, r);
          } else if r == q.token {
            assert RegsOf(pool, pairs, s) <= pool.reserved;
          } else {
            assert RegsOf(pool, pairs, r) <= pool.reserved;
          }
        }
      }
    }
  }

  /** Over any sequence of calls: fallback registers meet no other register, and pairs are even-aligned below 240. */
  lemma {:induction false} CallsKeepDisjoint(pre: Mapping, requests: seq<Request>, pairs: Widths)
    requires Consistent(pre, requests, pairs)
    ensures Disjoint(pre, Calls(Initial(pre), requests), pairs)
  {
    if requests == [] {
      assert forall r | r in pre :: pre[r] in ReservedBy(pre) && (IsPairName(r) ==> pre[r] + 1 in ReservedBy(pre));
    } else {
      CallsKeepDisjoint(pre, requests[..|requests| - 1], pairs);
      CallKeepsDisjoint(pre, Calls(Initial(pre), requests[..|requests| - 1]), requests[|requests| - 1], pairs);
    }
  }

  /** After a scan under the pressure bound, no register of either stage is a temporary. */
  lemma StagesAvoidTemporaries(jobs: seq<Job>, states: seq<Scan>, pre: Mapping, requests: seq<Request>, pairs: Widths,
                               r: Reg, x: nat)
    requires IsScan(jobs, states) && Ordered(jobs) && PressureBounded(jobs) && pre == states[|jobs|].mapping
    requires Consistent(pre, requests, pairs) && r in Calls(Initial(pre), requests).mapping
    requires x in RegsOf(Calls(Initial(pre), requests), pairs, r)
    ensures 1 <= x < 240
  {
    CallsKeepDisjoint(pre, requests, pairs);
    if r in pre {
      MappedAligned(jobs, states, r);
    } else {
      assert WellPlaced(Calls(Initial(pre), requests), pairs, r);
    }
  }

  /* ---------- the allocator ---------- */

  class RegisterAllocator {
    var next: nat
    var mapping: Mapping
    var reserved: set<nat>
    var tempNext: nat

    function State(): Pool
      reads this
    {
      Pool(next, mapping, reserved)
    }

    constructor (pre: Mapping)
      ensures State() == Initial(pre) && tempNext == 240
    {
      next, mapping, tempNext := 1, pre, FirstTemp;
      var taken: set<nat> := {};
      var todo := pre.Keys;
      while todo != {}
        invariant todo <= pre.Keys
        invariant forall x: nat :: x in taken <==>
            exists r :: r in pre && r !in todo && (x == pre[r] || (IsPairName(r) && x == pre[r] + 1))
        decreases todo
      {
        var r :| r in todo;
        todo := todo - {r};
        taken := taken + {pre[r]} + (if IsPairName(r) then {pre[r] + 1} else {});
      }
      assert taken == ReservedBy(pre);
      reserved := taken;
    }

    method Allocate(width: nat) returns (r: Option<nat>)
      requires width == 1 || width == 2
      modifies this
      ensures r == Search(old(next), width, old(reserved))
      ensures mapping == old(mapping) && tempNext == old(tempNext)
      ensures r.None? ==> State() == old(State())
      ensures r.Some? ==> next == r.value + width && reserved == old(reserved) + Span(r.value, width)
    {
      var base := next;
      while true
        invariant base <= FirstTemp || base == next
        invariant State() == old(State()) && tempNext == old(tempNext)
        invariant Search(base, width, reserved) == Search(old(next), width, old(reserved))
        decreases FirstTemp + 1 - base
      {
        if width == 2 && base % 2 == 1 {
          base := base + 1;
        }
        var needed := if width == 1 then {base} else {base, base + 1};
        if needed !! reserved && base + width <= FirstTemp {
          reserved := reserved + needed;
          next := base + width;
          return Some(base);
        }
        base := base + 1;
        if base >= FirstTemp {
          return None;
        }
      }
    }

    /** The register of a token; `None` is the error when the registers have run out. */
    method Reg(token: Ptx.Reg, isPair: bool) returns (r: Option<nat>)
      modifies this
      ensures (State(), r) == Call(old(State()), Request(token, isPair))
      ensures tempNext == old(tempNext)
    {
      if token in mapping {
        return Some(mapping[token]);
      }
      r := Allocate(if isPair then 2 else 1);
      if r.Some? {
        mapping := mapping[token := r.value];
      }
    }

    /** The next temporary; the counter moves on even when they have run out. */
    method Temp() returns (r: Option<nat>)
      modifies this`tempNext
      ensures tempNext == old(tempNext) + 1
      ensures r == if old(tempNext) > 255 then None else Some(old(tempNext))
    {
      var value := tempNext;
      tempNext := tempNext + 1;
      r := if value > LastTemp then None else Some(value);
    }

    method ResetTemps()
      modifies this`tempNext
      ensures tempNext == 240
    {
      tempNext := FirstTemp;
    }
  }
}
