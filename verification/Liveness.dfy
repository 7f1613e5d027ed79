/** Live ranges split at definitions, and what merging them again covers. */
module Liveness {
  import opened Isa
  import opened Ptx
  import opened Sequences

  /** `_dest_register` */
  function DefinedBy(i: Instr): Option<Reg> {
    if i.operands != [] && (i.base.Pure? || i.base.Fma? || i.base.Ld?) && i.operands[0].RegOp?
    then Some(i.operands[0].reg)
    else None
  }

  /** `_source_registers` */
  function UsedBy(i: Instr): set<Reg> {
    (if i.guard.Some? then {i.guard.value} else {})
    + AllRegs(if (i.base.Pure? || i.base.Fma? || i.base.Ld? || i.base.Setp?) && i.operands != []
              then i.operands[1..] else i.operands)
  }

  datatype Role = Definition | Use

  /** Item `k` defines or uses `r`. */
  predicate Occurs(p: Program, role: Role, k: nat, r: Reg) {
    && k < |p| && p[k].Code?
    && (if role.Definition? then DefinedBy(p[k].inst) == Some(r) else r in UsedBy(p[k].inst))
  }

  /** What is defined and used: the first operand of an operation with a result, the guard, and the other operands. */
  lemma OccursExactly(p: Program, k: nat, r: Reg)
    requires k < |p| && p[k].Code?
    ensures
      var i, computes := p[k].inst, p[k].inst.base.Pure? || p[k].inst.base.Fma? || p[k].inst.base.Ld?;
      && (Occurs(p, Definition, k, r) <==> computes && i.operands != [] && i.operands[0] == RegOp(r))
      && (Occurs(p, Use, k, r) <==>
            || i.guard == Some(r)
            || exists n :: (if computes || i.base.Setp? then 1 else 0) <= n < |i.operands|
                           && (i.operands[n] == RegOp(r) || i.operands[n] == Addr(r)))
  {
    var i := p[k].inst;
    var first := if i.base.Pure? || i.base.Fma? || i.base.Ld? || i.base.Setp? then 1 else 0;
    var ops := if first == 1 && i.operands != [] then i.operands[1..] else i.operands;
    AllRegsExactly(ops, r);
    if n :| first <= n < |i.operands| && (i.operands[n] == RegOp(r) || i.operands[n] == Addr(r)) {
      assert ops[n - first] == i.operands[n];
    }
    if n :| 0 <= n < |ops| && (ops[n] == RegOp(r) || ops[n] == Addr(r)) {
      assert ops[n] == i.operands[n + first];
    }
  }

  /** The occurrences of `r` before item `n`, in order. */
  function Positions(p: Program, role: Role, r: Reg, n: nat): seq<nat> {
    if n == 0 then []
    else Positions(p, role, r, n - 1) + (if Occurs(p, role, n - 1, r) then [n - 1] else [])
  }

  predicate Ascending(s: seq<nat>) { forall i, j | 0 <= i < j < |s| :: s[i] < s[j] }

  lemma {:induction false} PositionsFacts(p: Program, role: Role, r: Reg, n: nat)
    ensures var s := Positions(p, role, r, n);
            && Ascending(s) && Indices(s, n)
            && forall k: nat :: k in s <==> k < n && Occurs(p, role, k, r)
  {
    if n > 0 {
      PositionsFacts(p, role, r, n - 1);
      var before := Positions(p, role, r, n - 1);
      forall i, j | 0 <= i < j < |before|
        ensures before[i] < before[j] < n - 1
      {
      }
    }
  }

  /** The position of an element of an ascending sequence is the number of smaller elements. */
  lemma {:induction false} PositionsPrefix(p: Program, role: Role, r: Reg, n: nat, j: nat)
    requires j < |Positions(p, role, r, n)|
    ensures Positions(p, role, r, n)[j] < n
    ensures Positions(p, role, r, n)[..j] == Positions(p, role, r, Positions(p, role, r, n)[j])
  {
    var s, before := Positions(p, role, r, n), Positions(p, role, r, n - 1);
    if j < |before| {
      PositionsPrefix(p, role, r, n - 1, j);
      assert s[j] == before[j];
      assert s[..j] == before[..j];
    } else {
      assert s == before + [n - 1] && s[j] == n - 1;
      assert s[..j] == before;
    }
  }

  /* ---------- collecting occurrences ---------- */

  type Index = map<Reg, seq<nat>>

  function Lookup(index: Index, r: Reg): seq<nat> { if r in index then index[r] else [] }

  ghost predicate Indexes(index: Index, p: Program, role: Role, n: nat) {
    forall r: Reg :: Lookup(index, r) == Positions(p, role, r, n) && (r in index ==> index[r] != [])
  }

  /** Adds occurrence `k` for each of `regs`. */
  method AddOccurrences(index: Index, regs: set<Reg>, k: nat) returns (after: Index)
    ensures forall r: Reg :: Lookup(after, r) == if r in regs then Lookup(index, r) + [k] else Lookup(index, r)
    ensures forall r: Reg | r in after && r !in regs :: r in index
  {
    after := index;
    var todo := regs;
    while todo != {}
      invariant todo <= regs
      invariant forall r: Reg ::
          Lookup(after, r) == if r in regs && r !in todo then Lookup(index, r) + [k] else Lookup(index, r)
      invariant forall r: Reg | r in after && r !in regs :: r in index
      decreases todo
    {
      var r :| r in todo;
      todo := todo - {r};
      after := after[r := Lookup(after, r) + [k]];
    }
  }

  lemma IndexesNext(index: Index, after: Index, p: Program, role: Role, regs: set<Reg>, n: nat)
    requires Indexes(index, p, role, n) && forall r: Reg :: r in regs <==> Occurs(p, role, n, r)
    requires forall r: Reg :: Lookup(after, r) == if r in regs then Lookup(index, r) + [n] else Lookup(index, r)
    requires forall r: Reg | r in after && r !in regs :: r in index
    ensures Indexes(after, p, role, n + 1)
  {
    forall r: Reg
      ensures Lookup(after, r) == Positions(p, role, r, n + 1) && (r in after ==> after[r] != [])
    {
      assert Lookup(index, r) == Positions(p, role, r, n);
    }
  }

  function RegsIn(p: Program, role: Role, k: nat): (regs: set<Reg>)
    requires k < |p|
    ensures forall r: Reg :: r in regs <==> Occurs(p, role, k, r)
  {
    if p[k].Label? then {}
    else if role.Use? then UsedBy(p[k].inst)
    else if DefinedBy(p[k].inst).Some? then {DefinedBy(p[k].inst).value}
    else {}
  }

  method IndexItem(p: Program, role: Role, k: nat, index: Index) returns (after: Index)
    requires k < |p| && Indexes(index, p, role, k)
    ensures Indexes(after, p, role, k + 1)
  {
    after := AddOccurrences(index, RegsIn(p, role, k), k);
    IndexesNext(index, after, p, role, RegsIn(p, role, k), k);
  }

  method CollectOccurrences(p: Program) returns (defs: Index, uses: Index)
    ensures Indexes(defs, p, Definition, |p|) && Indexes(uses, p, Use, |p|)
  {
    defs, uses := map[], map[];
    for k := 0 to |p|
      invariant Indexes(defs, p, Definition, k) && Indexes(uses, p, Use, k)
    {
      defs := IndexItem(p, Definition, k, defs);
      uses := IndexItem(p, Use, k, uses);
    }
  }

  /* ---------- split ranges ---------- */

  /** `first` is -1 for a register that is never defined. */
  datatype LiveRange = LiveRange(first: int, last: int, uses: seq<nat>)

  predicate IsLive(lr: LiveRange) { lr.first >= 0 && lr.last >= 0 }

  /** One past the last instruction. */
  function Limit(p: Program): (limit: nat)
    ensures limit <= |p|
    ensures forall k: nat | k < |p| && p[k].Code? :: k < limit
  {
    if p == [] then 0
    else if p[|p| - 1].Code? then |p|
    else Limit(p[..|p| - 1])
  }

  function NextDefinition(defs: seq<nat>, j: nat, limit: nat): nat {
    if j + 1 < |defs| then defs[j + 1] else limit
  }

  /** The first range takes the uses up to its successor's definition, a later one those strictly between. */
  predicate Takes(defs: seq<nat>, j: nat, limit: nat, u: nat)
    requires j < |defs|
  {
    if j == 0 then defs[0] <= u <= NextDefinition(defs, j, limit)
    else defs[j] < u < NextDefinition(defs, j, limit)
  }

  ghost predicate IsSplit(defs: seq<nat>, uses: seq<nat>, j: nat, limit: nat, lr: LiveRange)
    requires j < |defs|
  {
    && lr.first == defs[j]
    && (forall u: nat :: u in lr.uses <==> u in uses && Takes(defs, j, limit, u))
    && (forall u: nat | u in lr.uses :: u <= lr.last)
    && (if lr.uses == [] then lr.last == defs[j] else lr.last >= 0 && lr.last as nat in lr.uses)
  }

  method SplitRange(defs: seq<nat>, uses: seq<nat>, j: nat, limit: nat) returns (lr: LiveRange)
    requires j < |defs|
    ensures IsSplit(defs, uses, j, limit, lr)
  {
    var last: int, taken: seq<nat> := -1, [];
    for k := 0 to |uses|
      invariant forall u: nat :: u in taken <==> u in uses[..k] && Takes(defs, j, limit, u)
      invariant forall u: nat | u in taken :: u <= last
      invariant if taken == [] then last == -1 else last >= 0 && last as nat in taken
    {
      var u := uses[k];
      assert uses[..k + 1] == uses[..k] + [u];
      if Takes(defs, j, limit, u) {
        taken := taken + [u];
        last := if u > last then u else last;
      }
    }
    assert uses[..|uses|] == uses;
    lr := LiveRange(defs[j], if last < 0 then defs[j] else last, taken);
  }

  type Ranges = map<Reg, seq<LiveRange>>

  /** The ranges of one register. */
  ghost predicate RangesOf(p: Program, r: Reg, ranges: seq<LiveRange>) {
    var defs, uses := Positions(p, Definition, r, |p|), Positions(p, Use, r, |p|);
    if defs == [] then |ranges| == 1 && ranges[0].first == -1 && ranges[0].uses == uses
    else |ranges| == |defs| && forall j | 0 <= j < |defs| :: IsSplit(defs, uses, j, Limit(p), ranges[j])
  }

  ghost predicate LivenessOf(p: Program, ranges: Ranges) {
    && (forall r: Reg | Positions(p, Definition, r, |p|) != [] || Positions(p, Use, r, |p|) != [] :: r in ranges)
    && (forall r: Reg | r in ranges :: RangesOf(p, r, ranges[r]))
  }

  method RangesOfRegister(defs: seq<nat>, uses: seq<nat>, limit: nat) returns (ranges: seq<LiveRange>)
    ensures |ranges| == |defs| && forall j | 0 <= j < |defs| :: IsSplit(defs, uses, j, limit, ranges[j])
  {
    ranges := [];
    for j := 0 to |defs|
      invariant |ranges| == j && forall i | 0 <= i < j :: IsSplit(defs, uses, i, limit, ranges[i])
    {
      var lr := SplitRange(defs, uses, j, limit);
      ranges := ranges + [lr];
    }
  }

  ghost predicate Indexed(p: Program, defs: Index, uses: Index) {
    Indexes(defs, p, Definition, |p|) && Indexes(uses, p, Use, |p|)
  }

  /** The ranges of the registers that are defined. */
  method RangesOfDefined(p: Program, defs: Index, uses: Index) returns (ranges: Ranges)
    requires Indexed(p, defs, uses)
    ensures ranges.Keys == defs.Keys && forall r: Reg | r in ranges :: RangesOf(p, r, ranges[r])
  {
    ranges := map[];
    var todo := defs.Keys;
    while todo != {}
      invariant todo <= defs.Keys && ranges.Keys == defs.Keys - todo
      invariant forall r: Reg | r in ranges :: RangesOf(p, r, ranges[r])
      decreases todo
    {
      var r :| r in todo;
      todo := todo - {r};
      var split := RangesOfRegister(defs[r], Lookup(uses, r), Limit(p));
      SplitIsRanges(p, defs, uses, r, split);
      ranges := ranges[r := split];
    }
  }

  lemma SplitIsRanges(p: Program, defs: Index, uses: Index, r: Reg, split: seq<LiveRange>)
    requires Indexed(p, defs, uses) && r in defs && |split| == |defs[r]|
    requires forall j | 0 <= j < |split| :: IsSplit(defs[r], Lookup(uses, r), j, Limit(p), split[j])
    ensures RangesOf(p, r, split)
  {
    assert Lookup(defs, r) == Positions(p, Definition, r, |p|) && Lookup(uses, r) == Positions(p, Use, r, |p|);
  }

  lemma UsedOnlyRange(p: Program, defs: Index, uses: Index, r: Reg)
    requires Indexed(p, defs, uses) && r in uses && r !in defs
    ensures uses[r] != [] && RangesOf(p, r, [LiveRange(-1, uses[r][|uses[r]| - 1], uses[r])])
  {
    assert Lookup(defs, r) == Positions(p, Definition, r, |p|) && Lookup(uses, r) == Positions(p, Use, r, |p|);
  }

  method AnalyzeLiveness(p: Program) returns (ranges: Ranges)
    ensures LivenessOf(p, ranges)
  {
    var defs, uses := CollectOccurrences(p);
    ranges := RangesOfDefined(p, defs, uses);
    var todo := uses.Keys - defs.Keys;
    while todo != {}
      invariant todo <= uses.Keys - defs.Keys && ranges.Keys == defs.Keys + uses.Keys - todo
      invariant forall r: Reg | r in ranges :: RangesOf(p, r, ranges[r])
      decreases todo
    {
      var r :| r in todo;
      todo := todo - {r};
      UsedOnlyRange(p, defs, uses, r);
      ranges := ranges[r := [LiveRange(-1, uses[r][|uses[r]| - 1], uses[r])]];
    }
    forall r: Reg | Positions(p, Definition, r, |p|) != [] || Positions(p, Use, r, |p|) != []
      ensures r in ranges
    {
      assert Lookup(defs, r) == Positions(p, Definition, r, |p|) && Lookup(uses, r) == Positions(p, Use, r, |p|);
    }
  }

  /* ---------- what the ranges record ---------- */

  /** Some range of `r` lists the use at `u`. */
  predicate Recorded(ranges: seq<LiveRange>, u: nat) {
    exists j :: 0 <= j < |ranges| && IsLive(ranges[j]) && u in ranges[j].uses
  }

  /** The definition that a position at or after the first definition falls under. */
  lemma {:induction false} Enclosing(defs: seq<nat>, u: nat, j: nat) returns (k: nat)
    requires j < |defs| && Ascending(defs) && defs[j] <= u
    ensures j <= k < |defs| && defs[k] <= u && (k + 1 < |defs| ==> u < defs[k + 1])
    decreases |defs| - j
  {
    if j + 1 < |defs| && defs[j + 1] <= u {
      k := Enclosing(defs, u, j + 1);
    } else {
      k := j;
    }
  }

  lemma {:induction false} RecordedInSplits(defs: seq<nat>, uses: seq<nat>, limit: nat, ranges: seq<LiveRange>, u: nat)
    requires Ascending(defs) && defs != [] && |ranges| == |defs| && (u in uses ==> u < limit)
    requires forall j | 0 <= j < |defs| :: IsSplit(defs, uses, j, limit, ranges[j])
    ensures Recorded(ranges, u) <==> u in uses && defs[0] <= u && forall m | 2 <= m < |defs| :: defs[m] != u
  {
    if u in uses && defs[0] <= u {
      var k := Enclosing(defs, u, 0);
      if k == 0 || defs[k] != u {
        assert Takes(defs, k, limit, u);
        assert u in ranges[k].uses;
      } else if k == 1 {
        assert Takes(defs, 0, limit, u);
        assert u in ranges[0].uses;
      }
    }
  }

  /** Exactly the read-modify-write uses at a third or later definition are lost, and those before the first. */
  lemma RecordedExactly(p: Program, r: Reg, ranges: seq<LiveRange>, u: nat)
    requires RangesOf(p, r, ranges) && Positions(p, Definition, r, |p|) != []
    ensures
      var defs := Positions(p, Definition, r, |p|);
      Recorded(ranges, u) <==>
        Occurs(p, Use, u, r) && defs[0] <= u
        && (Occurs(p, Definition, u, r) ==> |Positions(p, Definition, r, u)| <= 1)
  {
    var defs, uses := Positions(p, Definition, r, |p|), Positions(p, Use, r, |p|);
    PositionsFacts(p, Definition, r, |p|);
    PositionsFacts(p, Use, r, |p|);
    RecordedInSplits(defs, uses, Limit(p), ranges, u);
    if u in defs {
      var m: nat :| m < |defs| && defs[m] == u;
      PositionsPrefix(p, Definition, r, |p|, m);
      assert |Positions(p, Definition, r, u)| == m;
    }
  }

  /* ---------- merging ---------- */

  datatype Interval = Interval(first: nat, last: nat)

  predicate Overlap(a: Interval, b: Interval) { a.first <= b.last && b.first <= a.last }

  /** The merged interval is the span from the first definition to the last occurrence. */
  ghost predicate Span(p: Program, r: Reg, iv: Interval) {
    && Occurs(p, Definition, iv.first, r)
    && (Occurs(p, Definition, iv.last, r) || Occurs(p, Use, iv.last, r))
    && iv.first <= iv.last
    && (forall k: nat | Occurs(p, Definition, k, r) :: iv.first <= k <= iv.last)
    && (forall k: nat | Occurs(p, Use, k, r) && iv.first <= k :: k <= iv.last)
  }

  /** The least first definition and the greatest last use of the ranges before `n`. */
  ghost predicate MergedUpTo(ranges: seq<LiveRange>, n: nat, iv: Interval)
    requires n <= |ranges|
  {
    && (exists j :: 0 <= j < n && IsLive(ranges[j]) && ranges[j].first == iv.first)
    && (exists j :: 0 <= j < n && IsLive(ranges[j]) && ranges[j].last == iv.last)
    && (forall j | 0 <= j < n && IsLive(ranges[j]) :: iv.first <= ranges[j].first && ranges[j].last <= iv.last)
  }

  method MergeRanges(ranges: seq<LiveRange>) returns (merged: Option<Interval>)
    ensures merged.Some? ==> MergedUpTo(ranges, |ranges|, merged.value)
    ensures merged.None? ==> forall j | 0 <= j < |ranges| :: !IsLive(ranges[j])
  {
    merged := None;
    for j := 0 to |ranges|
      invariant merged.Some? ==> MergedUpTo(ranges, j, merged.value)
      invariant merged.None? ==> forall i | 0 <= i < j :: !IsLive(ranges[i])
    {
      var lr := ranges[j];
      if IsLive(lr) {
        if merged.Some? {
          var iv := merged.value;
          merged := Some(Interval(
            if lr.first < iv.first then lr.first else iv.first,
            if lr.last > iv.last then lr.last else iv.last));
        } else {
          merged := Some(Interval(lr.first, lr.last));
        }
      }
    }
  }

  lemma SplitCovers(defs: seq<nat>, uses: seq<nat>, j: nat, limit: nat, lr: LiveRange)
    requires j < |defs| && IsSplit(defs, uses, j, limit, lr)
    ensures IsLive(lr) && lr.first == defs[j] && lr.last >= defs[j] && (lr.last as nat in defs || lr.last as nat in uses)
    ensures forall u: nat | u in uses && Takes(defs, j, limit, u) :: u <= lr.last
  {
    if lr.uses != [] {
      assert Takes(defs, j, limit, lr.last as nat);
    }
  }

  /** The first definition, and every definition, is inside the merged interval. */
  lemma MergedDefinitions(defs: seq<nat>, uses: seq<nat>, limit: nat, ranges: seq<LiveRange>, iv: Interval)
    requires Ascending(defs) && defs != [] && |ranges| == |defs| && MergedUpTo(ranges, |ranges|, iv)
    requires forall j | 0 <= j < |defs| :: IsSplit(defs, uses, j, limit, ranges[j])
    ensures iv.first == defs[0] && (iv.last in defs || iv.last in uses)
    ensures forall d | d in defs :: iv.first <= d <= iv.last
  {
    forall j: nat | j < |defs|
      ensures iv.first <= defs[j] <= iv.last
    {
      SplitCovers(defs, uses, j, limit, ranges[j]);
    }
    var k :| 0 <= k < |ranges| && IsLive(ranges[k]) && ranges[k].last == iv.last;
    SplitCovers(defs, uses, k, limit, ranges[k]);
  }

  /** Split ranges may lose uses; the merged interval covers every use from the first definition on. */
  lemma MergedUse(defs: seq<nat>, uses: seq<nat>, limit: nat, ranges: seq<LiveRange>, iv: Interval, u: nat)
    requires Ascending(defs) && defs != [] && |ranges| == |defs| && MergedUpTo(ranges, |ranges|, iv)
    requires forall j | 0 <= j < |defs| :: IsSplit(defs, uses, j, limit, ranges[j])
    requires u in uses && defs[0] <= u < limit
    ensures u <= iv.last
  {
    var k := Enclosing(defs, u, 0);
    SplitCovers(defs, uses, k, limit, ranges[k]);
    if u != defs[k] {
      assert Takes(defs, k, limit, u);
    }
  }

  lemma SpanOfMerged(p: Program, r: Reg, ranges: seq<LiveRange>, iv: Interval)
    requires RangesOf(p, r, ranges) && Positions(p, Definition, r, |p|) != []
    requires MergedUpTo(ranges, |ranges|, iv)
    ensures Span(p, r, iv)
  {
    var defs, uses := Positions(p, Definition, r, |p|), Positions(p, Use, r, |p|);
    PositionsFacts(p, Definition, r, |p|);
    PositionsFacts(p, Use, r, |p|);
    MergedDefinitions(defs, uses, Limit(p), ranges, iv);
    forall k: nat | Occurs(p, Use, k, r) && iv.first <= k
      ensures k <= iv.last
    {
      assert k in uses;
      MergedUse(defs, uses, Limit(p), ranges, iv, k);
    }
  }
}
