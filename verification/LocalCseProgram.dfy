/** The pass over a whole program: scopes, reads outside a scope, and why every run is preserved. */
module LocalCseProgram {
  import opened Isa
  import opened Ptx
  import opened Agreement
  import opened LocalCse
  import opened LocalCseMeaning

  /* ---------- scopes ---------- */

  /** A label or an instruction that ends a scope, or a scope. */
  datatype Scope = Boundary(item: Item) | Body(insts: seq<Instr>)

  predicate WellScoped(scope: Scope) {
    match scope
    case Boundary(item) => item.Label? || !Keyed(item.inst)
    case Body(insts) => insts != [] && Straight(insts)
  }

  function CodeItems(insts: seq<Instr>): (r: Program)
    ensures |r| == |insts| && forall k | 0 <= k < |r| :: r[k] == Code(insts[k])
  {
    seq(|insts|, k requires 0 <= k < |insts| => Code(insts[k]))
  }

  function ScopeItems(scope: Scope): Program {
    match scope
    case Boundary(item) => [item]
    case Body(insts) => CodeItems(insts)
  }

  function Flatten(scopes: seq<Scope>): Program {
    if scopes == [] then [] else Flatten(scopes[..|scopes| - 1]) + ScopeItems(scopes[|scopes| - 1])
  }

  predicate AllScoped(scopes: seq<Scope>) { forall j | 0 <= j < |scopes| :: WellScoped(scopes[j]) }

  lemma CodeItemsAppend(insts: seq<Instr>, i: Instr)
    ensures CodeItems(insts + [i]) == CodeItems(insts) + [Code(i)]
  {
  }

  lemma FlattenAppend(scopes: seq<Scope>, scope: Scope)
    ensures Flatten(scopes + [scope]) == Flatten(scopes) + ScopeItems(scope)
  {
    assert (scopes + [scope])[..|scopes|] == scopes;
  }

  /** No two bodies are next to each other, so each is as long as it can be. */
  predicate Maximal(scopes: seq<Scope>) {
    forall j | 0 <= j < |scopes| - 1 :: scopes[j].Boundary? || scopes[j + 1].Boundary?
  }

  /** The scopes of a program. */
  ghost predicate IsSplitOf(p: Program, scopes: seq<Scope>) {
    AllScoped(scopes) && Maximal(scopes) && Flatten(scopes) == p
  }

  predicate EndsInBoundary(scopes: seq<Scope>) { scopes != [] ==> scopes[|scopes| - 1].Boundary? }

  /** Closed scopes, the last of which is a boundary, and the instructions collected since. */
  predicate Splitting(scopes: seq<Scope>, current: seq<Instr>) {
    AllScoped(scopes) && Maximal(scopes) && EndsInBoundary(scopes) && Straight(current)
  }

  /** Adds the instructions collected so far, if any. */
  method Flush(scopes: seq<Scope>, current: seq<Instr>) returns (after: seq<Scope>)
    requires Splitting(scopes, current)
    ensures AllScoped(after) && Maximal(after) && Flatten(after) == Flatten(scopes) + CodeItems(current)
  {
    hide Flatten;
    after := scopes;
    if current == [] {
      assert Flatten(scopes) + CodeItems(current) == Flatten(scopes);
    } else {
      FlattenAppend(scopes, Body(current));
      after := scopes + [Body(current)];
    }
  }

  method CloseScope(scopes: seq<Scope>, current: seq<Instr>, item: Item) returns (after: seq<Scope>)
    requires Splitting(scopes, current) && WellScoped(Boundary(item))
    ensures Splitting(after, []) && Flatten(after) == Flatten(scopes) + CodeItems(current) + [item]
  {
    after := Flush(scopes, current);
    FlattenAppend(after, Boundary(item));
    after := after + [Boundary(item)];
  }

  /** `_split_cse_scopes` */
  method SplitScopes(p: Program) returns (scopes: seq<Scope>)
    ensures IsSplitOf(p, scopes)
  {
    scopes := [];
    var current: seq<Instr> := [];
    for k := 0 to |p|
      invariant Splitting(scopes, current)
      invariant Collected(scopes, current) == p[..k]
    {
      scopes, current := AddItem(scopes, current, p[k]);
      PrefixNext(p, k);
    }
    scopes := Flush(scopes, current);
    assert p[..|p|] == p;
  }

  lemma PrefixNext(p: Program, k: nat)
    requires k < |p|
    ensures p[..k + 1] == p[..k] + [p[k]]
  {
  }

  function Collected(scopes: seq<Scope>, current: seq<Instr>): Program { Flatten(scopes) + CodeItems(current) }

  method AddItem(scopes0: seq<Scope>, current0: seq<Instr>, item: Item)
    returns (scopes: seq<Scope>, current: seq<Instr>)
    requires Splitting(scopes0, current0)
    ensures Splitting(scopes, current)
    ensures Collected(scopes, current) == Collected(scopes0, current0) + [item]
  {
    if item.Code? && Keyed(item.inst) {
      CodeItemsAppend(current0, item.inst);
      scopes, current := scopes0, current0 + [item.inst];
    } else {
      scopes := CloseScope(scopes0, current0, item);
      current := [];
    }
  }

  /* ---------- there is one way to split ---------- */

  lemma FlattenSplit(scopes: seq<Scope>)
    requires scopes != []
    ensures Flatten(scopes) == Flatten(scopes[..|scopes| - 1]) + ScopeItems(scopes[|scopes| - 1])
  {
  }

  lemma LastItemOf(p: Program, scopes: seq<Scope>)
    requires IsSplitOf(p, scopes) && scopes != []
    ensures p != []
    ensures
      var last := scopes[|scopes| - 1];
      last.Body? <==> (p[|p| - 1].Code? && Keyed(p[|p| - 1].inst))
  {
    FlattenSplit(scopes);
    assert WellScoped(scopes[|scopes| - 1]);
  }

  lemma FrontSplit(p: Program, scopes: seq<Scope>)
    requires IsSplitOf(p, scopes) && scopes != []
    ensures
      var front, items := scopes[..|scopes| - 1], ScopeItems(scopes[|scopes| - 1]);
      |items| <= |p| && IsSplitOf(p[..|p| - |items|], front) && items == p[|p| - |items|..]
  {
    FlattenSplit(scopes);
  }

  /** The item before a body is not an instruction of a scope. */
  lemma BeforeBody(p: Program, scopes: seq<Scope>, n: nat)
    requires IsSplitOf(p, scopes) && scopes != [] && scopes[|scopes| - 1].Body?
    requires n == |p| - |scopes[|scopes| - 1].insts| && n > 0
    ensures !(p[n - 1].Code? && Keyed(p[n - 1].inst))
  {
    FrontSplit(p, scopes);
    var front := scopes[..|scopes| - 1];
    assert front != [];
    assert front[|front| - 1] == scopes[|scopes| - 2] && scopes[|scopes| - 2].Boundary?;
    LastItemOf(p[..n], front);
    assert p[..n][n - 1] == p[n - 1];
  }

  lemma BodyItemsKeyed(p: Program, scopes: seq<Scope>, k: nat)
    requires IsSplitOf(p, scopes) && scopes != [] && scopes[|scopes| - 1].Body?
    requires k < |p| && |p| - |scopes[|scopes| - 1].insts| <= k
    ensures p[k].Code? && Keyed(p[k].inst)
  {
    FrontSplit(p, scopes);
    var insts := scopes[|scopes| - 1].insts;
    assert WellScoped(scopes[|scopes| - 1]);
    var j := k - (|p| - |insts|);
    assert p[|p| - |insts|..][j] == p[k] && CodeItems(insts)[j] == Code(insts[j]);
  }

  lemma SameBody(a: seq<Instr>, b: seq<Instr>)
    requires CodeItems(a) == CodeItems(b)
    ensures a == b
  {
    assert |a| == |CodeItems(a)|;
    forall k | 0 <= k < |a|
      ensures a[k] == b[k]
    {
      assert CodeItems(a)[k] == CodeItems(b)[k];
    }
  }

  lemma SameLast(p: Program, a: seq<Scope>, b: seq<Scope>)
    requires IsSplitOf(p, a) && IsSplitOf(p, b) && a != [] && b != []
    ensures a[|a| - 1] == b[|b| - 1]
  {
    hide Flatten;
    LastItemOf(p, a);
    LastItemOf(p, b);
    FrontSplit(p, a);
    FrontSplit(p, b);
    var x, y := a[|a| - 1], b[|b| - 1];
    if x.Body? {
      var m, n := |p| - |x.insts|, |p| - |y.insts|;
      if m < n {
        BodyItemsKeyed(p, a, n - 1);
        BeforeBody(p, b, n);
      } else if n < m {
        BodyItemsKeyed(p, b, m - 1);
        BeforeBody(p, a, m);
      }
      SameBody(x.insts, y.insts);
    } else {
      assert ScopeItems(x)[0] == p[|p| - 1] && ScopeItems(y)[0] == p[|p| - 1];
    }
  }

  lemma NothingSplit(p: Program, scopes: seq<Scope>)
    requires IsSplitOf(p, scopes)
    ensures scopes == [] <==> p == []
  {
    if scopes != [] {
      LastItemOf(p, scopes);
    }
  }

  /** A program has one sequence of scopes. */
  lemma {:induction false} SplitUnique(p: Program, a: seq<Scope>, b: seq<Scope>)
    requires IsSplitOf(p, a) && IsSplitOf(p, b)
    ensures a == b
    decreases |a|
  {
    hide Flatten, ScopeItems;
    if a == [] || b == [] {
      NothingSplit(p, a);
      NothingSplit(p, b);
    } else {
      SameLast(p, a, b);
      FrontSplit(p, a);
      FrontSplit(p, b);
      var k := |ScopeItems(a[|a| - 1])|;
      SplitUnique(p[..|p| - k], a[..|a| - 1], b[..|b| - 1]);
      assert a == a[..|a| - 1] + [a[|a| - 1]] && b == b[..|b| - 1] + [b[|b| - 1]];
    }
  }

  /* ---------- read counts ---------- */

  predicate ItemReads(item: Item, r: Reg) { item.Code? && r in ReadRegs(item.inst) }

  /** How many instructions read `r`. */
  function ReadCount(p: Program, r: Reg): nat {
    if p == [] then 0 else ReadCount(p[..|p| - 1], r) + (if ItemReads(p[|p| - 1], r) then 1 else 0)
  }

  type Counter = map<Reg, nat>

  function CountOf(c: Counter, r: Reg): nat { if r in c then c[r] else 0 }

  /** Adds one for each register of a set. */
  method CountEach(c: Counter, regs: set<Reg>) returns (after: Counter)
    ensures forall r: Reg :: CountOf(after, r) == CountOf(c, r) + (if r in regs then 1 else 0)
  {
    after := c;
    var todo := regs;
    while todo != {}
      invariant todo <= regs
      invariant forall r: Reg :: CountOf(after, r) == CountOf(c, r) + (if r in regs && r !in todo then 1 else 0)
      decreases todo
    {
      var r :| r in todo;
      todo := todo - {r};
      after := after[r := CountOf(after, r) + 1];
    }
  }

  method CountReads(p: Program) returns (c: Counter)
    ensures forall r: Reg :: CountOf(c, r) == ReadCount(p, r)
  {
    c := map[];
    for k := 0 to |p|
      invariant forall r: Reg :: CountOf(c, r) == ReadCount(p[..k], r)
    {
      assert p[..k + 1][..k] == p[..k];
      if p[k].Code? {
        c := CountEach(c, ReadRegs(p[k].inst));
      }
    }
    assert p[..|p|] == p;
  }

  lemma {:induction false} CountAppend(p: Program, q: Program, r: Reg)
    ensures ReadCount(p + q, r) == ReadCount(p, r) + ReadCount(q, r)
  {
    if q == [] {
      assert p + q == p;
    } else {
      assert (p + q)[..|p + q| - 1] == p + q[..|q| - 1];
      CountAppend(p, q[..|q| - 1], r);
    }
  }

  lemma {:induction false} CountPositive(p: Program, r: Reg)
    ensures ReadCount(p, r) > 0 <==> exists k :: 0 <= k < |p| && ItemReads(p[k], r)
  {
    if p != [] {
      CountPositive(p[..|p| - 1], r);
    }
  }

  predicate ScopeReads(scope: Scope, r: Reg) { ReadCount(ScopeItems(scope), r) > 0 }

  /** Some instruction of another scope reads `r`. */
  ghost predicate ReadOutside(scopes: seq<Scope>, j: nat, r: Reg) {
    exists l: nat :: l < |scopes| && l != j && ScopeReads(scopes[l], r)
  }

  lemma {:induction false} FlattenCount(scopes: seq<Scope>, r: Reg)
    ensures ReadCount(Flatten(scopes), r) > 0 <==> ReadOutside(scopes, |scopes|, r)
  {
    if scopes != [] {
      var front, last := scopes[..|scopes| - 1], scopes[|scopes| - 1];
      FlattenCount(front, r);
      CountAppend(Flatten(front), ScopeItems(last), r);
      OutsideFront(scopes, front, |scopes|, r);
    }
  }

  lemma OutsideFront(scopes: seq<Scope>, front: seq<Scope>, j: nat, r: Reg)
    requires scopes != [] && front == scopes[..|scopes| - 1]
    ensures ReadOutside(scopes, j, r) <==>
              ReadOutside(front, j, r) || (j != |front| && ScopeReads(scopes[|front|], r))
  {
    hide ScopeReads;
    assert forall l: nat | l < |front| :: front[l] == scopes[l];
    if l: nat :| l < |front| && l != j && ScopeReads(front[l], r) {
      assert ScopeReads(scopes[l], r);
    }
    if l: nat :| l < |scopes| && l != j && ScopeReads(scopes[l], r) {
      assert l < |front| ==> ScopeReads(front[l], r);
    }
  }

  /** A name is read more often in the program than in a scope exactly when another scope reads it. */
  lemma {:induction false} CountOutside(scopes: seq<Scope>, j: nat, r: Reg)
    requires j < |scopes|
    ensures ReadCount(Flatten(scopes), r) >= ReadCount(ScopeItems(scopes[j]), r)
    ensures ReadCount(Flatten(scopes), r) > ReadCount(ScopeItems(scopes[j]), r) <==> ReadOutside(scopes, j, r)
  {
    var front, last := scopes[..|scopes| - 1], scopes[|scopes| - 1];
    CountAppend(Flatten(front), ScopeItems(last), r);
    OutsideFront(scopes, front, j, r);
    if j < |front| {
      CountOutside(front, j, r);
    } else {
      FlattenCount(front, r);
    }
  }

  /* ---------- the pass ---------- */

  ghost predicate IsOutside(scopes: seq<Scope>, j: nat, outside: set<Reg>) {
    forall r: Reg :: r in outside <==> ReadOutside(scopes, j, r)
  }

  /** Scope `j` becomes `out`, with these destinations removed. */
  ghost predicate Optimized(scopes: seq<Scope>, j: nat, out: Scope, removed: set<Reg>)
    requires j < |scopes| && AllScoped(scopes)
  {
    match scopes[j]
    case Boundary(_) => out == scopes[j] && removed == {}
    case Body(insts) =>
      assert WellScoped(scopes[j]);
      exists outside: set<Reg> :: IsOutside(scopes, j, outside) && BodyOptimized(insts, outside, out, removed)
  }

  ghost predicate BodyOptimized(insts: seq<Instr>, outside: set<Reg>, out: Scope, removed: set<Reg>)
    requires Straight(insts)
  {
    var c := CseOf(insts, outside, |insts|);
    out == Body(c.optimized) && removed == set d | d in c.removed
  }

  /** `outs` and `removed` are what becomes of the scopes. */
  ghost predicate AllOptimized(scopes: seq<Scope>, outs: seq<Scope>, removed: seq<set<Reg>>) {
    && AllScoped(scopes) && |outs| == |scopes| && |removed| == |scopes|
    && forall j: nat | j < |scopes| :: Optimized(scopes, j, outs[j], removed[j])
  }

  method OutsideReads(scopes: seq<Scope>, j: nat, all: Counter) returns (outside: set<Reg>)
    requires j < |scopes| && forall r: Reg :: CountOf(all, r) == ReadCount(Flatten(scopes), r)
    ensures IsOutside(scopes, j, outside)
  {
    var mine := CountReads(ScopeItems(scopes[j]));
    outside := set r | r in all && CountOf(all, r) > CountOf(mine, r);
    forall r: Reg
      ensures r in outside <==> ReadOutside(scopes, j, r)
    {
      CountOutside(scopes, j, r);
    }
  }

  method OptimizeOne(scopes: seq<Scope>, j: nat, all: Counter) returns (out: Scope, ghost removed: set<Reg>)
    requires j < |scopes| && AllScoped(scopes) && forall r: Reg :: CountOf(all, r) == ReadCount(Flatten(scopes), r)
    ensures Optimized(scopes, j, out, removed)
  {
    assert WellScoped(scopes[j]);
    match scopes[j]
    case Boundary(_) =>
      out, removed := scopes[j], {};
    case Body(insts) =>
      var outside := OutsideReads(scopes, j, all);
      var c := OptimizeScope(insts, outside);
      out, removed := Body(c.optimized), set d | d in c.removed;
  }

  /** `q` is made of the optimised scopes of `p`. */
  ghost predicate IsOptimized(p: Program, q: Program, scopes: seq<Scope>, outs: seq<Scope>, removed: seq<set<Reg>>) {
    IsSplitOf(p, scopes) && q == Flatten(outs) && AllOptimized(scopes, outs, removed)
  }

  lemma OptimizedUnique(scopes: seq<Scope>, j: nat, out: Scope, removed: set<Reg>, out': Scope, removed': set<Reg>)
    requires j < |scopes| && AllScoped(scopes)
    requires Optimized(scopes, j, out, removed) && Optimized(scopes, j, out', removed')
    ensures out == out' && removed == removed'
  {
    assert WellScoped(scopes[j]);
    if scopes[j].Body? {
      var insts := scopes[j].insts;
      var a: set<Reg> :| IsOutside(scopes, j, a) && BodyOptimized(insts, a, out, removed);
      var b: set<Reg> :| IsOutside(scopes, j, b) && BodyOptimized(insts, b, out', removed');
      assert forall r: Reg :: r in a <==> r in b;
      assert a == b;
    }
  }

  /** The scopes, what becomes of them and the result are determined by the program. */
  lemma ResultUnique(p: Program, q: Program, scopes: seq<Scope>, outs: seq<Scope>, removed: seq<set<Reg>>,
                     q': Program, scopes': seq<Scope>, outs': seq<Scope>, removed': seq<set<Reg>>)
    requires IsOptimized(p, q, scopes, outs, removed) && IsOptimized(p, q', scopes', outs', removed')
    ensures scopes == scopes' && outs == outs' && removed == removed' && q == q'
  {
    SplitUnique(p, scopes, scopes');
    forall j: nat | j < |scopes|
      ensures outs[j] == outs'[j] && removed[j] == removed'[j]
    {
      OptimizedUnique(scopes, j, outs[j], removed[j], outs'[j], removed'[j]);
    }
  }

  method EliminateCommonSubexpressions(p: Program) returns (q: Program)
    ensures exists scopes, outs, removed :: IsOptimized(p, q, scopes, outs, removed)
  {
    var scopes := SplitScopes(p);
    var all := CountReads(p);
    q := [];
    ghost var outs: seq<Scope>, removed: seq<set<Reg>> := [], [];
    for j := 0 to |scopes|
      invariant |outs| == j && |removed| == j && q == Flatten(outs)
      invariant forall i: nat | i < j :: Optimized(scopes, i, outs[i], removed[i])
    {
      var out, gone := OptimizeOne(scopes, j, all);
      FlattenAppend(outs, out);
      q := q + ScopeItems(out);
      outs, removed := outs + [out], removed + [gone];
    }
    assert IsOptimized(p, q, scopes, outs, removed);
  }
}
