/** Dominators and natural loops of a control-flow graph, against their definitions by paths. */
module Graphs {
  import opened Sequences

  /** Blocks are numbered; `pred` is the inverse of `succ`. */
  datatype Graph = Graph(nodes: set<nat>, entry: nat, succ: map<nat, set<nat>>, pred: map<nat, set<nat>>)

  ghost predicate Valid(g: Graph) {
    && g.entry in g.nodes && g.succ.Keys == g.nodes && g.pred.Keys == g.nodes
    && (forall n, m | n in g.nodes && m in g.succ[n] :: m in g.nodes && n in g.pred[m])
    && (forall n, m | m in g.nodes && n in g.pred[m] :: n in g.nodes && m in g.succ[n])
  }

  predicate Edge(g: Graph, n: nat, m: nat) {
    n in g.succ && m in g.succ[n]
  }

  /* ---------- paths ---------- */

  ghost predicate Path(g: Graph, p: seq<nat>) {
    p != [] && p[0] in g.nodes && forall k | 0 <= k < |p| - 1 :: Edge(g, p[k], p[k + 1])
  }

  ghost predicate PathBetween(g: Graph, p: seq<nat>, n: nat, m: nat) {
    Path(g, p) && p[0] == n && p[|p| - 1] == m
  }

  ghost predicate Reachable(g: Graph, n: nat) {
    exists p: seq<nat> :: PathBetween(g, p, g.entry, n)
  }

  /** Every path from the entry to `n` passes through `d`. */
  ghost predicate Dominates(g: Graph, d: nat, n: nat) {
    forall p: seq<nat> | PathBetween(g, p, g.entry, n) :: d in p
  }

  lemma Join(g: Graph, p: seq<nat>, q: seq<nat>, n: nat, m: nat, l: nat)
    requires PathBetween(g, p, n, m) && PathBetween(g, q, m, l)
    ensures PathBetween(g, p + q[1..], n, l)
  {
    var r := p + q[1..];
    forall k | 0 <= k < |r| - 1
      ensures Edge(g, r[k], r[k + 1])
    {
      if k >= |p| - 1 {
        assert r[k] == q[k - |p| + 1] && r[k + 1] == q[k - |p| + 2];
      }
    }
  }

  lemma Extend(g: Graph, p: seq<nat>, n: nat, m: nat, l: nat)
    requires PathBetween(g, p, n, m) && Edge(g, m, l)
    ensures PathBetween(g, p + [l], n, l)
  {
  }

  lemma ReachableStep(g: Graph, n: nat, m: nat)
    requires Reachable(g, n) && Edge(g, n, m)
    ensures Reachable(g, m)
  {
    var p: seq<nat> :| PathBetween(g, p, g.entry, n);
    Extend(g, p, g.entry, n, m);
  }

  lemma {:induction false} ReachableInNodes(g: Graph, p: seq<nat>, n: nat, m: nat)
    requires Valid(g) && PathBetween(g, p, n, m)
    ensures m in g.nodes && forall k | 0 <= k < |p| :: p[k] in g.nodes
  {
    if |p| > 1 {
      var q := p[..|p| - 1];
      ReachableInNodes(g, q, n, q[|q| - 1]);
      assert Edge(g, p[|p| - 2], p[|p| - 1]);
    }
  }

  /* ---------- reverse postorder ---------- */

  ghost predicate LeadsTo(g: Graph, n: nat, m: nat) { exists p: seq<nat> :: PathBetween(g, p, n, m) }

  /** Successors of the visited nodes in `done` are visited. */
  ghost predicate ClosedUnder(g: Graph, done: set<nat>, visited: set<nat>) {
    forall n, m | n in done && Edge(g, n, m) :: m in visited
  }

  /** Every successor of a finished block was finished before it, or is on a cycle with it. */
  ghost predicate IsPostorder(g: Graph, postorder: seq<nat>) {
    forall k: nat | k < |postorder| :: SuccessorsBefore(g, postorder, k)
  }

  ghost predicate SuccessorsBefore(g: Graph, postorder: seq<nat>, k: nat)
    requires k < |postorder|
  {
    forall m | Edge(g, postorder[k], m) :: m in postorder[..k] || LeadsTo(g, m, postorder[k])
  }

  /** Visited blocks that are not finished lead to `name`. */
  ghost predicate OpenReach(g: Graph, visited: set<nat>, postorder: seq<nat>, name: nat) {
    forall n | n in visited && n !in Elements(postorder) :: LeadsTo(g, n, name)
  }

  lemma OpenReachNext(g: Graph, visited: set<nat>, postorder: seq<nat>, name: nat, succ: nat)
    requires OpenReach(g, visited, postorder, name) && Edge(g, name, succ)
    ensures OpenReach(g, visited, postorder, succ)
  {
    forall n | n in visited && n !in Elements(postorder)
      ensures LeadsTo(g, n, succ)
    {
      var p: seq<nat> :| PathBetween(g, p, n, name);
      Extend(g, p, n, name, succ);
    }
  }

  lemma PostorderAppend(g: Graph, postorder: seq<nat>, name: nat)
    requires IsPostorder(g, postorder) && forall m | Edge(g, name, m) :: m in postorder || LeadsTo(g, m, name)
    ensures IsPostorder(g, postorder + [name])
  {
    var longer := postorder + [name];
    forall k: nat | k < |longer|
      ensures SuccessorsBefore(g, longer, k)
    {
      assert longer[..k] == postorder[..k];
      if k < |postorder| {
        assert SuccessorsBefore(g, postorder, k);
      } else {
        assert postorder[..k] == postorder;
      }
    }
  }

  method Visit(g: Graph, name: nat, visited0: set<nat>, postorder0: seq<nat>)
    returns (visited: set<nat>, postorder: seq<nat>)
    requires Valid(g) && name in g.nodes && Reachable(g, name) && visited0 <= g.nodes
    requires Distinct(postorder0) && Elements(postorder0) <= visited0
    requires IsPostorder(g, postorder0) && OpenReach(g, visited0, postorder0, name)
    ensures visited0 + {name} <= visited <= g.nodes
    ensures forall n | n in visited && n !in visited0 :: Reachable(g, n)
    ensures ClosedUnder(g, visited - visited0, visited)
    ensures Distinct(postorder) && Elements(postorder) == Elements(postorder0) + (visited - visited0)
    ensures IsPostorder(g, postorder)
    ensures name !in visited0 ==> postorder != [] && postorder[|postorder| - 1] == name
    decreases g.nodes - visited0, 1
  {
    visited, postorder := visited0, postorder0;
    if name in visited {
      return;
    }
    visited := visited + {name};
    var todo := g.succ[name];
    OpenSelf(g, visited0, postorder0, name);
    while todo != {}
      invariant todo <= g.succ[name]
      invariant visited0 + {name} <= visited <= g.nodes
      invariant forall m | m in g.succ[name] - todo :: m in visited
      invariant forall n | n in visited && n !in visited0 :: Reachable(g, n)
      invariant ClosedUnder(g, visited - visited0 - {name}, visited)
      invariant Distinct(postorder)
      invariant Elements(postorder) == Elements(postorder0) + (visited - visited0 - {name})
      invariant IsPostorder(g, postorder) && OpenReach(g, visited, postorder, name)
      decreases todo
    {
      var succ :| succ in todo;
      todo := todo - {succ};
      ReachableStep(g, name, succ);
      OpenReachNext(g, visited, postorder, name, succ);
      visited, postorder := Visit(g, succ, visited, postorder);
    }
    assert name !in Elements(postorder);
    DistinctAppend(postorder, name);
    PostorderAppend(g, postorder, name);
    postorder := postorder + [name];
  }

  lemma OpenSelf(g: Graph, visited: set<nat>, postorder: seq<nat>, name: nat)
    requires OpenReach(g, visited, postorder, name) && name in g.nodes
    ensures OpenReach(g, visited + {name}, postorder, name)
  {
    assert PathBetween(g, [name], name, name);
  }

  function Reverse(s: seq<nat>): (r: seq<nat>)
    ensures |r| == |s| && forall k | 0 <= k < |s| :: r[k] == s[|s| - 1 - k]
  {
    if s == [] then [] else Reverse(s[1..]) + [s[0]]
  }

  lemma EntryReachable(g: Graph)
    requires Valid(g)
    ensures Reachable(g, g.entry)
  {
    assert PathBetween(g, [g.entry], g.entry, g.entry);
  }

  lemma {:induction false} ClosedCoversPath(g: Graph, visited: set<nat>, p: seq<nat>, n: nat)
    requires ClosedUnder(g, visited, visited) && g.entry in visited && PathBetween(g, p, g.entry, n)
    ensures n in visited
  {
    if |p| > 1 {
      var q := p[..|p| - 1];
      ClosedCoversPath(g, visited, q, q[|q| - 1]);
      assert Edge(g, p[|p| - 2], p[|p| - 1]);
    }
  }

  /** The successors of a block come after it, or are on a cycle with it. */
  ghost predicate ForwardFirst(g: Graph, order: seq<nat>, i: nat)
    requires i < |order|
  {
    forall m | Edge(g, order[i], m) :: m in order[i + 1..] || LeadsTo(g, m, order[i])
  }

  lemma ReversedForward(g: Graph, postorder: seq<nat>, order: seq<nat>, i: nat)
    requires IsPostorder(g, postorder) && order == Reverse(postorder) && i < |order|
    ensures ForwardFirst(g, order, i)
  {
    var k := |postorder| - 1 - i;
    assert SuccessorsBefore(g, postorder, k);
    forall m | Edge(g, order[i], m) && m in postorder[..k]
      ensures m in order[i + 1..]
    {
      var j :| 0 <= j < k && postorder[j] == m;
      assert order[|postorder| - 1 - j] == m;
      assert order[i + 1..][|postorder| - 1 - j - (i + 1)] == m;
    }
  }

  /** The reachable blocks, each once, the entry first, and edges leading forward except on cycles. */
  method ReversePostorder(g: Graph) returns (order: seq<nat>)
    requires Valid(g)
    ensures Distinct(order) && Elements(order) <= g.nodes
    ensures forall n: nat :: n in order <==> Reachable(g, n)
    ensures order != [] && order[0] == g.entry && forall i: nat | i < |order| :: ForwardFirst(g, order, i)
  {
    EntryReachable(g);
    var visited, postorder := Visit(g, g.entry, {}, []);
    order := Reverse(postorder);
    forall n: nat
      ensures n in order <==> n in visited
    {
      SameMembers(postorder, n);
    }
    forall n: nat | Reachable(g, n)
      ensures n in visited
    {
      var p: seq<nat> :| PathBetween(g, p, g.entry, n);
      ClosedCoversPath(g, visited, p, n);
    }
    forall i: nat | i < |order|
      ensures ForwardFirst(g, order, i)
    {
      ReversedForward(g, postorder, order, i);
    }
  }

  lemma SameMembers(s: seq<nat>, n: nat)
    ensures n in Reverse(s) <==> n in Elements(s)
  {
    var r := Reverse(s);
    if n in r {
      var k :| 0 <= k < |r| && r[k] == n;
      assert s[|s| - 1 - k] == n;
    }
    if n in s {
      var k :| 0 <= k < |s| && s[k] == n;
      assert r[|s| - 1 - k] == n;
    }
  }

  /* ---------- dominators ---------- */

  type Doms = map<nat, set<nat>>

  /** What the loop recomputes for a block: itself and whatever dominates all its reachable predecessors. */
  ghost predicate InRecomputed(g: Graph, doms: Doms, n: nat, d: nat)
    requires n in g.pred
  {
    d == n || ((exists m :: m in g.pred[n] && m in doms)
               && forall m | m in g.pred[n] && m in doms :: d in doms[m])
  }

  method Recompute(g: Graph, doms: Doms, n: nat) returns (result: set<nat>)
    requires n in g.pred
    ensures forall d: nat :: d in result <==> InRecomputed(g, doms, n, d)
  {
    var preds := set m | m in g.pred[n] && m in doms;
    if preds == {} {
      assert forall m | m in g.pred[n] && m in doms :: m in preds;
      return {n};
    }
    var first :| first in preds;
    assert first in g.pred[n] && first in doms;
    result := doms[first];
    var rest := preds - {first};
    ghost var seen := {first};
    while rest != {}
      invariant rest + seen == preds
      invariant forall d: nat :: d in result <==> forall m | m in seen :: d in doms[m]
      invariant first in seen
      decreases rest
    {
      var m :| m in rest;
      rest := rest - {m};
      seen := seen + {m};
      result := result * doms[m];
    }
    result := result + {n};
  }

  /** The loop invariant: an over-approximation of dominance that only shrinks. */
  ghost predicate DomsInvariant(g: Graph, reachable: seq<nat>, doms: Doms) {
    && Valid(g)
    && (forall n: nat :: n in reachable <==> Reachable(g, n))
    && doms.Keys == Elements(reachable)
    && (forall n | n in doms :: n in g.nodes && n in doms[n])
    && g.entry in doms && doms[g.entry] == {g.entry}
    && (forall n: nat, d: nat | n in doms && Dominates(g, d, n) :: d in doms[n])
    && (forall n: nat, d: nat | n in doms && n != g.entry && InRecomputed(g, doms, n, d) :: d in doms[n])
  }

  ghost predicate Fixpoint(g: Graph, doms: Doms, n: nat)
    requires n in doms && n in g.pred
  {
    n == g.entry || forall d: nat | d in doms[n] :: InRecomputed(g, doms, n, d)
  }

  /** A dominator of `n` is `n` or dominates every reachable predecessor of `n`. */
  lemma DominatorOfPredecessors(g: Graph, d: nat, n: nat, m: nat)
    requires Dominates(g, d, n) && d != n && Edge(g, m, n)
    ensures Dominates(g, d, m)
  {
    forall p: seq<nat> | PathBetween(g, p, g.entry, m)
      ensures d in p
    {
      Extend(g, p, g.entry, m, n);
      assert d in p + [n];
    }
  }

  lemma PredecessorExists(g: Graph, n: nat) returns (m: nat)
    requires Valid(g) && Reachable(g, n) && n != g.entry
    ensures Reachable(g, m) && Edge(g, m, n)
  {
    var p: seq<nat> :| PathBetween(g, p, g.entry, n);
    var q := p[..|p| - 1];
    m := q[|q| - 1];
    assert PathBetween(g, q, g.entry, m);
    assert Edge(g, p[|p| - 2], p[|p| - 1]);
  }

  /** Recomputing a block keeps the invariant. */
  lemma UpdateKeeps(g: Graph, reachable: seq<nat>, doms: Doms, n: nat, result: set<nat>)
    requires DomsInvariant(g, reachable, doms) && n in doms && n != g.entry
    requires forall d: nat :: d in result <==> InRecomputed(g, doms, n, d)
    ensures result <= doms[n]
    ensures DomsInvariant(g, reachable, doms[n := result])
  {
    var after := doms[n := result];
    forall d: nat | Dominates(g, d, n)
      ensures d in result
    {
      if d != n {
        assert n in reachable;
        var m := PredecessorExists(g, n);
        assert m in reachable && m in Elements(reachable) && m in doms && m in g.pred[n];
        forall m | m in g.pred[n] && m in doms
          ensures d in doms[m]
        {
          DominatorOfPredecessors(g, d, n, m);
        }
      }
    }
    forall k: nat, d: nat | k in after && k != g.entry && InRecomputed(g, after, k, d)
      ensures d in after[k]
    {
      assert InRecomputed(g, doms, k, d);
    }
  }

  /** At the fixpoint the computed sets are exactly the dominators. */
  lemma {:induction false} FixpointOnPath(g: Graph, reachable: seq<nat>, doms: Doms, p: seq<nat>, n: nat, d: nat)
    requires DomsInvariant(g, reachable, doms) && forall k | k in doms :: Fixpoint(g, doms, k)
    requires PathBetween(g, p, g.entry, n) && n in doms && d in doms[n]
    ensures d in p
  {
    if n == g.entry {
      assert p[0] in p;
    } else {
      var q := p[..|p| - 1];
      var m := q[|q| - 1];
      assert PathBetween(g, q, g.entry, m);
      assert Edge(g, p[|p| - 2], p[|p| - 1]);
      assert m in reachable;
      assert Fixpoint(g, doms, n);
      if d == n {
        assert p[|p| - 1] in p;
      } else {
        FixpointOnPath(g, reachable, doms, q, m, d);
      }
    }
  }

  function TotalSize(order: seq<nat>, doms: Doms): nat
    requires forall k | 0 <= k < |order| :: order[k] in doms
  {
    if order == [] then 0 else |doms[order[0]]| + TotalSize(order[1..], doms)
  }

  lemma {:induction false} SizeShrinks(order: seq<nat>, doms: Doms, n: nat, result: set<nat>)
    requires forall k | 0 <= k < |order| :: order[k] in doms
    requires n in doms && result < doms[n]
    ensures TotalSize(order, doms[n := result]) <= TotalSize(order, doms)
    ensures n in order ==> TotalSize(order, doms[n := result]) < TotalSize(order, doms)
  {
    if order != [] {
      SizeShrinks(order[1..], doms, n, result);
      assert n in order <==> n == order[0] || n in order[1..];
      SubsetSize(result, doms[n]);
    }
  }

  lemma InitialDoms(g: Graph, reachable: seq<nat>, doms: Doms)
    requires Valid(g) && forall n: nat :: n in reachable <==> Reachable(g, n)
    requires doms == (map n | n in Elements(reachable) :: Elements(reachable))[g.entry := {g.entry}]
    ensures DomsInvariant(g, reachable, doms)
  {
    EntryReachable(g);
    assert doms.Keys == Elements(reachable);
    forall n | n in doms
      ensures n in g.nodes
    {
      assert n in reachable;
      var p: seq<nat> :| PathBetween(g, p, g.entry, n);
      ReachableInNodes(g, p, g.entry, n);
    }
    forall n: nat, d: nat | n in doms && Dominates(g, d, n)
      ensures d in doms[n]
    {
      assert n in reachable;
      if n == g.entry {
        assert PathBetween(g, [g.entry], g.entry, g.entry);
        assert d in [g.entry];
      } else {
        var p: seq<nat> :| PathBetween(g, p, g.entry, n);
        var k :| 0 <= k < |p| && p[k] == d;
        assert PathBetween(g, p[..k + 1], g.entry, d);
      }
    }
    forall n: nat, d: nat | n in doms && n != g.entry && InRecomputed(g, doms, n, d)
      ensures d in doms[n]
    {
      if d != n {
        var m :| m in g.pred[n] && m in doms;
        assert d in doms[m] && doms[m] <= Elements(reachable);
      }
    }
  }

  lemma FixpointIsDominance(g: Graph, reachable: seq<nat>, doms: Doms)
    requires DomsInvariant(g, reachable, doms) && forall k | k in doms :: Fixpoint(g, doms, k)
    ensures forall n: nat, d: nat | n in doms :: d in doms[n] <==> Dominates(g, d, n)
  {
    forall n: nat, d: nat | n in doms && d in doms[n]
      ensures Dominates(g, d, n)
    {
      forall p: seq<nat> | PathBetween(g, p, g.entry, n)
        ensures d in p
      {
        FixpointOnPath(g, reachable, doms, p, n, d);
      }
    }
  }

  /** Recomputes the set of one block. */
  method Improve(g: Graph, reachable: seq<nat>, doms0: Doms, name: nat) returns (doms: Doms, changed: bool)
    requires DomsInvariant(g, reachable, doms0) && name in doms0 && name in Elements(reachable)
    ensures DomsInvariant(g, reachable, doms)
    ensures changed ==> DomsSize(g, reachable, doms) < DomsSize(g, reachable, doms0)
    ensures !changed ==> doms == doms0 && Fixpoint(g, doms, name)
  {
    doms, changed := doms0, false;
    if name != g.entry {
      var newDom := Recompute(g, doms, name);
      UpdateKeeps(g, reachable, doms, name, newDom);
      if newDom != doms[name] {
        SizeShrinks(reachable, doms, name, newDom);
        doms := doms[name := newDom];
        changed := true;
      }
    }
  }

  /** One sweep over the reachable blocks. */
  method Sweep(g: Graph, reachable: seq<nat>, doms0: Doms) returns (doms: Doms, changed: bool)
    requires DomsInvariant(g, reachable, doms0)
    ensures DomsInvariant(g, reachable, doms)
    ensures changed ==> DomsSize(g, reachable, doms) < DomsSize(g, reachable, doms0)
    ensures !changed ==> forall n | n in doms :: Fixpoint(g, doms, n)
  {
    doms, changed := doms0, false;
    for k := 0 to |reachable|
      invariant DomsInvariant(g, reachable, doms)
      invariant changed ==> DomsSize(g, reachable, doms) < DomsSize(g, reachable, doms0)
      invariant !changed ==> doms == doms0 && forall l | 0 <= l < k :: Fixpoint(g, doms, reachable[l])
    {
      assert reachable[k] in Elements(reachable);
      var improved: bool;
      doms, improved := Improve(g, reachable, doms, reachable[k]);
      changed := changed || improved;
    }
    forall n | n in doms && !changed
      ensures Fixpoint(g, doms, n)
    {
      assert n in Elements(reachable);
      var k :| 0 <= k < |reachable| && reachable[k] == n;
    }
  }

  /** The dominator sets of the reachable blocks are exactly the sets of blocks on every path. */
  method Dominators(g: Graph) returns (doms: Doms)
    requires Valid(g)
    ensures forall n: nat :: n in doms <==> Reachable(g, n)
    ensures forall n: nat, d: nat | n in doms :: d in doms[n] <==> Dominates(g, d, n)
  {
    var reachable := ReversePostorder(g);
    doms := map n | n in Elements(reachable) :: Elements(reachable);
    doms := doms[g.entry := {g.entry}];
    InitialDoms(g, reachable, doms);
    var changed := true;
    while changed
      invariant DomsInvariant(g, reachable, doms)
      invariant !changed ==> forall n | n in doms :: Fixpoint(g, doms, n)
      decreases if changed then 1 + DomsSize(g, reachable, doms) else 0
    {
      doms, changed := Sweep(g, reachable, doms);
    }
    FixpointIsDominance(g, reachable, doms);
    assert forall n: nat :: n in doms <==> n in Elements(reachable);
  }

  ghost function DomsSize(g: Graph, reachable: seq<nat>, doms: Doms): nat
    requires DomsInvariant(g, reachable, doms)
  {
    assert forall k | 0 <= k < |reachable| :: reachable[k] in Elements(reachable);
    TotalSize(reachable, doms)
  }

  /* ---------- natural loops ---------- */

  /** An edge to a block that dominates its source. */
  ghost predicate BackEdge(g: Graph, tail: nat, header: nat) {
    Edge(g, tail, header) && Reachable(g, tail) && Dominates(g, header, tail)
  }

  method BackEdges(g: Graph) returns (edges: set<(nat, nat)>)
    requires Valid(g)
    ensures forall t: nat, h: nat :: (t, h) in edges <==> BackEdge(g, t, h)
  {
    var doms := Dominators(g);
    edges := set t, h | t in g.nodes && h in g.succ[t] && t in doms && h in doms[t] :: (t, h);
  }

  /** A path from `n` to the tail that avoids the header. */
  ghost predicate ReachesAvoiding(g: Graph, n: nat, tail: nat, header: nat) {
    exists p: seq<nat> :: PathBetween(g, p, n, tail) && header !in p
  }

  /** The natural loop of a back edge. */
  ghost predicate InLoop(g: Graph, tail: nat, header: nat, n: nat) {
    n == header || ReachesAvoiding(g, n, tail, header)
  }

  lemma StepBack(g: Graph, m: nat, n: nat, tail: nat, header: nat)
    requires Valid(g) && Edge(g, m, n) && m != header && ReachesAvoiding(g, n, tail, header)
    ensures ReachesAvoiding(g, m, tail, header)
  {
    var p: seq<nat> :| PathBetween(g, p, n, tail) && header !in p;
    var q := [m] + p;
    assert PathBetween(g, q, m, tail);
    assert header !in q;
  }

  lemma {:induction false} BackwardClosed(g: Graph, loop: set<nat>, p: seq<nat>, n: nat, tail: nat, header: nat)
    requires Valid(g) && tail in loop
    requires forall l, m | l in loop && l != header && Edge(g, m, l) && m != header :: m in loop
    requires PathBetween(g, p, n, tail) && header !in p
    ensures n in loop
  {
    if |p| > 1 {
      assert Edge(g, p[0], p[1]);
      assert p[0] in p && p[1] in p;
      BackwardClosed(g, loop, p[1..], p[1], tail, header);
    }
  }

  /** `natural_loops` for one back edge: exactly the header and the blocks that reach the tail without it. */
  method NaturalLoop(g: Graph, tail: nat, header: nat) returns (loop: set<nat>)
    requires Valid(g) && tail in g.nodes && header in g.nodes
    ensures loop <= g.nodes
    ensures forall n: nat :: n in loop <==> InLoop(g, tail, header, n)
  {
    if tail == header {
      loop := {header};
      assert forall n: nat, p: seq<nat> | PathBetween(g, p, n, tail) :: p[|p| - 1] in p;
      return;
    }
    loop := {header, tail};
    var worklist := [tail];
    assert PathBetween(g, [tail], tail, tail);
    while worklist != []
      invariant {header, tail} <= loop <= g.nodes
      invariant forall n | n in worklist :: n in loop && n != header
      invariant forall n | n in loop :: InLoop(g, tail, header, n)
      invariant forall n, m | n in loop && n != header && n !in worklist && Edge(g, m, n) && m != header :: m in loop
      decreases g.nodes - loop, |worklist|
    {
      var block := worklist[|worklist| - 1];
      assert block in worklist;
      worklist := worklist[..|worklist| - 1];
      ghost var loop0, popped := loop, worklist;
      var preds := g.pred[block];
      ghost var done: set<nat> := {};
      while preds != {}
        invariant preds + done == g.pred[block]
        invariant loop0 <= loop <= g.nodes
        invariant loop == loop0 ==> worklist == popped
        invariant forall n | n in worklist :: n in loop && n != header
        invariant forall n | n in loop :: InLoop(g, tail, header, n)
        invariant forall m | m in done && m != header :: m in loop
        invariant forall n, m | n in loop && n != header && n != block && n !in worklist && Edge(g, m, n) && m != header
                    :: m in loop
        decreases preds
      {
        var pred :| pred in preds;
        preds := preds - {pred};
        done := done + {pred};
        if pred != header && pred !in loop {
          StepBack(g, pred, block, tail, header);
          loop := loop + {pred};
          worklist := worklist + [pred];
          assert worklist[|worklist| - 1] == pred;
        }
      }
    }
    forall n: nat | ReachesAvoiding(g, n, tail, header)
      ensures n in loop
    {
      var p: seq<nat> :| PathBetween(g, p, n, tail) && header !in p;
      BackwardClosed(g, loop, p, n, tail, header);
    }
  }

  /** Only the header can be entered from outside the loop. */
  lemma LoopEntry(g: Graph, tail: nat, header: nat, m: nat, n: nat)
    requires Valid(g) && InLoop(g, tail, header, n) && n != header && Edge(g, m, n)
    ensures InLoop(g, tail, header, m)
  {
    if m != header {
      StepBack(g, m, n, tail, header);
    }
  }

  /** The header dominates every member of the loop. */
  lemma HeaderDominates(g: Graph, tail: nat, header: nat, n: nat)
    requires Valid(g) && BackEdge(g, tail, header) && InLoop(g, tail, header, n)
    ensures Dominates(g, header, n)
  {
    forall p: seq<nat> | PathBetween(g, p, g.entry, n)
      ensures header in p
    {
      if n == header {
        assert p[|p| - 1] in p;
      } else {
        var q: seq<nat> :| PathBetween(g, q, n, tail) && header !in q;
        Join(g, p, q, g.entry, n, tail);
        assert forall x | x in q[1..] :: x in q;
        assert header in p + q[1..];
      }
    }
  }
}
