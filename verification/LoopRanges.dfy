/** The span of all natural loops, and the branches back that it contains. */
module LoopRanges {
  import opened Isa
  import opened Ptx
  import opened Cfg
  import G = Graphs

  /** Instruction `k` is in block `b` of the natural loop of a back edge. */
  ghost predicate InNaturalLoop(p: Program, g: G.Graph, tail: nat, header: nat, k: nat) {
    k < |p| && p[k].Code? && G.BackEdge(g, tail, header) && G.InLoop(g, tail, header, BlockOf(p, k))
  }

  ghost predicate InSomeLoop(p: Program, g: G.Graph, k: nat) {
    exists tail: nat, header: nat :: InNaturalLoop(p, g, tail, header, k)
  }

  /** The least and the greatest instruction of a set given by a predicate. */
  ghost predicate Bounds(range: Option<(nat, nat)>, inside: nat -> bool) {
    match range
    case None => forall k: nat :: !inside(k)
    case Some((a, b)) => inside(a) && inside(b) && forall k: nat | inside(k) :: a <= k <= b
  }

  function Widen(range: Option<(nat, nat)>, k: nat): Option<(nat, nat)> {
    match range
    case None => Some((k, k))
    case Some((a, b)) => Some((if k < a then k else a, if k > b then k else b))
  }

  lemma SameBounds(range: Option<(nat, nat)>, inside: nat -> bool, other: nat -> bool)
    requires Bounds(range, inside) && forall k: nat :: inside(k) <==> other(k)
    ensures Bounds(range, other)
  {
  }

  lemma WidenBounds(range: Option<(nat, nat)>, inside: nat -> bool, i: nat, other: nat -> bool)
    requires Bounds(range, inside) && forall k: nat :: other(k) <==> inside(k) || k == i
    ensures Bounds(Widen(range, i), other)
  {
    assert other(i);
  }

  /** Widens the range by the instructions of one block. */
  method WidenByBlock(p: Program, s: nat, range: Option<(nat, nat)>, ghost before: nat -> bool)
    returns (after: Option<(nat, nat)>)
    requires s <= |p| && Bounds(range, before)
    ensures Bounds(after, (k: nat) => before(k) || (s <= k < BlockEnd(p, s) && p[k].Code?))
  {
    after := range;
    ghost var seen := before;
    for i := s to BlockEnd(p, s)
      invariant Bounds(after, seen)
      invariant forall k: nat :: seen(k) <==> before(k) || (s <= k < i && p[k].Code?)
    {
      if p[i].Code? {
        ghost var next := (k: nat) => seen(k) || k == i;
        WidenBounds(after, seen, i, next);
        after, seen := Widen(after, i), next;
      }
    }
    SameBounds(after, seen, (k: nat) => before(k) || (s <= k < BlockEnd(p, s) && p[k].Code?));
  }

  ghost predicate InBlocks(p: Program, blocks: set<nat>, k: nat) {
    k < |p| && p[k].Code? && BlockOf(p, k) in blocks
  }

  lemma BlockMembers(p: Program, s: nat, k: nat)
    requires BlockStart(p, s) && k < |p| && s <= |p|
    ensures BlockOf(p, k) == s <==> s <= k < BlockEnd(p, s)
  {
    if s <= k < BlockEnd(p, s) {
      BlockOfStart(p, s, k);
    }
    BlockOfFacts(p, k);
  }

  method WidenByLoop(p: Program, loop: set<nat>, range: Option<(nat, nat)>, ghost before: nat -> bool)
    returns (after: Option<(nat, nat)>)
    requires loop <= Leaders(p) && Bounds(range, before)
    ensures Bounds(after, (k: nat) => before(k) || InBlocks(p, loop, k))
  {
    after := range;
    var todo, done := loop, {};
    ghost var seen := before;
    while todo != {}
      invariant done + todo == loop
      invariant Bounds(after, seen)
      invariant forall k: nat :: seen(k) <==> before(k) || InBlocks(p, done, k)
      decreases todo
    {
      var s :| s in todo;
      todo := todo - {s};
      assert s in Leaders(p);
      LeaderBound(p, s);
      after := WidenByBlock(p, s, after, seen);
      seen := BlockSeen(p, s, seen, before, done);
      done := done + {s};
    }
    assert done == loop;
    SameBounds(after, seen, (k: nat) => before(k) || InBlocks(p, loop, k));
  }

  lemma BlockSeen(p: Program, s: nat, seen: nat -> bool, before: nat -> bool, done: set<nat>) returns (f: nat -> bool)
    requires BlockStart(p, s) && s <= |p| && forall k: nat :: seen(k) <==> before(k) || InBlocks(p, done, k)
    ensures f == ((k: nat) => seen(k) || (s <= k < BlockEnd(p, s) && p[k].Code?))
    ensures forall k: nat :: f(k) <==> before(k) || InBlocks(p, done + {s}, k)
  {
    f := (k: nat) => seen(k) || (s <= k < BlockEnd(p, s) && p[k].Code?);
    forall k: nat
      ensures f(k) <==> before(k) || InBlocks(p, done + {s}, k)
    {
      if k < |p| {
        BlockMembers(p, s, k);
      }
    }
  }

  ghost predicate InLoopsOf(p: Program, g: G.Graph, edges: set<(nat, nat)>, k: nat) {
    exists e :: e in edges && InNaturalLoop(p, g, e.0, e.1, k)
  }

  method WidenByEdge(p: Program, g: G.Graph, e: (nat, nat), range: Option<(nat, nat)>, ghost edges: set<(nat, nat)>)
    returns (after: Option<(nat, nat)>)
    requires G.Valid(g) && g.nodes == Leaders(p) && G.BackEdge(g, e.0, e.1)
    requires Bounds(range, (k: nat) => InLoopsOf(p, g, edges, k))
    ensures Bounds(after, (k: nat) => InLoopsOf(p, g, edges + {e}, k))
  {
    ghost var seen := (k: nat) => InLoopsOf(p, g, edges, k);
    var loop := G.NaturalLoop(g, e.0, e.1);
    after := WidenByLoop(p, loop, range, seen);
    forall k: nat
      ensures (seen(k) || InBlocks(p, loop, k)) <==> InLoopsOf(p, g, edges + {e}, k)
    {
      LoopsGrow(p, g, edges, e, loop, k);
    }
    SameBounds(after, (k: nat) => seen(k) || InBlocks(p, loop, k), (k: nat) => InLoopsOf(p, g, edges + {e}, k));
  }

  method RangeOfLoops(p: Program, g: G.Graph, edges: set<(nat, nat)>) returns (range: Option<(nat, nat)>)
    requires G.Valid(g) && g.nodes == Leaders(p)
    requires forall e | e in edges :: G.BackEdge(g, e.0, e.1)
    ensures Bounds(range, (k: nat) => InLoopsOf(p, g, edges, k))
  {
    range := None;
    var todo, done := edges, {};
    while todo != {}
      invariant done + todo == edges
      invariant Bounds(range, (k: nat) => InLoopsOf(p, g, done, k))
      decreases todo
    {
      var e :| e in todo;
      todo := todo - {e};
      range := WidenByEdge(p, g, e, range, done);
      done := done + {e};
    }
    assert done == edges;
  }

  /** `_compute_loop_range`: `None` without a control-flow graph or without loops. */
  method ComputeLoopRange(p: Program) returns (range: Option<(nat, nat)>)
    ensures WellFormed(p) ==> Bounds(range, (k: nat) => InSomeLoop(p, CfgOf(p), k))
    ensures !WellFormed(p) ==> range.None?
  {
    var graph := BuildCfg(p);
    if graph.None? {
      return None;
    }
    CfgValid(p);
    var edges := G.BackEdges(graph.value);
    range := RangeOfLoops(p, graph.value, edges);
    AllBackEdges(p, graph.value, edges);
    SameBounds(range, (k: nat) => InLoopsOf(p, graph.value, edges, k), (k: nat) => InSomeLoop(p, graph.value, k));
  }

  lemma AllBackEdges(p: Program, g: G.Graph, edges: set<(nat, nat)>)
    requires forall t: nat, h: nat :: (t, h) in edges <==> G.BackEdge(g, t, h)
    ensures forall k: nat :: InLoopsOf(p, g, edges, k) <==> InSomeLoop(p, g, k)
  {
    forall k: nat
      ensures InLoopsOf(p, g, edges, k) <==> InSomeLoop(p, g, k)
    {
      if InSomeLoop(p, g, k) {
        var tail: nat, header: nat :| InNaturalLoop(p, g, tail, header, k);
        assert (tail, header) in edges && InNaturalLoop(p, g, (tail, header).0, (tail, header).1, k);
      }
      if InLoopsOf(p, g, edges, k) {
        var e :| e in edges && InNaturalLoop(p, g, e.0, e.1, k);
      }
    }
  }

  lemma LoopsGrow(p: Program, g: G.Graph, edges: set<(nat, nat)>, e: (nat, nat), loop: set<nat>, k: nat)
    requires G.BackEdge(g, e.0, e.1)
    requires forall n: nat :: n in loop <==> G.InLoop(g, e.0, e.1, n)
    ensures InLoopsOf(p, g, edges, k) || InBlocks(p, loop, k) <==> InLoopsOf(p, g, edges + {e}, k)
  {
    if InLoopsOf(p, g, edges, k) {
      var f :| f in edges && InNaturalLoop(p, g, f.0, f.1, k);
      assert f in edges + {e};
    }
    if InBlocks(p, loop, k) {
      assert e in edges + {e} && InNaturalLoop(p, g, e.0, e.1, k);
    }
  }

  /* ---------- branches back lie within the range ---------- */

  /** A path to `tail` that starts at the last visit of `header` on a path through it. */
  lemma {:induction false} LastVisit(g: G.Graph, path: seq<nat>, header: nat, tail: nat) returns (q: seq<nat>)
    requires G.Valid(g) && G.Path(g, path) && path[|path| - 1] == tail && header in path
    ensures G.PathBetween(g, q, header, tail) && header !in q[1..]
  {
    if header in path[1..] {
      assert G.Edge(g, path[0], path[1]);
      q := LastVisit(g, path[1..], header, tail);
    } else {
      q := path;
    }
  }

  /** The only successor of a block in a natural loop, other than the tail, is in the loop. */
  lemma OnlySuccessorInLoop(g: G.Graph, tail: nat, header: nat, m: nat, k: nat)
    requires G.Valid(g) && G.BackEdge(g, tail, header) && G.InLoop(g, tail, header, m) && m != tail
    requires m in g.succ && g.succ[m] == {k}
    ensures G.InLoop(g, tail, header, k)
  {
    var q: seq<nat>;
    if m == header {
      var path: seq<nat> :| G.PathBetween(g, path, g.entry, tail);
      q := LastVisit(g, path, header, tail);
    } else {
      q :| G.PathBetween(g, q, m, tail) && header !in q;
    }
    assert |q| > 1 && G.Edge(g, q[0], q[1]);
    assert q[1] == k && k in g.nodes;
    assert G.PathBetween(g, q[1..], k, tail);
  }

  lemma LabelEndsBlock(p: Program, k: nat)
    requires 0 < k < |p| && p[k - 1].Label? && Leader(p, k)
    ensures BlockEnd(p, BlockOf(p, k - 1)) == k && SuccessorsAt(p, BlockOf(p, k - 1)) == {k}
  {
    BlockOfFacts(p, k - 1);
    BlockEndFacts(p, BlockOf(p, k - 1));
  }

  lemma LabelSuccessor(p: Program, k: nat)
    requires 0 < k < |p| && p[k - 1].Label? && Leader(p, k)
    ensures BlockOf(p, k - 1) in CfgOf(p).succ && CfgOf(p).succ[BlockOf(p, k - 1)] == {k}
  {
    LabelEndsBlock(p, k);
    assert BlockOf(p, k - 1) in Leaders(p);
  }

  /** Labels between the target of a back edge and the first instruction stay in its loop. */
  lemma {:induction false} LabelsInLoop(p: Program, g: G.Graph, tail: nat, header: nat, k: nat, branch: nat)
    requires g == CfgOf(p) && G.Valid(g) && G.BackEdge(g, tail, header)
    requires header <= k <= branch < |p| && BlockStart(p, header) && BlockOf(p, branch) == tail && p[branch].Code?
    requires forall i | header <= i < k :: p[i].Label?
    ensures G.InLoop(g, tail, header, BlockOf(p, k))
    decreases k
  {
    if k > header {
      LabelsInLoop(p, g, tail, header, k - 1, branch);
      if Leader(p, k) {
        LabelSuccessor(p, k);
        if BlockOf(p, k - 1) == tail {
          BlockOfFacts(p, branch);
          assert false;
        }
        OnlySuccessorInLoop(g, tail, header, BlockOf(p, k - 1), k);
      }
    }
  }
}
