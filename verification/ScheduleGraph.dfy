/**
 What the list scheduler promises, stated without its data structures: the dependence edges of a
 block, and the greedy order that always emits the ready instruction of highest priority.
 */
module ScheduleGraph {
  import opened Isa
  import opened Sequences

  datatype Kind = LoadKind | ComputeKind | StoreKind | ControlKind

  function KindOf(inst: Inst): Kind {
    match inst.opcode
    case Control(_) => ControlKind
    case ST => StoreKind
    case LD => LoadKind
    case _ => ComputeKind
  }

  predicate HasDest(inst: Inst) { !inst.opcode.ST? && !inst.opcode.Control? }

  /** All that the scheduler looks at in an instruction. */
  datatype Node = Node(kind: Kind, hasDest: bool, dest: nat, src1: nat, src2: nat, src3: nat)

  function NodeOf(inst: Inst): Node {
    Node(KindOf(inst), HasDest(inst), inst.dest, inst.src1, inst.src2, inst.src3)
  }

  function NodesOf(b: seq<Inst>): (g: seq<Node>)
    ensures |g| == |b| && forall k | 0 <= k < |b| :: g[k] == NodeOf(b[k])
  {
    seq(|b|, k requires 0 <= k < |b| => NodeOf(b[k]))
  }

  /** The registers the scheduler takes an instruction to read: every source field in 0..255. */
  predicate Reads(n: Node, r: nat) {
    r <= 255 && (n.src1 == r || n.src2 == r || n.src3 == r)
  }

  /** The register it takes an instruction to write: a predicate counts as the register of its number. */
  predicate Writes(n: Node, r: nat) { n.hasDest && n.dest == r }

  predicate Unwritten(b: seq<Node>, i: nat, j: nat, r: nat)
    requires j <= |b|
  {
    forall k | i < k < j :: !Writes(b[k], r)
  }

  /* ---------- edges ---------- */

  /** Closest definition to use. */
  predicate RawEdge(b: seq<Node>, i: nat, j: nat)
    requires i < j < |b|
  {
    b[i].hasDest && Reads(b[j], b[i].dest) && Unwritten(b, i, j, b[i].dest)
  }

  /** Read to the next write of the same register. */
  predicate WarEdge(b: seq<Node>, i: nat, j: nat)
    requires i < j < |b|
  {
    b[j].hasDest && Reads(b[i], b[j].dest) && Unwritten(b, i, j, b[j].dest)
  }

  /** Write to the next write of the same register. */
  predicate WawEdge(b: seq<Node>, i: nat, j: nat)
    requires i < j < |b|
  {
    b[i].hasDest && Writes(b[j], b[i].dest) && Unwritten(b, i, j, b[i].dest)
  }

  /** Last store to load. There is no edge from a load to a store. */
  predicate MemEdge(b: seq<Node>, i: nat, j: nat)
    requires i < j < |b|
  {
    b[i].kind.StoreKind? && b[j].kind.LoadKind? && forall k | i < k < j :: !b[k].kind.StoreKind?
  }

  predicate Edge(b: seq<Node>, i: nat, j: nat)
    requires j < |b|
  {
    i < j && (RawEdge(b, i, j) || WarEdge(b, i, j) || WawEdge(b, i, j) || MemEdge(b, i, j))
  }

  /** How often the graph lists the edge. */
  function Multiplicity(b: seq<Node>, i: nat, j: nat): nat
    requires j < |b|
  {
    if i >= j then 0
    else
      (if RawEdge(b, i, j) then 1 else 0) + (if WarEdge(b, i, j) then 1 else 0)
      + (if WawEdge(b, i, j) then 1 else 0) + (if MemEdge(b, i, j) then 1 else 0)
  }

  /* ---------- greedy order ---------- */

  function Priority(b: seq<Node>, i: nat): nat
    requires i < |b|
  {
    match b[i].kind
    case LoadKind => 0
    case ComputeKind => 1
    case StoreKind => 2 + i
    case ControlKind => 1000 + i
  }

  /** The sort key (priority, position) of `i` is smaller than that of `j`. */
  predicate Before(b: seq<Node>, i: nat, j: nat)
    requires i < |b| && j < |b|
  {
    Priority(b, i) < Priority(b, j) || (Priority(b, i) == Priority(b, j) && i < j)
  }

  predicate Ready(b: seq<Node>, done: seq<nat>, j: nat) {
    j < |b| && j !in done && forall i | 0 <= i < j && Edge(b, i, j) :: i in done
  }

  predicate Best(b: seq<Node>, done: seq<nat>, j: nat) {
    Ready(b, done, j) && forall i | 0 <= i < |b| && Ready(b, done, i) :: !Before(b, i, j)
  }

  predicate GreedyPrefix(b: seq<Node>, order: seq<nat>) {
    forall q | 0 <= q < |order| :: Best(b, order[..q], order[q])
  }

  /** The complete schedule of a block. */
  predicate Greedy(b: seq<Node>, order: seq<nat>) {
    && GreedyPrefix(b, order)
    && (forall i: nat | i < |b| :: i in order)
  }

  function Pick<T>(b: seq<T>, order: seq<nat>): seq<T>
    requires Indices(order, |b|)
  {
    seq(|order|, k requires 0 <= k < |order| => b[order[k]])
  }

  /* ---------- the schedule exists and is unique ---------- */

  lemma GreedyFacts(b: seq<Node>, order: seq<nat>)
    requires GreedyPrefix(b, order)
    ensures Distinct(order) && Indices(order, |b|)
    ensures forall q | 0 <= q < |order| :: Ready(b, order[..q], order[q])
  {
    forall q | 0 <= q < |order|
      ensures order[q] < |b| && order[q] !in order[..q] && Ready(b, order[..q], order[q])
    {
      assert Best(b, order[..q], order[q]);
    }
    forall p, q | 0 <= p < q < |order|
      ensures order[p] != order[q]
    {
      assert order[..q][p] == order[p];
    }
  }

  lemma GreedyExtend(b: seq<Node>, order: seq<nat>, j: nat)
    requires GreedyPrefix(b, order) && Best(b, order, j)
    ensures GreedyPrefix(b, order + [j])
  {
    var longer := order + [j];
    forall q | 0 <= q < |longer|
      ensures Best(b, longer[..q], longer[q])
    {
      if q < |order| {
        assert longer[..q] == order[..q];
      } else {
        assert longer[..q] == order;
      }
    }
  }

  /** The smallest instruction not yet emitted is always ready. */
  lemma LeastIsReady(b: seq<Node>, done: seq<nat>, m: nat)
    requires m < |b| && m !in done
    requires forall i: nat | i < m :: i in done
    ensures Ready(b, done, m)
  {
  }

  lemma LeastMissing(n: nat, done: seq<nat>, j: nat) returns (m: nat)
    requires j < n && j !in done
    ensures m <= j && m !in done && forall i: nat | i < m :: i in done
  {
    m := 0;
    while m in done
      invariant m <= j
      invariant forall i: nat | i < m :: i in done
      decreases j - m
    {
      m := m + 1;
    }
  }

  lemma BestAmong(b: seq<Node>, done: seq<nat>, j: nat) returns (best: nat)
    requires Ready(b, done, j)
    ensures Best(b, done, best)
  {
    best := j;
    var k := 0;
    while k < |b|
      invariant k <= |b|
      invariant Ready(b, done, best)
      invariant forall i: nat | i < k && Ready(b, done, i) :: !Before(b, i, best)
    {
      if Ready(b, done, k) && Before(b, k, best) {
        best := k;
      }
      k := k + 1;
    }
  }

  lemma {:induction false} GreedyExists(b: seq<Node>, prefix: seq<nat>) returns (order: seq<nat>)
    requires GreedyPrefix(b, prefix)
    ensures Greedy(b, order)
    decreases |b| - |prefix|
  {
    GreedyFacts(b, prefix);
    DistinctBound(prefix, |b|);
    if j: nat :| j < |b| && j !in prefix {
      var m := LeastMissing(|b|, prefix, j);
      LeastIsReady(b, prefix, m);
      var best := BestAmong(b, prefix, m);
      GreedyExtend(b, prefix, best);
      GreedyFacts(b, prefix + [best]);
      DistinctBound(prefix + [best], |b|);
      order := GreedyExists(b, prefix + [best]);
    } else {
      order := prefix;
    }
  }

  lemma GreedyLength(b: seq<Node>, order: seq<nat>)
    requires Greedy(b, order)
    ensures |order| == |b| && Distinct(order) && Indices(order, |b|)
  {
    GreedyFacts(b, order);
    DistinctBound(order, |b|);
  }

  /** The scheduler is deterministic: the greedy order of a block is unique. */
  lemma {:induction false} GreedyUnique(b: seq<Node>, s: seq<nat>, t: seq<nat>)
    requires Greedy(b, s) && Greedy(b, t)
    ensures s == t
  {
    GreedyLength(b, s);
    GreedyLength(b, t);
    var q := 0;
    while q < |b|
      invariant q <= |b|
      invariant s[..q] == t[..q]
    {
      assert Best(b, s[..q], s[q]) && Best(b, t[..q], t[q]);
      assert s[..q + 1] == s[..q] + [s[q]];
      assert t[..q + 1] == t[..q] + [t[q]];
      q := q + 1;
    }
    assert s == s[..|b|] && t == t[..|b|];
  }

  lemma ExistsGreedy(b: seq<Node>)
    ensures exists order: seq<nat> :: Greedy(b, order)
  {
    var order := GreedyExists(b, []);
  }

  ghost function GreedyOrder(b: seq<Node>): (order: seq<nat>)
    ensures |order| == |b| && Indices(order, |b|)
  {
    ExistsGreedy(b);
    var order: seq<nat> :| Greedy(b, order);
    GreedyLength(b, order);
    order
  }

  lemma GreedyOrderIsGreedy(b: seq<Node>)
    ensures Greedy(b, GreedyOrder(b))
  {
    ExistsGreedy(b);
  }

  /** The scheduled block; a block of at most two instructions is left alone. */
  ghost function Scheduled(b: seq<Inst>): (r: seq<Inst>)
    ensures |r| == |b|
  {
    if |b| <= 2 then b else Pick(b, GreedyOrder(NodesOf(b)))
  }
}
