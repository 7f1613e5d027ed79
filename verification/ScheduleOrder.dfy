/**
 Which instruction a schedule emits next, said of kinds and positions alone: loads first, then computations, each in
 textual order, then stores in textual order, then control instructions.
 */
module ScheduleOrder {
  import opened Isa
  import opened Sequences
  import opened ScheduleGraph

  /**
   Of two instructions that could be emitted now, the one of kind `x` at position `i` goes before the one of kind `y`
   at `j`. Stores and control instructions are numbered from 2 and 1000, so they can only mix in blocks that are not
   cut at control instructions.
   */
  predicate GoesFirst(x: Kind, i: nat, y: Kind, j: nat) {
    match x
    case LoadKind => if y.LoadKind? then i < j else true
    case ComputeKind => if y.LoadKind? then false else if y.ComputeKind? then i < j else true
    case StoreKind => if y.StoreKind? then i < j else y.ControlKind? && i < j + 998
    case ControlKind => if y.ControlKind? then i < j else y.StoreKind? && i + 998 <= j
  }

  /** The kind of an instruction, and what the graph takes it to write and to read. */
  lemma NodeExactly(inst: Inst, r: nat)
    ensures NodeOf(inst).kind.LoadKind? <==> inst.opcode == LD
    ensures NodeOf(inst).kind.StoreKind? <==> inst.opcode == ST
    ensures NodeOf(inst).kind.ControlKind? <==>
              inst.opcode in {Control(BR), Control(BRX), Control(HALT), Control(CALL), Control(RET)}
    ensures Writes(NodeOf(inst), r) <==> inst.opcode != ST && !NodeOf(inst).kind.ControlKind? && inst.dest == r
    ensures Reads(NodeOf(inst), r) <==> r <= 255 && (inst.src1 == r || inst.src2 == r || inst.src3 == r)
  {
    if inst.opcode.Control? {
      var c := inst.opcode.ctl;
      assert c.BR? || c.BRX? || c.HALT? || c.CALL? || c.RET?;
    }
  }

  /** Everything that `i` has to wait for is in `done`. */
  predicate Waited(b: seq<Node>, done: seq<nat>, i: nat)
    requires i < |b|
  {
    forall k | 0 <= k < i && Edge(b, k, i) :: k in done
  }

  /** Instruction `j` may be emitted now, and every other that may goes after it. */
  predicate NextOut(b: seq<Node>, done: seq<nat>, j: nat) {
    && j < |b| && j !in done && Waited(b, done, j)
    && forall i | 0 <= i < |b| && i != j && i !in done && Waited(b, done, i) :: GoesFirst(b[j].kind, j, b[i].kind, i)
  }

  /** The sort key says the same. */
  lemma BeforeIsFirst(b: seq<Node>, i: nat, j: nat)
    requires i < |b| && j < |b| && i != j
    ensures Before(b, i, j) <==> GoesFirst(b[i].kind, i, b[j].kind, j)
  {
  }

  lemma BestIsNext(b: seq<Node>, done: seq<nat>, j: nat)
    ensures Best(b, done, j) <==> NextOut(b, done, j)
  {
    if Best(b, done, j) {
      forall i | 0 <= i < |b| && i != j && i !in done && Waited(b, done, i)
        ensures GoesFirst(b[j].kind, j, b[i].kind, i)
      {
        assert Ready(b, done, i) && !Before(b, i, j);
      }
    }
    if NextOut(b, done, j) {
      forall i | 0 <= i < |b| && Ready(b, done, i)
        ensures !Before(b, i, j)
      {
        assert Waited(b, done, i);
      }
    }
  }

  /** All instructions, each the next one out when it is emitted. */
  ghost predicate InTurn(b: seq<Node>, order: seq<nat>) {
    && (forall i: nat | i < |b| :: i in order)
    && (forall q | 0 <= q < |order| :: NextOut(b, order[..q], order[q]))
  }

  /** That is exactly what a complete schedule is. */
  lemma OrderExactly(b: seq<Node>, order: seq<nat>)
    ensures Greedy(b, order) <==> InTurn(b, order)
  {
    forall q | 0 <= q < |order|
      ensures Best(b, order[..q], order[q]) <==> NextOut(b, order[..q], order[q])
    {
      BestIsNext(b, order[..q], order[q]);
    }
  }

  /** The result lists the instructions of the block in turn. */
  ghost predicate ListedInTurn(b: seq<Inst>, r: seq<Inst>) {
    exists order: seq<nat> :: InTurn(NodesOf(b), order) && Indices(order, |b|) && r == Pick(b, order)
  }

  lemma ScheduledInTurn(b: seq<Inst>)
    requires |b| > 2
    ensures ListedInTurn(b, Scheduled(b))
  {
    GreedyOrderIsGreedy(NodesOf(b));
    OrderExactly(NodesOf(b), GreedyOrder(NodesOf(b)));
  }

  lemma FirstAsymmetric(x: Kind, i: nat, y: Kind, j: nat)
    requires i != j
    ensures GoesFirst(x, i, y, j) <==> !GoesFirst(y, j, x, i)
  {
  }

  /** Whoever is overtaken by one that goes after it still has to wait. */
  lemma OvertakenWaits(b: seq<Node>, order: seq<nat>, i: nat, j: nat, q: nat)
    requires Greedy(b, order) && i < |b| && j < |b| && i != j && q < |order| && order[q] == j && i !in order[..q]
    requires GoesFirst(b[i].kind, i, b[j].kind, j)
    ensures exists k :: 0 <= k < i && Edge(b, k, i) && k !in order[..q]
  {
    assert Best(b, order[..q], order[q]);
    BestIsNext(b, order[..q], j);
    FirstAsymmetric(b[i].kind, i, b[j].kind, j);
    if Waited(b, order[..q], i) {
      assert false;
    }
  }

  /** An instruction is overtaken by a later one of its kind only while it waits for an earlier one. */
  lemma KindsStayInOrder(b: seq<Node>, order: seq<nat>, i: nat, j: nat, q: nat)
    requires Greedy(b, order) && i < j < |b| && q < |order| && order[q] == j && i !in order[..q]
    requires b[i].kind == b[j].kind
    ensures exists k :: 0 <= k < i && Edge(b, k, i) && k !in order[..q]
  {
    OvertakenWaits(b, order, i, j, q);
  }

  /** A computation overtakes a load, and a store anything but stores, only while that waits. */
  lemma LaterKindsWait(b: seq<Node>, order: seq<nat>, i: nat, j: nat, q: nat)
    requires Greedy(b, order) && i < |b| && j < |b| && q < |order| && order[q] == j && i !in order[..q]
    requires (b[i].kind.LoadKind? && !b[j].kind.LoadKind?)
             || (b[i].kind.ComputeKind? && (b[j].kind.StoreKind? || b[j].kind.ControlKind?))
    ensures exists k :: 0 <= k < i && Edge(b, k, i) && k !in order[..q]
  {
    OvertakenWaits(b, order, i, j, q);
  }

  /* ---------- blocks that are left as they are ---------- */

  function Rank(k: Kind): nat {
    match k
    case LoadKind => 0
    case ComputeKind => 1
    case StoreKind => 2
    case ControlKind => 3
  }

  /** Loads, then computations, then stores, then control instructions. */
  predicate InKindOrder(b: seq<Inst>) {
    forall i, j | 0 <= i < j < |b| :: Rank(KindOf(b[i])) <= Rank(KindOf(b[j]))
  }

  function Upto(n: nat): (r: seq<nat>)
    ensures |r| == n && forall k | 0 <= k < n :: r[k] == k
  {
    seq(n, k requires 0 <= k < n => k)
  }

  lemma UptoMembers(n: nat, q: nat)
    requires q <= n
    ensures forall k: nat :: k in Upto(n)[..q] <==> k < q
  {
    forall k: nat | k < q
      ensures k in Upto(n)[..q]
    {
      assert Upto(n)[..q][k] == k;
    }
  }

  lemma IdentityGreedy(b: seq<Inst>)
    requires InKindOrder(b)
    ensures Greedy(NodesOf(b), Upto(|b|))
  {
    var g, order := NodesOf(b), Upto(|b|);
    forall q | 0 <= q < |order|
      ensures NextOut(g, order[..q], order[q])
    {
      UptoMembers(|b|, q);
    }
    UptoMembers(|b|, |b|);
    assert order[..|b|] == order;
    OrderExactly(g, order);
  }

  /** Whatever its dependences, a block in the order of kinds is its own schedule. */
  lemma InOrderUnchanged(b: seq<Inst>)
    requires InKindOrder(b)
    ensures Scheduled(b) == b
  {
    if |b| > 2 {
      IdentityGreedy(b);
      GreedyOrderIsGreedy(NodesOf(b));
      GreedyUnique(NodesOf(b), Upto(|b|), GreedyOrder(NodesOf(b)));
      assert Pick(b, Upto(|b|)) == b;
    }
  }
}
