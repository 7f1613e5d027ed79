/**
 Conflicting instructions keep their order in the greedy schedule, although the graph only links the
 closest definition, the reads since the last write, the last write and the last store.
 */
module ScheduleConflicts {
  import opened Sequences
  import opened ScheduleGraph

  /** `i` is emitted before `j`. */
  predicate Keeps(order: seq<nat>, i: nat, j: nat) {
    forall q | 0 <= q < |order| && order[q] == j :: i in order[..q]
  }

  /** Only the last instruction of the block may be a control instruction. */
  predicate BlockShaped(b: seq<Node>) {
    forall k | 0 <= k < |b| - 1 :: !b[k].kind.ControlKind?
  }

  lemma EdgeKept(b: seq<Node>, order: seq<nat>, i: nat, j: nat)
    requires GreedyPrefix(b, order) && j < |b| && Edge(b, i, j)
    ensures Keeps(order, i, j)
  {
    forall q | 0 <= q < |order| && order[q] == j
      ensures i in order[..q]
    {
      assert Best(b, order[..q], order[q]);
    }
  }

  lemma KeepsPosition(order: seq<nat>, i: nat, j: nat, p: nat, q: nat)
    requires Keeps(order, i, j) && Distinct(order)
    requires p < |order| && q < |order| && order[p] == i && order[q] == j
    ensures p < q
  {
    var o :| 0 <= o < q && order[..q][o] == i;
    assert order[o] == order[p];
  }

  lemma KeepsTransitive(order: seq<nat>, i: nat, k: nat, j: nat)
    requires Keeps(order, i, k) && Keeps(order, k, j)
    ensures Keeps(order, i, j)
  {
    forall q | 0 <= q < |order| && order[q] == j
      ensures i in order[..q]
    {
      var p :| 0 <= p < q && order[..q][p] == k;
      assert order[p] == k;
      var o :| 0 <= o < p && order[..p][o] == i;
      assert order[..q][o] == i;
    }
  }

  /** The last index in `i..j` (exclusive) that writes `r`. */
  lemma LastWrite(b: seq<Node>, i: nat, j: nat, r: nat) returns (k: nat)
    requires i < j <= |b| && Writes(b[i], r)
    ensures i <= k < j && Writes(b[k], r) && Unwritten(b, k, j, r)
  {
    k := j - 1;
    while !Writes(b[k], r)
      invariant i <= k < j
      invariant Unwritten(b, k, j, r)
      decreases k
    {
      k := k - 1;
    }
  }

  lemma {:induction false} WriteWriteKept(b: seq<Node>, order: seq<nat>, i: nat, j: nat, r: nat)
    requires GreedyPrefix(b, order) && i < j < |b| && Writes(b[i], r) && Writes(b[j], r)
    ensures Keeps(order, i, j)
    decreases j - i
  {
    var k := LastWrite(b, i, j, r);
    assert WawEdge(b, k, j);
    EdgeKept(b, order, k, j);
    if k != i {
      WriteWriteKept(b, order, i, k, r);
      KeepsTransitive(order, i, k, j);
    }
  }

  lemma WriteReadKept(b: seq<Node>, order: seq<nat>, i: nat, j: nat, r: nat)
    requires GreedyPrefix(b, order) && i < j < |b| && Writes(b[i], r) && Reads(b[j], r)
    ensures Keeps(order, i, j)
  {
    var k := LastWrite(b, i, j, r);
    assert RawEdge(b, k, j);
    EdgeKept(b, order, k, j);
    if k != i {
      WriteWriteKept(b, order, i, k, r);
      KeepsTransitive(order, i, k, j);
    }
  }

  lemma {:induction false} ReadWriteKept(b: seq<Node>, order: seq<nat>, i: nat, j: nat, r: nat)
    requires GreedyPrefix(b, order) && i < j < |b| && Reads(b[i], r) && Writes(b[j], r)
    ensures Keeps(order, i, j)
    decreases j - i
  {
    if Unwritten(b, i, j, r) {
      assert WarEdge(b, i, j);
      EdgeKept(b, order, i, j);
    } else {
      var k :| i < k < j && Writes(b[k], r);
      ReadWriteKept(b, order, i, k, r);
      WriteWriteKept(b, order, k, j, r);
      KeepsTransitive(order, i, k, j);
    }
  }

  /**
   The order no edge records: a store, and the control instruction that ends the block, is emitted
   only after every earlier instruction, because the least missing instruction is always ready and
   has a smaller sort key.
   */
  lemma LateKindKept(b: seq<Node>, order: seq<nat>, i: nat, j: nat)
    requires GreedyPrefix(b, order) && BlockShaped(b) && i < j < |b|
    requires b[j].kind.StoreKind? || b[j].kind.ControlKind?
    ensures Keeps(order, i, j)
  {
    forall q | 0 <= q < |order| && order[q] == j
      ensures i in order[..q]
    {
      assert Best(b, order[..q], order[q]);
      if i !in order[..q] {
        var m := LeastMissing(|b|, order[..q], i);
        LeastIsReady(b, order[..q], m);
        assert false;
      }
    }
  }

  lemma {:induction false} StoreLoadKept(b: seq<Node>, order: seq<nat>, i: nat, j: nat)
    requires GreedyPrefix(b, order) && BlockShaped(b) && i < j < |b|
    requires b[i].kind.StoreKind? && b[j].kind.LoadKind?
    ensures Keeps(order, i, j)
  {
    var k := j - 1;
    while !b[k].kind.StoreKind?
      invariant i <= k < j
      invariant forall l | k < l < j :: !b[l].kind.StoreKind?
      decreases k
    {
      k := k - 1;
    }
    assert MemEdge(b, k, j);
    EdgeKept(b, order, k, j);
    if k != i {
      LateKindKept(b, order, i, k);
      KeepsTransitive(order, i, k, j);
    }
  }

  /* ---------- the exact guarantee ---------- */

  /** What the scheduler sees as a reason to keep `i` before `j`. */
  predicate Tracked(i: Node, j: Node) {
    || (i.hasDest && (Reads(j, i.dest) || Writes(j, i.dest)))
    || (j.hasDest && Reads(i, j.dest))
    || (i.kind.StoreKind? && j.kind.LoadKind?)
  }

  /** The pairs whose order every schedule keeps. */
  predicate Guaranteed(i: Node, j: Node) {
    Tracked(i, j) || j.kind.StoreKind? || j.kind.ControlKind?
  }

  lemma GuaranteedKept(b: seq<Node>, order: seq<nat>, i: nat, j: nat)
    requires GreedyPrefix(b, order) && BlockShaped(b) && i < j < |b| && Guaranteed(b[i], b[j])
    ensures Keeps(order, i, j)
  {
    if b[j].kind.StoreKind? || b[j].kind.ControlKind? {
      LateKindKept(b, order, i, j);
    } else if b[i].kind.StoreKind? && b[j].kind.LoadKind? {
      StoreLoadKept(b, order, i, j);
    } else if b[i].hasDest && Reads(b[j], b[i].dest) {
      WriteReadKept(b, order, i, j, b[i].dest);
    } else if b[i].hasDest && Writes(b[j], b[i].dest) {
      WriteWriteKept(b, order, i, j, b[i].dest);
    } else {
      ReadWriteKept(b, order, i, j, b[j].dest);
    }
  }
}
