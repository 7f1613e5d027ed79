/** The scheduled block computes what the block computes. */
module ScheduleMeaning {
  import opened Isa
  import opened Machine
  import opened Commute
  import opened Sequences
  import opened ScheduleGraph
  import opened ScheduleConflicts

  /** Straight-line execution; `None` once an exception was raised. */
  function ExecSeq(exec: Exec, insts: seq<Inst>, w: Option<Warp>): Option<Warp> {
    if insts == [] then w else ExecSeq(exec, insts[1..], Then(exec, insts[0], w))
  }

  lemma {:induction false} ExecAppend(exec: Exec, a: seq<Inst>, b: seq<Inst>, w: Option<Warp>)
    ensures ExecSeq(exec, a + b, w) == ExecSeq(exec, b, ExecSeq(exec, a, w))
  {
    if a == [] {
      assert a + b == b;
    } else {
      assert (a + b)[1..] == a[1..] + b;
      ExecAppend(exec, a[1..], b, Then(exec, a[0], w));
    }
  }

  lemma {:induction false} ErrorStays(exec: Exec, insts: seq<Inst>)
    ensures ExecSeq(exec, insts, None) == None
  {
    if insts != [] {
      ErrorStays(exec, insts[1..]);
    }
  }

  /** An instruction moves to the front of a run of instructions it does not conflict with. */
  lemma {:induction false} MoveFront(exec: Exec, xs: seq<Inst>, i: Inst, w: Option<Warp>)
    requires Commuting(exec) && forall x | x in xs :: !Conflict(x, i)
    ensures ExecSeq(exec, xs + [i], w) == ExecSeq(exec, [i] + xs, w)
  {
    if xs == [] {
      assert xs + [i] == [i] + xs;
    } else {
      var x, tail := xs[0], xs[1..];
      assert (xs + [i])[1..] == tail + [i];
      assert ([i] + xs)[1..] == xs;
      assert ([i] + tail)[1..] == tail;
      MoveFront(exec, tail, i, Then(exec, x, w));
      if w.Some? {
        assert Then(exec, i, exec(x, w.value)) == Then(exec, x, exec(i, w.value));
      }
    }
  }

  /* ---------- reordering ---------- */

  /** Inverted pairs do not conflict. */
  predicate InversionsCommute(b: seq<Inst>, s: seq<nat>)
    requires Indices(s, |b|)
  {
    forall p, q | 0 <= p < q < |s| && s[q] < s[p] :: !Conflict(b[s[p]], b[s[q]])
  }

  /** A permutation whose inversions commute executes like the sequence in its own order. */
  lemma {:induction false} Reorder(exec: Exec, b: seq<Inst>, s: seq<nat>, n: nat, w: Option<Warp>)
    requires Commuting(exec)
    requires n <= |b| && Permutation(s, n) && InversionsCommute(b, s)
    ensures ExecSeq(exec, Pick(b, s), w) == ExecSeq(exec, b[..n], w)
  {
    if n == 0 {
      assert Pick(b, s) == b[..n];
    } else {
      var p := PermutationCovers(s, n, n - 1);
      var rest := s[..p] + s[p + 1..];
      RemoveAt(b, s, p);
      RemoveLargest(s, p, n);
      Reorder(exec, b, rest, n - 1, w);
      PushBack(exec, b, s, p, w);
      SameLast(exec, Pick(b, rest), b, n, w);
    }
  }

  lemma SameLast(exec: Exec, xs: seq<Inst>, b: seq<Inst>, n: nat, w: Option<Warp>)
    requires 0 < n <= |b| && ExecSeq(exec, xs, w) == ExecSeq(exec, b[..n - 1], w)
    ensures ExecSeq(exec, xs + [b[n - 1]], w) == ExecSeq(exec, b[..n], w)
  {
    assert b[..n] == b[..n - 1] + [b[n - 1]];
    ExecAppend(exec, b[..n - 1], [b[n - 1]], w);
    ExecAppend(exec, xs, [b[n - 1]], w);
  }

  /** The largest index of the order can be executed last. */
  lemma PushBack(exec: Exec, b: seq<Inst>, s: seq<nat>, p: nat, w: Option<Warp>)
    requires Commuting(exec)
    requires Indices(s, |b|) && InversionsCommute(b, s) && p < |s|
    requires forall k | p < k < |s| :: s[k] < s[p]
    requires Indices(s[..p] + s[p + 1..], |b|)
    ensures ExecSeq(exec, Pick(b, s), w) == ExecSeq(exec, Pick(b, s[..p] + s[p + 1..]) + [b[s[p]]], w)
  {
    var xs, ys, i := Pick(b, s[..p]), Pick(b, s[p + 1..]), b[s[p]];
    PickParts(b, s, p);
    forall y | y in ys
      ensures !Conflict(y, i)
    {
      var k :| 0 <= k < |ys| && ys[k] == y;
      assert y == b[s[p + 1 + k]];
      ConflictSymmetric(i, y);
    }
    MoveFront(exec, ys, i, ExecSeq(exec, xs, w));
    ExecAppend(exec, xs, [i] + ys, w);
    ExecAppend(exec, xs, ys + [i], w);
  }

  lemma PickParts<T>(b: seq<T>, s: seq<nat>, p: nat)
    requires Indices(s, |b|) && p < |s| && Indices(s[..p] + s[p + 1..], |b|)
    ensures Pick(b, s) == Pick(b, s[..p]) + ([b[s[p]]] + Pick(b, s[p + 1..]))
    ensures Pick(b, s[..p] + s[p + 1..]) + [b[s[p]]] == Pick(b, s[..p]) + (Pick(b, s[p + 1..]) + [b[s[p]]])
  {
  }

  lemma RemoveAt(b: seq<Inst>, s: seq<nat>, p: nat)
    requires Indices(s, |b|) && Distinct(s) && InversionsCommute(b, s) && p < |s|
    ensures
      var rest := s[..p] + s[p + 1..];
      Indices(rest, |b|) && Distinct(rest) && InversionsCommute(b, rest)
  {
    var rest := s[..p] + s[p + 1..];
    assert forall k | 0 <= k < |rest| :: rest[k] == s[if k < p then k else k + 1];
  }

  lemma RemoveLargest(s: seq<nat>, p: nat, n: nat)
    requires Permutation(s, n) && p < n && s[p] == n - 1
    ensures Indices(s[..p] + s[p + 1..], n - 1)
    ensures forall k | p < k < |s| :: s[k] < s[p]
  {
    var rest := s[..p] + s[p + 1..];
    assert forall k | 0 <= k < |rest| :: rest[k] == s[if k < p then k else k + 1];
  }

  /* ---------- blocks ---------- */

  /** Every conflict of the machine is one whose order the scheduler guarantees. */
  predicate Covered(b: seq<Inst>) {
    forall i, j | 0 <= i < j < |b| && Conflict(b[i], b[j]) :: Guaranteed(NodeOf(b[i]), NodeOf(b[j]))
  }

  /** The part of a block before its final control instruction. */
  function BodyLength(b: seq<Inst>): (n: nat)
    ensures n <= |b|
  {
    if b != [] && KindOf(b[|b| - 1]).ControlKind? then |b| - 1 else |b|
  }

  lemma GreedyInversions(b: seq<Inst>, order: seq<nat>)
    requires Greedy(NodesOf(b), order) && BlockShaped(NodesOf(b)) && Covered(b)
    ensures |order| == |b| && Distinct(order) && Indices(order, |b|)
    ensures InversionsCommute(b, order)
  {
    GreedyLength(NodesOf(b), order);
    forall p, q | 0 <= p < q < |order| && order[q] < order[p]
      ensures !Conflict(b[order[p]], b[order[q]])
    {
      if Conflict(b[order[p]], b[order[q]]) {
        ConflictSymmetric(b[order[p]], b[order[q]]);
        GuaranteedKept(NodesOf(b), order, order[q], order[p]);
      }
    }
  }

  /** A control instruction that ends the block is emitted last. */
  lemma ControlStaysLast(b: seq<Inst>, order: seq<nat>)
    requires Greedy(NodesOf(b), order) && BlockShaped(NodesOf(b)) && b != [] && KindOf(b[|b| - 1]).ControlKind?
    ensures |order| == |b| && order[|b| - 1] == |b| - 1
  {
    GreedyLength(NodesOf(b), order);
    var n := |b| - 1;
    assert n in order;
    var q :| 0 <= q < |order| && order[q] == n;
    if q < n {
      var i := order[n];
      assert i < n;
      LateKindKept(NodesOf(b), order, i, n);
      KeepsPosition(order, i, n, n, q);
    }
  }

  /** The order of the part before the final control instruction, as a permutation of that part. */
  lemma BodyOrder(b: seq<Inst>, order: seq<nat>)
    requires Greedy(NodesOf(b), order) && BlockShaped(NodesOf(b)) && Covered(b)
    ensures |order| == |b| && Indices(order, |b|)
    ensures Permutation(order[..BodyLength(b)], BodyLength(b))
    ensures InversionsCommute(b, order[..BodyLength(b)])
    ensures BodyLength(b) < |b| ==> order[BodyLength(b)] == BodyLength(b)
  {
    GreedyInversions(b, order);
    if BodyLength(b) < |b| {
      ControlStaysLast(b, order);
    }
  }

  lemma OrderedBody(exec: Exec, b: seq<Inst>, order: seq<nat>, n: nat, w: Option<Warp>)
    requires Commuting(exec)
    requires n <= |b| && |order| == |b| && Indices(order, |b|)
    requires Permutation(order[..n], n) && InversionsCommute(b, order[..n])
    requires forall k | 0 <= k < n :: !KindOf(b[k]).ControlKind?
    ensures ExecSeq(exec, Pick(b, order)[..n], w) == ExecSeq(exec, b[..n], w)
    ensures forall k | 0 <= k < n :: !KindOf(Pick(b, order)[k]).ControlKind?
  {
    Reorder(exec, b, order[..n], n, w);
    assert Pick(b, order[..n]) == Pick(b, order)[..n];
    forall k | 0 <= k < n
      ensures !KindOf(Pick(b, order)[k]).ControlKind?
    {
      assert order[..n][k] < n;
    }
  }

  /** Scheduling preserves the meaning of a block, for every start state. */
  lemma BlockPreserved(exec: Exec, b: seq<Inst>, w: Option<Warp>)
    requires Commuting(exec)
    requires BlockShaped(NodesOf(b)) && Covered(b)
    ensures BodyLength(b) < |b| ==> Scheduled(b)[BodyLength(b)] == b[BodyLength(b)]
    ensures ExecSeq(exec, Scheduled(b)[..BodyLength(b)], w) == ExecSeq(exec, b[..BodyLength(b)], w)
    ensures forall k | 0 <= k < BodyLength(b) :: !KindOf(Scheduled(b)[k]).ControlKind?
  {
    if |b| > 2 {
      GreedyOrderIsGreedy(NodesOf(b));
      PickedPreserved(exec, b, GreedyOrder(NodesOf(b)), Scheduled(b), w);
    }
  }

  lemma PickedPreserved(exec: Exec, b: seq<Inst>, order: seq<nat>, r: seq<Inst>, w: Option<Warp>)
    requires Commuting(exec) && BlockShaped(NodesOf(b)) && Covered(b)
    requires Greedy(NodesOf(b), order) && |order| == |b| && Indices(order, |b|) && r == Pick(b, order)
    ensures BodyLength(b) < |b| ==> r[BodyLength(b)] == b[BodyLength(b)]
    ensures ExecSeq(exec, r[..BodyLength(b)], w) == ExecSeq(exec, b[..BodyLength(b)], w)
    ensures forall k | 0 <= k < BodyLength(b) :: !KindOf(r[k]).ControlKind?
  {
    BodyOrder(b, order);
    OrderedBody(exec, b, order, BodyLength(b), w);
  }

  /* ---------- a syntactic condition ---------- */

  /** No instruction but the final branch is guarded by a predicate that the block itself computes. */
  predicate GuardsStable(b: seq<Inst>) {
    forall c, g | 0 <= c < |b| && 0 <= g < |b| && b[c].opcode.CMPP? && b[g].guard == Some(b[c].dest) ::
      KindOf(b[g]).ControlKind?
  }

  predicate NoPairs(b: seq<Inst>) {
    forall k | 0 <= k < |b| :: !IsPair(b[k])
  }

  /** The scheduler may merge predicate and register numbers: that only adds order. */
  lemma StableBlockCovered(b: seq<Inst>)
    requires BlockShaped(NodesOf(b)) && GuardsStable(b) && NoPairs(b)
    ensures Covered(b)
  {
    forall i, j | 0 <= i < j < |b| && Conflict(b[i], b[j])
      ensures Guaranteed(NodeOf(b[i]), NodeOf(b[j]))
    {
      PlainConflict(b[i], b[j]);
    }
  }

  lemma PlainConflict(i: Inst, j: Inst)
    requires !IsPair(i) && !IsPair(j) && Conflict(i, j) && !KindOf(i).ControlKind?
    requires i.opcode.CMPP? && j.guard == Some(i.dest) ==> KindOf(j).ControlKind?
    requires j.opcode.CMPP? ==> i.guard != Some(j.dest)
    ensures Guaranteed(NodeOf(i), NodeOf(j))
  {
    assert forall r | r in RegsRead(i) :: Reads(NodeOf(i), r);
    assert forall r | r in RegsRead(j) :: Reads(NodeOf(j), r);
    assert forall r | r in RegsWritten(i) :: Writes(NodeOf(i), r);
    assert forall r | r in RegsWritten(j) :: Writes(NodeOf(j), r);
  }
}
