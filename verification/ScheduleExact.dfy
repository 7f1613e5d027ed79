/**
 The order guarantee of the scheduler is exact: a pair it does not guarantee is inverted in some block.
 Guard predicates and second halves of register pairs are not tracked.
 */
module ScheduleExact {
  import opened Isa
  import opened Machine
  import opened Commute
  import opened Sequences
  import opened ScheduleGraph
  import opened ScheduleConflicts
  import opened ScheduleMeaning
  import opened ScheduleProgram

  /** In every block that has `i` before `j`, the schedule has them in that order too. */
  ghost predicate AlwaysKept(i: Inst, j: Inst) {
    forall b: seq<Inst>, order: seq<nat>, p: nat, q: nat ::
      |b| > 2 && BlockShaped(NodesOf(b)) && Greedy(NodesOf(b), order) && p < q < |b| && b[p] == i && b[q] == j ==>
        Keeps(order, p, q)
  }

  const NO_REGISTER: nat := 256

  function Plain(op: Opcode, dest: nat, src1: nat): Inst {
    Inst(op, NoType, dest, src1, NO_REGISTER, NO_REGISTER, 0, None, false, None, None, None, 0)
  }

  /** An instruction that delays `i` but not `j`. */
  function Delay(i: Inst, j: Inst): Inst {
    if KindOf(j).LoadKind? then Plain(LOADI, i.dest, NO_REGISTER) else Plain(ST, 0, i.dest)
  }

  /** A block in which `j` overtakes `i`. */
  function Witness(i: Inst, j: Inst): seq<Inst> {
    if Direct(i, j) then [i, j, Plain(Control(HALT), 0, NO_REGISTER)]
    else [Delay(i, j), i, j, Plain(Control(HALT), 0, NO_REGISTER)]
  }

  /** `j` has the higher priority. */
  predicate Direct(i: Inst, j: Inst) {
    (KindOf(i).ComputeKind? && KindOf(j).LoadKind?) || (KindOf(i).StoreKind? && KindOf(j).ComputeKind?)
  }

  lemma FirstPick(g: seq<Node>, order: seq<nat>, t: nat)
    requires Greedy(g, order) && t < |g| && Ready(g, [], t)
    requires forall k: nat | k < |g| && k != t :: !Ready(g, [], k) || Before(g, t, k)
    ensures |order| == |g| && order[0] == t
  {
    GreedyLength(g, order);
    assert order[..0] == [];
    assert Best(g, order[..0], order[0]);
  }

  lemma DirectInverted(i: Inst, j: Inst, g: seq<Node>)
    requires Direct(i, j) && !Guaranteed(NodeOf(i), NodeOf(j))
    requires g == [NodeOf(i), NodeOf(j), NodeOf(Plain(Control(HALT), 0, NO_REGISTER))]
    ensures Ready(g, [], 1) && forall k: nat | k < 3 && k != 1 :: !Ready(g, [], k) || Before(g, 1, k)
  {
    assert !Edge(g, 0, 1);
  }

  lemma DelayedInverted(i: Inst, j: Inst, g: seq<Node>)
    requires !Direct(i, j) && !Guaranteed(NodeOf(i), NodeOf(j)) && !KindOf(i).ControlKind? && i.dest < 256
    requires g == [NodeOf(Delay(i, j)), NodeOf(i), NodeOf(j), NodeOf(Plain(Control(HALT), 0, NO_REGISTER))]
    ensures Ready(g, [], 2) && forall k: nat | k < 4 && k != 2 :: !Ready(g, [], k) || Before(g, 2, k)
  {
    assert !Edge(g, 0, 2) && !Edge(g, 1, 2);
    if KindOf(j).LoadKind? {
      assert WawEdge(g, 0, 1);
    } else {
      assert WarEdge(g, 0, 1);
    }
    assert Edge(g, 0, 1);
  }

  lemma InvertedFirst(b: seq<Inst>, order: seq<nat>, p: nat, i: Inst, j: Inst)
    requires |b| > 2 && BlockShaped(NodesOf(b)) && Greedy(NodesOf(b), order)
    requires p + 1 < |b| && b[p] == i && b[p + 1] == j && |order| == |b| && order[0] == p + 1
    ensures !AlwaysKept(i, j)
  {
    assert order[..0] == [];
    assert !Keeps(order, p, p + 1);
  }

  lemma Overtaken(i: Inst, j: Inst)
    requires !Guaranteed(NodeOf(i), NodeOf(j)) && !KindOf(i).ControlKind? && i.dest < 256
    ensures !AlwaysKept(i, j)
  {
    var b := Witness(i, j);
    var g := NodesOf(b);
    var p: nat := if Direct(i, j) then 0 else 1;
    var order := GreedyOrder(g);
    GreedyOrderIsGreedy(g);
    if Direct(i, j) {
      assert g == [NodeOf(i), NodeOf(j), NodeOf(Plain(Control(HALT), 0, NO_REGISTER))];
      DirectInverted(i, j, g);
    } else {
      assert g == [NodeOf(Delay(i, j)), NodeOf(i), NodeOf(j), NodeOf(Plain(Control(HALT), 0, NO_REGISTER))];
      DelayedInverted(i, j, g);
    }
    FirstPick(g, order, p + 1);
    InvertedFirst(b, order, p, i, j);
  }

  /**
   Which pairs every schedule keeps in order: exactly those with a tracked register or store-to-load
   conflict and those whose second instruction is a store or ends the block.
   */
  lemma PairOrderExact(i: Inst, j: Inst)
    requires !KindOf(i).ControlKind? && i.dest < 256
    ensures AlwaysKept(i, j) <==> Guaranteed(NodeOf(i), NodeOf(j))
  {
    if Guaranteed(NodeOf(i), NodeOf(j)) {
      forall b: seq<Inst>, order: seq<nat>, p: nat, q: nat |
        |b| > 2 && BlockShaped(NodesOf(b)) && Greedy(NodesOf(b), order) && p < q < |b| && b[p] == i && b[q] == j
        ensures Keeps(order, p, q)
      {
        GuaranteedKept(NodesOf(b), order, p, q);
      }
    } else {
      Overtaken(i, j);
    }
  }

  /** Every load guarded by a predicate computed before it can overtake the computation. */
  lemma GuardedLoadOvertakes(c: Inst, l: Inst)
    requires c.opcode.CMPP? && l.opcode.LD? && l.guard == Some(c.dest) && c.dest < 8
    ensures AlwaysKept(c, l) <==>
              Reads(NodeOf(l), c.dest) || l.dest == c.dest || Reads(NodeOf(c), l.dest)
  {
    PairOrderExact(c, l);
  }

  /** Every load from the second half of a pair can overtake the instruction that writes the pair. */
  lemma PairLoadOvertakes(w: Inst, l: Inst)
    requires IsPair(w) && l.opcode.LD? && l.src1 == w.dest + 1 && w.dest < 255
    ensures AlwaysKept(w, l) <==>
              Reads(NodeOf(l), w.dest) || l.dest == w.dest || Reads(NodeOf(w), l.dest)
  {
    PairOrderExact(w, l);
  }
}
