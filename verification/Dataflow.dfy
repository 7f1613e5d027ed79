/**
 Forward constant facts over the blocks of a program, for any machine whose control follows the layout
 of the blocks and whose steps keep the facts. Facts start empty and every update keeps them sound, so
 the iteration may stop after any round.
 */
module Dataflow {
  import opened Isa
  import opened Ptx

  /** A typed constant. */
  datatype Const = Const(ty: Ty, value: Word)

  type Constants = map<Reg, Const>

  /** The registers hold the values the constants claim; no constant is claimed for a predicate. */
  ghost predicate Holds(c: Constants, regs: map<Reg, Word>) {
    forall r | r in c :: Get(regs, r) == c[r].value && !IsPredicate(r)
  }

  /* ---------- facts at the start of a block ---------- */

  /** Constants at the exits of the blocks. */
  type Exits = map<nat, Constants>

  type Preds = map<nat, set<nat>>

  predicate Has(c: Constants, r: Reg, k: Const) { r in c && c[r] == k }

  ghost predicate AllHave(exits: Exits, blocks: set<nat>, r: Reg, k: Const)
    requires blocks <= exits.Keys
  {
    forall q | q in blocks :: Has(exits[q], r, k)
  }

  function PredecessorsWithFacts(preds: Preds, exits: Exits, b: nat): (r: set<nat>)
    ensures r <= exits.Keys
  {
    if b in preds then set q | q in preds[b] && q in exits else {}
  }

  /** A constant enters a block when every predecessor that has facts agrees on it. */
  ghost predicate Incoming(preds: Preds, exits: Exits, b: nat, c: Constants) {
    var from := PredecessorsWithFacts(preds, exits, b);
    if from == {} then c == map[]
    else forall r: Reg, k: Const :: Has(c, r, k) <==> AllHave(exits, from, r, k)
  }

  /** `_block_entry_constants` */
  method EntryConstants(preds: Preds, exits: Exits, b: nat) returns (c: Constants)
    ensures Incoming(preds, exits, b, c)
  {
    var from := PredecessorsWithFacts(preds, exits, b);
    if from == {} {
      return map[];
    }
    var first :| first in from;
    c := exits[first];
    var rest := from - {first};
    ghost var seen := {first};
    while rest != {}
      invariant rest + seen == from && first in seen
      invariant forall r: Reg, k: Const :: Has(c, r, k) <==> AllHave(exits, seen, r, k)
      decreases rest
    {
      var q :| q in rest;
      rest := rest - {q};
      ghost var c0, seen0 := c, seen;
      seen := seen + {q};
      c := map r | r in c && r in exits[q] && exits[q][r] == c[r] :: c[r];
      forall r: Reg, k: Const
        ensures Has(c, r, k) <==> AllHave(exits, seen, r, k)
      {
        assert Has(c, r, k) <==> Has(c0, r, k) && Has(exits[q], r, k);
        assert AllHave(exits, seen, r, k) <==> AllHave(exits, seen0, r, k) && Has(exits[q], r, k);
      }
    }
    assert seen == from;
  }

  lemma IncomingExists(preds: Preds, exits: Exits, b: nat) returns (c: Constants)
    ensures Incoming(preds, exits, b, c)
  {
    var from := PredecessorsWithFacts(preds, exits, b);
    if from == {} {
      c := map[];
    } else {
      var first :| first in from;
      c := map r | r in exits[first] && AllHave(exits, from, r, exits[first][r]) :: exits[first][r];
      forall r: Reg, k: Const
        ensures Has(c, r, k) <==> AllHave(exits, from, r, k)
      {
        if AllHave(exits, from, r, k) { assert Has(exits[first], r, k); }
      }
    }
  }

  /** The facts that enter a block are determined by the exits. */
  lemma IncomingUnique(preds: Preds, exits: Exits, b: nat, c: Constants, d: Constants)
    requires Incoming(preds, exits, b, c) && Incoming(preds, exits, b, d)
    ensures c == d
  {
    var from := PredecessorsWithFacts(preds, exits, b);
    if from != {} {
      forall r: Reg, k: Const
        ensures Has(c, r, k) <==> Has(d, r, k)
      {
        assert Has(c, r, k) <==> AllHave(exits, from, r, k);
      }
      forall r | r in c
        ensures r in d && d[r] == c[r]
      {
        assert Has(c, r, c[r]);
      }
      forall r | r in d
        ensures r in c
      {
        assert Has(d, r, d[r]);
      }
      assert c == d;
    }
  }

  /** What enters a block holds when control arrives from one of its predecessors. */
  lemma ArrivalSound(preds: Preds, exits: Exits, q: nat, b: nat, c: Constants, regs: map<Reg, Word>)
    requires b in preds && q in preds[b] && q in exits && Holds(exits[q], regs)
    requires Incoming(preds, exits, b, c)
    ensures Holds(c, regs)
  {
    var from := PredecessorsWithFacts(preds, exits, b);
    assert q in from;
    forall r | r in c
      ensures Get(regs, r) == c[r].value && !IsPredicate(r)
    {
      assert Has(c, r, c[r]);
      assert AllHave(exits, from, r, c[r]);
      assert Has(exits[q], r, c[r]);
    }
  }

  /* ---------- facts along a block ---------- */

  /** The effect of each item on the constants. */
  type Flow = (nat, Constants) -> Constants

  function TransferRange(flow: Flow, a: nat, b: nat, c: Constants): Constants {
    if a >= b then c else flow(b - 1, TransferRange(flow, a, b - 1, c))
  }

  /** The first item of the block of each item, and whether an item is the last of its block. */
  datatype Layout = Layout(size: nat, preds: Preds, home: nat -> nat, last: nat -> bool)

  /** Control goes to the next item of the block, or from its end to a block it precedes. */
  predicate Follows(l: Layout, pc: nat, next: nat) {
    && pc < l.size
    && if l.last(pc) then
         next == l.size || (l.home(next) == next && next in l.preds && l.home(pc) in l.preds[next])
       else
         next == pc + 1 && next < l.size && l.home(next) == l.home(pc) <= pc
  }

  /** The facts for which the flow of an item describes what the item does. */
  type Admits = (nat, Constants) -> bool

  /** All that the analysis needs to know about the machine. */
  ghost predicate Regular(step: Stepper, flow: Flow, ok: Admits, l: Layout) {
    && (forall pc: nat, s: State {:trigger Follows(l, pc, step(pc, s).pc)} |
          step(pc, s).At? :: Follows(l, pc, step(pc, s).pc))
    && (forall pc: nat, s: State, c: Constants {:trigger flow(pc, c), step(pc, s)} |
          step(pc, s).At? && ok(pc, c) && Holds(c, s.regs) :: Holds(flow(pc, c), step(pc, s).s.regs))
  }

  /** With these facts at its start, a block is described by the flow of its items. */
  ghost predicate Admitted(flow: Flow, ok: Admits, l: Layout, b: nat, c: Constants) {
    forall pc: nat {:trigger l.home(pc)} | pc < l.size && l.home(pc) == b :: ok(pc, TransferRange(flow, b, pc, c))
  }

  /** State `(pc, s)` occurs `n` steps after some start state at the entry. */
  ghost predicate Reaches(step: Stepper, n: nat, pc: nat, s: State) {
    if n == 0 then pc == 0
    else exists pc0: nat, s0: State :: Reaches(step, n - 1, pc0, s0) && step(pc0, s0) == At(pc, s)
  }

  /** The next step leaves a block that has exit constants. */
  ghost predicate LeavesBlock(step: Stepper, l: Layout, exits: Exits, pc: nat, s: State) {
    l.last(pc) && l.home(pc) in exits && step(pc, s).At?
  }

  /** Each block's exit constants hold in every run that leaves the block. */
  ghost predicate SoundExits(step: Stepper, l: Layout, exits: Exits) {
    forall n: nat, pc: nat, s: State
      {:trigger Reaches(step, n, pc, s), LeavesBlock(step, l, exits, pc, s)} |
      Reaches(step, n, pc, s) && LeavesBlock(step, l, exits, pc, s) ::
      Holds(exits[l.home(pc)], step(pc, s).s.regs)
  }

  /** Runs start a block, and every block has exit constants. */
  ghost predicate Complete(l: Layout, exits: Exits) {
    && l.home(0) == 0
    && (forall pc: nat {:trigger l.home(pc)} | pc < l.size :: l.home(pc) in exits)
  }

  /** No fact enters the block where runs start. */
  ghost predicate EntryEmpty(l: Layout, exits: Exits) { Incoming(l.preds, exits, 0, map[]) }

  ghost predicate SoundAnalysis(step: Stepper, flow: Flow, ok: Admits, l: Layout, exits: Exits) {
    Regular(step, flow, ok, l) && Complete(l, exits) && SoundExits(step, l, exits)
  }

  lemma StepInside(step: Stepper, flow: Flow, ok: Admits, l: Layout, exits: Exits, pc0: nat, s0: State, pc: nat,
                   s: State, c0: Constants)
    requires SoundAnalysis(step, flow, ok, l, exits) && step(pc0, s0) == At(pc, s) && !l.last(pc0)
    requires Admitted(flow, ok, l, l.home(pc0), c0) && Holds(TransferRange(flow, l.home(pc0), pc0, c0), s0.regs)
    ensures Holds(TransferRange(flow, l.home(pc), pc, c0), s.regs)
  {
    assert Follows(l, pc0, step(pc0, s0).pc);
  }

  lemma SameBlock(step: Stepper, flow: Flow, ok: Admits, l: Layout, exits: Exits, pc0: nat, s0: State, pc: nat,
                  s: State)
    requires SoundAnalysis(step, flow, ok, l, exits) && step(pc0, s0) == At(pc, s) && !l.last(pc0)
    ensures l.home(pc) == l.home(pc0) && pc0 < l.size
  {
    assert Follows(l, pc0, step(pc0, s0).pc);
  }

  lemma StepAcross(step: Stepper, flow: Flow, ok: Admits, l: Layout, exits: Exits, n: nat, pc0: nat, s0: State,
                   pc: nat, s: State,
                   c0: Constants)
    requires SoundAnalysis(step, flow, ok, l, exits)
    requires Reaches(step, n, pc0, s0) && step(pc0, s0) == At(pc, s) && l.last(pc0) && pc < l.size
    requires Incoming(l.preds, exits, l.home(pc), c0)
    ensures Holds(TransferRange(flow, l.home(pc), pc, c0), s.regs)
  {
    assert Follows(l, pc0, step(pc0, s0).pc);
    assert LeavesBlock(step, l, exits, pc0, s0);
    ArrivalSound(l.preds, exits, l.home(pc0), pc, c0, s.regs);
  }

  /** In every run, the facts at each item hold when control is there. */
  lemma {:induction false} FactsHold(step: Stepper, flow: Flow, ok: Admits, l: Layout, exits: Exits, n: nat,
                                     pc: nat, s: State,
                                     c0: Constants)
    requires SoundAnalysis(step, flow, ok, l, exits)
    requires Reaches(step, n, pc, s) && pc < l.size
    requires l.home(pc) == 0 ==> EntryEmpty(l, exits)
    requires Incoming(l.preds, exits, l.home(pc), c0) && Admitted(flow, ok, l, l.home(pc), c0)
    ensures Holds(TransferRange(flow, l.home(pc), pc, c0), s.regs)
    decreases n, 0
  {
    if n > 0 {
      var pc0: nat, s0: State :| Reaches(step, n - 1, pc0, s0) && step(pc0, s0) == At(pc, s);
      FactsAfter(step, flow, ok, l, exits, n - 1, pc0, s0, pc, s, c0);
    } else {
      IncomingUnique(l.preds, exits, 0, c0, map[]);
    }
  }

  lemma {:induction false} FactsAfter(step: Stepper, flow: Flow, ok: Admits, l: Layout, exits: Exits, n: nat,
                                      pc0: nat, s0: State,
                                      pc: nat, s: State, c0: Constants)
    requires SoundAnalysis(step, flow, ok, l, exits)
    requires Reaches(step, n, pc0, s0) && step(pc0, s0) == At(pc, s) && pc < l.size
    requires l.home(pc) == 0 ==> EntryEmpty(l, exits)
    requires Incoming(l.preds, exits, l.home(pc), c0) && Admitted(flow, ok, l, l.home(pc), c0)
    ensures Holds(TransferRange(flow, l.home(pc), pc, c0), s.regs)
    decreases n, 1
  {
    if l.last(pc0) {
      StepAcross(step, flow, ok, l, exits, n, pc0, s0, pc, s, c0);
    } else {
      SameBlock(step, flow, ok, l, exits, pc0, s0, pc, s);
      FactsHold(step, flow, ok, l, exits, n, pc0, s0, c0);
      StepInside(step, flow, ok, l, exits, pc0, s0, pc, s, c0);
    }
  }

  /** Updating the exit of one block keeps all exits sound, so every round can be the last. */
  lemma UpdateSound(step: Stepper, flow: Flow, ok: Admits, l: Layout, exits: Exits, b: nat, end: nat, c0: Constants)
    requires SoundAnalysis(step, flow, ok, l, exits) && Incoming(l.preds, exits, b, c0) && b < end
    requires b == 0 ==> EntryEmpty(l, exits)
    requires Admitted(flow, ok, l, b, c0)
    requires forall pc: nat {:trigger l.last(pc)} | pc < l.size && l.last(pc) && l.home(pc) == b :: pc + 1 == end
    ensures SoundAnalysis(step, flow, ok, l, exits[b := TransferRange(flow, b, end, c0)])
  {
    var after := exits[b := TransferRange(flow, b, end, c0)];
    forall n: nat, pc: nat, s: State | Reaches(step, n, pc, s) && LeavesBlock(step, l, after, pc, s)
      ensures Holds(after[l.home(pc)], step(pc, s).s.regs)
    {
      assert Follows(l, pc, step(pc, s).pc);
      assert LeavesBlock(step, l, exits, pc, s);
      if l.home(pc) == b {
        FactsHold(step, flow, ok, l, exits, n, pc, s, c0);
      }
    }
  }
}
