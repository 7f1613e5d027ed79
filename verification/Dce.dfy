/** Worklist-based global dead code elimination, and what every run of the program keeps. */
module Dce {
  import opened Isa
  import opened Ptx
  import opened Agreement
  import opened Simulation
  import opened Sequences

  /* ---------- the live set ---------- */

  predicate IsCode(p: Program, i: nat) { i < |p| && p[i].Code? }

  /** Item `d` defines `r` for the pass; predicate definitions are never removed and not recorded. */
  predicate Defines(p: Program, d: nat, r: Reg) {
    IsCode(p, d) && Destination(p[d].inst) == Some(r) && !IsPredicate(r)
  }

  predicate Seed(p: Program, i: nat) { IsCode(p, i) && SideEffecting(p[i].inst) }

  /** Item `d` computes a value that item `i` may read. */
  predicate Feeds(p: Program, d: nat, i: nat) {
    IsCode(p, i) && exists r | r in ReadRegs(p[i].inst) :: Defines(p, d, r)
  }

  /** Contains every side effect and every definition a member may read. */
  ghost predicate Closed(p: Program, live: set<nat>) {
    && (forall i: nat | Seed(p, i) :: i in live)
    && (forall i: nat, d: nat | i in live && Feeds(p, d, i) :: d in live)
  }

  /** The least such set. */
  ghost predicate IsLive(p: Program, live: set<nat>) {
    Closed(p, live) && forall other: set<nat> | Closed(p, other) :: live <= other
  }

  lemma LiveUnique(p: Program, a: set<nat>, b: set<nat>)
    requires IsLive(p, a) && IsLive(p, b)
    ensures a == b
  {
  }

  /* ---------- the pass ---------- */

  type DefMap = map<Reg, seq<nat>>

  ghost predicate DefMapOf(p: Program, n: nat, defs: DefMap) {
    && (forall r, k | r in defs && 0 <= k < |defs[r]| :: Defines(p, defs[r][k], r))
    && (forall r, d: nat | d < n && Defines(p, d, r) :: r in defs && d in defs[r])
  }

  method CollectDefinitions(p: Program) returns (defs: DefMap)
    ensures DefMapOf(p, |p|, defs)
  {
    defs := map[];
    for i := 0 to |p|
      invariant DefMapOf(p, i, defs)
    {
      if p[i].Code? {
        var dest := Destination(p[i].inst);
        if dest.Some? && !IsPredicate(dest.value) {
          var r := dest.value;
          ghost var before := defs;
          defs := defs[r := (if r in defs then defs[r] else []) + [i]];
          forall q, d: nat | d < i + 1 && Defines(p, d, q)
            ensures q in defs && d in defs[q]
          {
            if d < i {
              assert d in before[q];
            } else {
              assert defs[q][|defs[q]| - 1] == i;
            }
          }
        }
      }
    }
  }

  /** Everything a finished member feeds on is live; members still on the worklist are unfinished. */
  ghost predicate Progress(p: Program, live: set<nat>, worklist: seq<nat>) {
    && (forall i | i in worklist :: i in live)
    && (forall i | i in live :: IsCode(p, i))
    && (forall i: nat, d: nat | i in live && i !in worklist && Feeds(p, d, i) :: d in live)
    && (forall other: set<nat> | Closed(p, other) :: live <= other)
  }

  method MarkSeeds(p: Program) returns (live: set<nat>, worklist: seq<nat>)
    ensures Progress(p, live, worklist)
    ensures forall i: nat | Seed(p, i) :: i in live
  {
    live, worklist := {}, [];
    for i := 0 to |p|
      invariant Progress(p, live, worklist)
      invariant forall k: nat | k in live :: k in worklist
      invariant forall k: nat | k < i && Seed(p, k) :: k in live
    {
      if p[i].Code? && SideEffecting(p[i].inst) && i !in live {
        assert Seed(p, i);
        live, worklist := live + {i}, worklist + [i];
      }
    }
  }

  /** `mark_live` for the definitions of one register. */
  method MarkDefinitions(p: Program, idx: nat, r: Reg, list: seq<nat>, live0: set<nat>, worklist0: seq<nat>)
    returns (live: set<nat>, worklist: seq<nat>)
    requires IsCode(p, idx) && r in ReadRegs(p[idx].inst)
    requires forall k | 0 <= k < |list| :: Defines(p, list[k], r)
    requires Unfinished(p, live0, worklist0, idx)
    ensures Unfinished(p, live, worklist, idx)
    ensures live0 <= live && forall d | d in list :: d in live
    ensures live == live0 ==> worklist == worklist0
  {
    live, worklist := live0, worklist0;
    for k := 0 to |list|
      invariant Unfinished(p, live, worklist, idx)
      invariant live0 <= live && forall l | 0 <= l < k :: list[l] in live
      invariant live == live0 ==> worklist == worklist0
    {
      if list[k] !in live {
        assert Feeds(p, list[k], idx);
        MarkOne(p, live, worklist, idx, list[k]);
        live, worklist := live + {list[k]}, worklist + [list[k]];
      }
    }
  }

  /** As `Progress`, except that the member `idx` taken from the worklist may still be unfinished. */
  ghost predicate Unfinished(p: Program, live: set<nat>, worklist: seq<nat>, idx: nat) {
    && idx in live
    && (forall i | i in worklist :: i in live)
    && (forall i | i in live :: IsCode(p, i))
    && (forall i: nat, d: nat | i in live && i !in worklist && i != idx && Feeds(p, d, i) :: d in live)
    && (forall other: set<nat> | Closed(p, other) :: live <= other)
  }

  lemma MarkOne(p: Program, live: set<nat>, worklist: seq<nat>, idx: nat, d: nat)
    requires Unfinished(p, live, worklist, idx) && Feeds(p, d, idx) && IsCode(p, d)
    ensures Unfinished(p, live + {d}, worklist + [d], idx)
  {
    forall i: nat, e: nat | i in live + {d} && i !in worklist + [d] && i != idx && Feeds(p, e, i)
      ensures e in live + {d}
    {
      assert (worklist + [d])[|worklist|] == d;
      assert i != d;
    }
    forall other: set<nat> | Closed(p, other)
      ensures live + {d} <= other
    {
      assert idx in other;
    }
  }

  method Propagate(p: Program, defs: DefMap) returns (live: set<nat>)
    requires DefMapOf(p, |p|, defs)
    ensures IsLive(p, live)
  {
    hide ReadRegs;
    var worklist: seq<nat>;
    live, worklist := MarkSeeds(p);
    while worklist != []
      invariant Progress(p, live, worklist)
      invariant forall i: nat | Seed(p, i) :: i in live
      decreases Range(|p|) - live, |worklist|
    {
      var idx := worklist[|worklist| - 1];
      assert idx in worklist;
      ghost var before := live;
      worklist := worklist[..|worklist| - 1];
      ghost var popped := worklist;
      var sources := ReadRegs(p[idx].inst);
      ghost var done: set<Reg> := {};
      while sources != {}
        invariant Unfinished(p, live, worklist, idx)
        invariant sources + done == ReadRegs(p[idx].inst)
        invariant before <= live
        invariant live == before ==> worklist == popped
        invariant forall r, d: nat | r in done && Defines(p, d, r) :: d in live
        decreases sources
      {
        var r :| r in sources;
        sources := sources - {r};
        if r in defs {
          live, worklist := MarkDefinitions(p, idx, r, defs[r], live, worklist);
        }
        done := done + {r};
      }
      assert forall i | i in live :: i in Range(|p|);
      assert live != before ==> Range(|p|) - live < Range(|p|) - before;
    }
  }

  /* ---------- the filtered program ---------- */

  predicate Keep(p: Program, live: set<nat>, i: nat)
    requires i < |p|
  {
    p[i].Label? || i in live
  }

  /** The kept ones of the first `n` items. */
  function Kept(p: Program, live: set<nat>, n: nat): (r: Program)
    requires n <= |p|
  {
    if n == 0 then [] else Kept(p, live, n - 1) + if Keep(p, live, n - 1) then [p[n - 1]] else []
  }

  /** Where item `n` goes. */
  function Position(p: Program, live: set<nat>, n: nat): nat
    requires n <= |p|
  {
    |Kept(p, live, n)|
  }

  method EliminateDeadCode(p: Program) returns (r: Program)
    ensures exists live: set<nat> :: IsLive(p, live) && r == Kept(p, live, |p|)
  {
    var defs := CollectDefinitions(p);
    var live := Propagate(p, defs);
    r := [];
    for i := 0 to |p|
      invariant r == Kept(p, live, i)
    {
      if p[i].Label? || i in live {
        r := r + [p[i]];
      }
    }
  }

  lemma {:induction false} KeptPrefix(p: Program, live: set<nat>, i: nat, n: nat)
    requires i < n <= |p| && Keep(p, live, i)
    ensures Position(p, live, i) < Position(p, live, n)
    ensures Kept(p, live, n)[Position(p, live, i)] == p[i]
  {
    if i < n - 1 {
      KeptPrefix(p, live, i, n - 1);
    }
  }

  lemma {:induction false} Origin(p: Program, live: set<nat>, j: nat, n: nat) returns (i: nat)
    requires n <= |p| && j < Position(p, live, n)
    ensures i < n && Keep(p, live, i) && Position(p, live, i) == j
  {
    if j < Position(p, live, n - 1) {
      i := Origin(p, live, j, n - 1);
    } else {
      i := n - 1;
    }
  }

  lemma {:induction false} PositionMonotone(p: Program, live: set<nat>, i: nat, n: nat)
    requires i <= n <= |p|
    ensures Position(p, live, i) <= Position(p, live, n)
  {
    if i < n {
      PositionMonotone(p, live, i, n - 1);
    }
  }

  lemma LabelMoves(p: Program, live: set<nat>, name: nat)
    ensures
      FindLabel(Kept(p, live, |p|), name) ==
      match FindLabel(p, name)
      case None => None
      case Some(k) => Some(Position(p, live, k))
  {
    var q := Kept(p, live, |p|);
    var at := FindLabel(p, name);
    if at.Some? {
      KeptPrefix(p, live, at.value, |p|);
    }
    forall j: nat | j < |q| && q[j] == Label(name)
      ensures at.Some? && j >= Position(p, live, at.value)
    {
      var i := Origin(p, live, j, |p|);
      KeptPrefix(p, live, i, |p|);
      PositionMonotone(p, live, at.value, i);
    }
  }

  /* ---------- simulation ---------- */

  /** Registers some live instruction may read. */
  ghost predicate Needed(p: Program, live: set<nat>, r: Reg) {
    exists i: nat :: i in live && IsCode(p, i) && r in ReadRegs(p[i].inst)
  }

  /** Same memory, carry and trace, and the same values in every register a live instruction reads. */
  ghost predicate SameState(p: Program, live: set<nat>, s: State, t: State) {
    SameOn(r => Needed(p, live, r), s, t)
  }

  ghost predicate Match(p: Program, live: set<nat>, o: Outcome, q: Outcome) {
    match o
    case Stuck => q.Stuck?
    case Stop(s) => q.Stop? && SameState(p, live, s, q.final)
    case At(pc, s) =>
      && q.At? && SameState(p, live, s, q.s)
      && q.pc == if pc <= |p| then Position(p, live, pc) else Position(p, live, |p|)
  }

  /** A live instruction does the same in both states. */
  lemma LiveEffect(unit: Unit, p: Program, live: set<nat>, i: nat, s: State, t: State)
    requires i in live && IsCode(p, i) && SameState(p, live, s, t)
    ensures GuardPasses(p[i].inst, s) == GuardPasses(p[i].inst, t)
    ensures Effect(unit, p[i].inst, s).Some? == Effect(unit, p[i].inst, t).Some?
    ensures Effect(unit, p[i].inst, s).Some? ==>
              SameState(p, live, Effect(unit, p[i].inst, s).value, Effect(unit, p[i].inst, t).value)
  {
    assert forall r | r in ReadRegs(p[i].inst) :: Needed(p, live, r);
    EffectSame(unit, r => Needed(p, live, r), p[i].inst, s, t);
  }

  /** A dead instruction changes nothing but a register nobody needs. */
  lemma DeadEffect(unit: Unit, p: Program, live: set<nat>, i: nat, s: State)
    requires Closed(p, live) && IsCode(p, i) && i !in live
    ensures !p[i].inst.base.Ret? && !p[i].inst.base.Bra? && GuardPasses(p[i].inst, s)
    ensures Effect(unit, p[i].inst, s).Some? && SameState(p, live, Effect(unit, p[i].inst, s).value, s)
  {
    var inst := p[i].inst;
    assert !Seed(p, i);
    if inst.operands != [] && inst.operands[0].RegOp? {
      var r := inst.operands[0].reg;
      assert Defines(p, i, r);
      if Needed(p, live, r) {
        var k: nat :| k in live && IsCode(p, k) && r in ReadRegs(p[k].inst);
        assert Feeds(p, i, k);
        assert false;
      }
    }
  }

  /** A step of a kept item is a step of the filtered program. */
  lemma KeptStep(unit: Unit, p: Program, live: set<nat>, pc: nat, s: State, t: State)
    requires Closed(p, live) && pc < |p| && Keep(p, live, pc) && SameState(p, live, s, t)
    ensures Match(p, live, Step(unit, p, pc, s),
                  Step(unit, Kept(p, live, |p|), Position(p, live, pc), t))
  {
    hide Effect;
    KeptPrefix(p, live, pc, |p|);
    if p[pc].Code? {
      LiveEffect(unit, p, live, pc, s, t);
      var inst := p[pc].inst;
      if |inst.operands| == 1 && inst.operands[0].Sym? {
        LabelMoves(p, live, inst.operands[0].name);
      }
    }
  }

  /** A step of a removed item leaves the filtered program where it is. */
  lemma DeadStep(unit: Unit, p: Program, live: set<nat>, pc: nat, s: State, t: State)
    requires Closed(p, live) && pc < |p| && !Keep(p, live, pc) && SameState(p, live, s, t)
    ensures Match(p, live, Step(unit, p, pc, s), At(Position(p, live, pc), t))
  {
    DeadEffect(unit, p, live, pc, s);
    SameOnTransitive(r => Needed(p, live, r), Effect(unit, p[pc].inst, s).value, s, t);
  }

  /** How many of the first `n` steps execute kept items. */
  ghost function KeptSteps(unit: Unit, p: Program, live: set<nat>, o: Outcome, n: nat): nat
    decreases n
  {
    if n == 0 || !o.At? then 0
    else
      (if o.pc < |p| && !Keep(p, live, o.pc) then 0 else 1)
      + KeptSteps(unit, p, live, Step(unit, p, o.pc, o.s), n - 1)
  }

  /** Lockstep with stuttering on deleted items, for runs of every length. */
  lemma {:induction false} RunsMatch(unit: Unit, p: Program, live: set<nat>, o: Outcome, q: Outcome, n: nat)
    requires Closed(p, live) && Match(p, live, o, q)
    ensures Match(p, live, Run(Steps(unit, p), o, n),
                  Run(Steps(unit, Kept(p, live, |p|)), q, KeptSteps(unit, p, live, o, n)))
    decreases n
  {
    if n > 0 && o.At? {
      var o' := Step(unit, p, o.pc, o.s);
      if o.pc < |p| && !Keep(p, live, o.pc) {
        DeadStep(unit, p, live, o.pc, o.s, q.s);
        RunsMatch(unit, p, live, o', q, n - 1);
      } else {
        if o.pc < |p| {
          KeptStep(unit, p, live, o.pc, o.s, q.s);
        }
        RunsMatch(unit, p, live, o', Step(unit, Kept(p, live, |p|), q.pc, q.s), n - 1);
      }
    }
  }

  /** The original program catches up with any number of steps of the filtered one. */
  lemma {:induction false} CatchUp(unit: Unit, p: Program, live: set<nat>, o: Outcome, m: nat) returns (n: nat)
    requires Closed(p, live)
    ensures KeptSteps(unit, p, live, o, n) == m || (KeptSteps(unit, p, live, o, n) < m && !Run(Steps(unit, p), o, n).At?)
    decreases m, if o.At? && o.pc < |p| then |p| - o.pc else 0
  {
    if m == 0 || !o.At? {
      n := 0;
    } else {
      var o' := Step(unit, p, o.pc, o.s);
      if o.pc < |p| && !Keep(p, live, o.pc) {
        DeadEffect(unit, p, live, o.pc, o.s);
        n := CatchUp(unit, p, live, o', m);
      } else {
        n := CatchUp(unit, p, live, o', m - 1);
      }
      n := n + 1;
    }
  }

  /** Dead code elimination preserves every run: the same observable results, in both directions. */
  lemma EliminationPreserves(unit: Unit, p: Program, live: set<nat>, s: State, mem: Memory, trace: seq<Event>)
    requires Closed(p, live)
    ensures Ends(Steps(unit, p), At(0, s), mem, trace) <==> Ends(Steps(unit, Kept(p, live, |p|)), At(0, s), mem, trace)
  {
    var step, other, start := Steps(unit, p), Steps(unit, Kept(p, live, |p|)), At(0, s);
    assert Match(p, live, start, start);
    if n: nat :| EndsAfter(step, start, mem, trace, n) {
      RunsMatch(unit, p, live, start, start, n);
      assert EndsAfter(other, start, mem, trace, KeptSteps(unit, p, live, start, n));
    }
    if m: nat :| EndsAfter(other, start, mem, trace, m) {
      var n := CatchUp(unit, p, live, start, m);
      RunsMatch(unit, p, live, start, start, n);
      var k := KeptSteps(unit, p, live, start, n);
      StoppedStays(other, start, k, m);
      assert EndsAfter(step, start, mem, trace, n);
    }
  }
}
