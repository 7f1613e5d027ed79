/** Why propagated constants are true in every run, when they are, and what the rewritten program does. */
module PropagationMeaning {
  import opened Isa
  import M = Machine
  import opened Ptx
  import opened Cfg
  import opened Graphs
  import opened Dataflow
  import opened ConstantPropagation
  import opened PropagationOrder

  /* ---------- writes that the dataflow phase does not see ---------- */

  /** The general-purpose register that an instruction writes behind the back of the dataflow phase. */
  function Unseen(i: Instr): Option<Reg> {
    if (i.guard.Some? || i.cc || i.base.Fma?) && (i.base.Pure? || i.base.Fma? || i.base.Setp? || i.base.Ld?)
       && i.operands != [] && i.operands[0].RegOp? && !IsPredicate(i.operands[0].reg)
    then Some(i.operands[0].reg)
    else None
  }

  /** Nothing is claimed about what the item writes unseen, nor about the result of a carry instruction. */
  predicate SeenWith(item: Item, c: Constants) {
    item.Code? ==>
      && (Unseen(item.inst).Some? ==> Unseen(item.inst).value !in c)
      && (item.inst.cc ==> Fold(item.inst, c).1.None?)
  }

  lemma SeenShrinks(item: Item, c: Constants, d: Constants)
    requires Within(c, d) && SeenWith(item, d)
    ensures SeenWith(item, c)
  {
    if item.Code? {
      FoldGrows(item.inst, c, d);
      assert forall r | r in c :: Has(d, r, c[r]);
    }
  }

  lemma WritesOnlyOne(unit: Unit, i: Instr, s: State)
    requires Effect(unit, i, s).Some?
    ensures
      var after := Effect(unit, i, s).value.regs;
      var writes := i.base.Pure? || i.base.Fma? || i.base.Setp? || i.base.Ld?;
      forall r: Reg | !(writes && i.operands != [] && i.operands[0] == RegOp(r)) :: Get(after, r) == Get(s.regs, r)
  {
  }

  /** One step inside a block keeps the facts. */
  lemma TransferSound(unit: Unit, p: Program, pc: nat, s: State, c: Constants)
    requires pc < |p| && SeenWith(p[pc], c) && Holds(c, s.regs) && Step(unit, p, pc, s).At?
    ensures Holds(Transfer(p[pc], c), Step(unit, p, pc, s).s.regs)
  {
    if p[pc].Code? {
      var i := p[pc].inst;
      if !i.base.Ret? && !i.base.Bra? && GuardPasses(i, s) {
        WritesOnlyOne(unit, i, s);
        FoldSound(unit, i, c, s);
      }
    }
  }

  /* ---------- the program as a layout of blocks ---------- */

  ghost function LayoutOf(p: Program): Layout {
    Layout(|p|, CfgOf(p).pred,
           (k: nat) => if k < |p| then BlockOf(p, k) else k,
           (k: nat) => k < |p| && k + 1 == BlockEnd(p, BlockOf(p, k)))
  }

  function AdmitsOf(p: Program): Admits {
    (k: nat, c: Constants) => k < |p| ==> SeenWith(p[k], c)
  }

  lemma MachineRegular(unit: Unit, p: Program)
    ensures Regular(Steps(unit, p), FlowOf(p), AdmitsOf(p), LayoutOf(p))
  {
    var step, flow, ok, l := Steps(unit, p), FlowOf(p), AdmitsOf(p), LayoutOf(p);
    forall pc: nat, s: State | step(pc, s).At?
      ensures Follows(l, pc, step(pc, s).pc)
    {
      StepLaidOut(unit, p, pc, s);
    }
    forall pc: nat, s: State, c: Constants | step(pc, s).At? && ok(pc, c) && Holds(c, s.regs)
      ensures Holds(flow(pc, c), step(pc, s).s.regs)
    {
      TransferSound(unit, p, pc, s, c);
    }
  }

  lemma StepLaidOut(unit: Unit, p: Program, pc: nat, s: State)
    requires Step(unit, p, pc, s).At?
    ensures Follows(LayoutOf(p), pc, Step(unit, p, pc, s).pc)
  {
    var b, next := BlockOf(p, pc), Step(unit, p, pc, s).pc;
    StepFollowsEdges(unit, p, pc, s);
    BlockOfFacts(p, pc);
    if next in Successors(p, b) {
      SuccessorsAreBlocks(p, b, next);
      CfgValid(p);
      assert Edge(CfgOf(p), b, next);
    }
  }

  lemma LastOfBlock(p: Program, b: nat)
    requires BlockStart(p, b) && b < |p|
    ensures
      var l := LayoutOf(p);
      forall pc: nat {:trigger l.last(pc)} | pc < l.size && l.last(pc) && l.home(pc) == b :: pc + 1 == BlockEnd(p, b)
  {
  }

  /* ---------- the two phases see the same facts ---------- */

  /** Nothing is claimed about an unseen write, anywhere in the program. */
  ghost predicate AllSeen(p: Program, preds: Preds, exits: Exits) {
    forall i: nat | i < |p| :: SeenAt(p, preds, exits, i)
  }

  ghost predicate SeenAt(p: Program, preds: Preds, exits: Exits, i: nat)
    requires i < |p|
  {
    SeenWith(p[i], FactsAt(p, preds, exits, i))
  }

  lemma SameUpdate(item: Item, c: Constants)
    requires SeenWith(item, c) && forall r | r in c :: !IsPredicate(r)
    ensures UpdateItem(item, c) == Transfer(item, c)
  {
    if item.Code? && (item.inst.guard.Some? || item.inst.cc) {
      assert Fold(item.inst, c).1.None?;
      var d := Destination(item.inst);
      if d.Some? && !IsPredicate(d.value) {
        assert c - {d.value} == c;
      }
    }
  }

  predicate NoPredicates(c: Constants) { forall r | r in c :: !IsPredicate(r) }

  ghost predicate KeepsPlain(flow: Flow) {
    forall k: nat, c: Constants {:trigger flow(k, c)} | NoPredicates(c) :: NoPredicates(flow(k, c))
  }

  lemma FlowsKeepPlain(p: Program)
    ensures KeepsPlain(FlowOf(p)) && KeepsPlain(ApplyFlow(p))
  {
  }

  lemma {:induction false} RangePlain(flow: Flow, a: nat, b: nat, c: Constants)
    requires NoPredicates(c) && KeepsPlain(flow)
    ensures NoPredicates(TransferRange(flow, a, b, c))
    decreases b
  {
    if a < b {
      RangePlain(flow, a, b - 1, c);
    }
  }

  lemma {:induction false} SameRange(f: Flow, g: Flow, a: nat, b: nat, c: Constants)
    requires forall k: nat | a <= k < b :: f(k, TransferRange(f, a, k, c)) == g(k, TransferRange(f, a, k, c))
    ensures TransferRange(f, a, b, c) == TransferRange(g, a, b, c)
    decreases b
  {
    if a < b {
      SameRange(f, g, a, b - 1, c);
    }
  }

  /** Where nothing is claimed about unseen writes, skipping an instruction and looking at it come to the same. */
  lemma SameFlow(p: Program, a: nat, b: nat, c: Constants)
    requires NoPredicates(c) && b <= |p|
    requires forall k: nat | a <= k < b :: SeenWith(p[k], TransferRange(ApplyFlow(p), a, k, c))
    ensures TransferRange(ApplyFlow(p), a, b, c) == TransferRange(FlowOf(p), a, b, c)
  {
    var f, g := ApplyFlow(p), FlowOf(p);
    FlowsKeepPlain(p);
    forall k: nat | a <= k < b
      ensures f(k, TransferRange(f, a, k, c)) == g(k, TransferRange(f, a, k, c))
    {
      RangePlain(f, a, k, c);
      SameUpdate(p[k], TransferRange(f, a, k, c));
    }
    SameRange(f, g, a, b, c);
  }

  /** No exit claims a value for a predicate. */
  ghost predicate PlainExits(exits: Exits) { forall b | b in exits :: NoPredicates(exits[b]) }

  lemma EntryPlain(preds: Preds, exits: Exits, b: nat)
    requires PlainExits(exits)
    ensures NoPredicates(EntryFacts(preds, exits, b))
  {
    var from, c := PredecessorsWithFacts(preds, exits, b), EntryFacts(preds, exits, b);
    forall r | r in c
      ensures !IsPredicate(r)
    {
      assert Has(c, r, c[r]);
      assert AllHave(exits, from, r, c[r]);
      var q :| q in from;
      assert Has(exits[q], r, c[r]);
    }
  }

  lemma {:induction false} RoundPlain(p: Program, preds: Preds, exits: Exits, k: nat)
    requires PlainExits(exits)
    ensures PlainExits(Round(VisitOf(p, preds), exits, k))
  {
    if k > 0 {
      RoundPlain(p, preds, exits, k - 1);
      var before := Round(VisitOf(p, preds), exits, k - 1);
      EntryPlain(preds, before, k - 1);
      if k - 1 < |p| {
        FlowsKeepPlain(p);
        RangePlain(FlowOf(p), k - 1, BlockEnd(p, k - 1), EntryFacts(preds, before, k - 1));
      }
    }
  }

  lemma {:induction false} RoundsPlain(p: Program, preds: Preds, n: nat)
    ensures PlainExits(Rounds(p, preds, n))
  {
    if n > 0 {
      RoundsPlain(p, preds, n - 1);
      RoundPlain(p, preds, Rounds(p, preds, n - 1), |p|);
    }
  }

  lemma {:induction false} BlockRange(p: Program, pc: nat, k: nat)
    requires pc < |p| && BlockOf(p, pc) <= k <= pc
    ensures BlockOf(p, k) == BlockOf(p, pc)
  {
    BlockOfFacts(p, pc);
    BlockOfStart(p, BlockOf(p, pc), k);
  }

  /** The facts at an item, computed as the dataflow phase does. */
  lemma FactsAtByFlow(p: Program, preds: Preds, n: nat, pc: nat)
    requires AllSeen(p, preds, Rounds(p, preds, n)) && pc < |p|
    ensures
      var exits, b := Rounds(p, preds, n), BlockOf(p, pc);
      FactsAt(p, preds, exits, pc) == TransferRange(FlowOf(p), b, pc, EntryFacts(preds, exits, b))
  {
    var exits, b := Rounds(p, preds, n), BlockOf(p, pc);
    RoundsPlain(p, preds, n);
    EntryPlain(preds, exits, b);
    forall k: nat | b <= k < pc
      ensures SeenWith(p[k], TransferRange(ApplyFlow(p), b, k, EntryFacts(preds, exits, b)))
    {
      BlockRange(p, pc, k);
      assert SeenAt(p, preds, exits, k);
    }
    SameFlow(p, b, pc, EntryFacts(preds, exits, b));
  }

  /** Earlier exits, which claim less, claim nothing about unseen writes either. */
  lemma AdmittedBelow(p: Program, preds: Preds, n: nat, e: Exits, b: nat)
    requires AllSeen(p, preds, Rounds(p, preds, n)) && ExitsWithin(e, Rounds(p, preds, n))
    ensures Admitted(FlowOf(p), AdmitsOf(p), LayoutOf(p), b, EntryFacts(preds, e, b))
  {
    var l, exits := LayoutOf(p), Rounds(p, preds, n);
    EntryGrows(preds, e, exits, b);
    forall pc: nat | pc < l.size && l.home(pc) == b
      ensures AdmitsOf(p)(pc, TransferRange(FlowOf(p), b, pc, EntryFacts(preds, e, b)))
    {
      FactsAtByFlow(p, preds, n, pc);
      assert SeenAt(p, preds, exits, pc);
      FlowMonotone(p);
      RangeGrows(FlowOf(p), b, pc, EntryFacts(preds, e, b), EntryFacts(preds, exits, b));
      SeenShrinks(p[pc], TransferRange(FlowOf(p), b, pc, EntryFacts(preds, e, b)), FactsAt(p, preds, exits, pc));
    }
  }

  /* ---------- soundness after every round ---------- */

  /** No fact enters the block where runs start, and none is claimed about an unseen write. */
  ghost predicate Consistent(p: Program, preds: Preds, exits: Exits) {
    EntryFacts(preds, exits, 0) == map[] && AllSeen(p, preds, exits)
  }

  ghost predicate SoundFor(unit: Unit, p: Program, exits: Exits) {
    SoundAnalysis(Steps(unit, p), FlowOf(p), AdmitsOf(p), LayoutOf(p), exits)
  }

  lemma BlockSound(unit: Unit, p: Program, preds: Preds, e: Exits, b: nat, n: nat)
    requires preds == CfgOf(p).pred && SoundFor(unit, p, e)
    requires Consistent(p, preds, Rounds(p, preds, n)) && ExitsWithin(e, Rounds(p, preds, n))
    ensures SoundFor(unit, p, VisitBlock(p, preds, e, b))
  {
    if b < |p| && BlockStart(p, b) {
      LastOfBlock(p, b);
      AdmittedBelow(p, preds, n, e, b);
      EntryGrows(preds, e, Rounds(p, preds, n), 0);
      if b == 0 {
        assert EntryFacts(preds, e, 0) == map[];
      }
      UpdateSound(Steps(unit, p), FlowOf(p), AdmitsOf(p), LayoutOf(p), e, b, BlockEnd(p, b), EntryFacts(preds, e, b));
    }
  }

  /** The exits met before round `n + 1` stay below those after it. */
  ghost predicate StaysBelow(visit: (Exits, nat) -> Exits, below: Exits -> bool, exits: Exits, size: nat, n: nat) {
    forall m: nat, k: nat {:trigger Round(visit, Iterate(visit, exits, size, m), k)} | m < n && k <= size ::
      below(Round(visit, Iterate(visit, exits, size, m), k))
  }

  ghost predicate KeptBy(sound: Exits -> bool, below: Exits -> bool, visit: (Exits, nat) -> Exits) {
    forall e: Exits, b: nat {:trigger visit(e, b)} | sound(e) && below(e) :: sound(visit(e, b))
  }

  lemma {:induction false} EveryVisitSound(visit: (Exits, nat) -> Exits, sound: Exits -> bool, below: Exits -> bool,
                                           exits: Exits, size: nat, m: nat, k: nat, n: nat)
    requires sound(exits) && KeptBy(sound, below, visit) && StaysBelow(visit, below, exits, size, n)
    requires k <= size && (m < n || (m == n && k == 0))
    ensures sound(Round(visit, Iterate(visit, exits, size, m), k))
    decreases m, k
  {
    if k > 0 {
      EveryVisitSound(visit, sound, below, exits, size, m, k - 1, n);
    } else if m > 0 {
      EveryVisitSound(visit, sound, below, exits, size, m - 1, size, n);
    }
  }

  /** Whatever the number of rounds, each block's exit constants hold in every run that leaves the block. */
  lemma EveryRoundSound(unit: Unit, p: Program, preds: Preds, m: nat, n: nat)
    requires preds == CfgOf(p).pred && Consistent(p, preds, Rounds(p, preds, n)) && m <= n
    ensures SoundFor(unit, p, Rounds(p, preds, m))
  {
    hide Consistent, CfgOf;
    var visit := VisitOf(p, preds);
    var sound := (e: Exits) => SoundFor(unit, p, e);
    var below := (e: Exits) => ExitsWithin(e, Rounds(p, preds, n));
    MachineRegular(unit, p);
    forall e: Exits, b: nat | sound(e) && below(e)
      ensures sound(visit(e, b))
    {
      BlockSound(unit, p, preds, e, b, n);
    }
    forall i: nat, k: nat | i < n && k <= |p|
      ensures below(Round(visit, Iterate(visit, NoFacts(p), |p|, i), k))
    {
      RoundsGrow(p, preds, i, k, n);
    }
    EveryVisitSound(visit, sound, below, NoFacts(p), |p|, m, 0, n);
  }

  /* ---------- the rewritten program has the same runs ---------- */

  lemma {:induction false} SameLabels(p: Program, q: Program, name: nat)
    requires |p| == |q| && forall i | 0 <= i < |p| :: (p[i].Label? || q[i].Label?) ==> p[i] == q[i]
    ensures FindLabel(p, name) == FindLabel(q, name)
  {
    if p != [] {
      SameLabels(p[1..], q[1..], name);
    }
  }

  lemma RewrittenLabels(p: Program, preds: Preds, exits: Exits, q: Program, name: nat)
    requires Rewritten(p, preds, exits, q)
    ensures FindLabel(p, name) == FindLabel(q, name)
  {
    forall k | 0 <= k < |p|
      ensures (p[k].Label? || q[k].Label?) ==> p[k] == q[k]
    {
      assert RewritesTo(p, preds, exits, k, q[k]);
    }
    SameLabels(p, q, name);
  }

  lemma RewrittenStep(unit: Unit, p: Program, preds: Preds, exits: Exits, q: Program, pc: nat, s: State)
    requires AllSeen(p, preds, exits) && Rewritten(p, preds, exits, q)
    requires pc < |p| ==> Holds(FactsAt(p, preds, exits, pc), s.regs)
    ensures Step(unit, q, pc, s) == Step(unit, p, pc, s)
  {
    if pc < |p| {
      assert RewritesTo(p, preds, exits, pc, q[pc]) && SeenAt(p, preds, exits, pc);
      if p[pc].Code? {
        var i := p[pc].inst;
        FoldSound(unit, i, FactsAt(p, preds, exits, pc), s);
        if i.base.Bra? && |i.operands| == 1 && i.operands[0].Sym? {
          RewrittenLabels(p, preds, exits, q, i.operands[0].name);
        }
      }
    }
  }

  /** The constants the apply phase relies on hold in every run. */
  lemma FactsHoldAt(unit: Unit, p: Program, preds: Preds, rounds: nat, done: nat, pc: nat, s: State)
    requires preds == CfgOf(p).pred && Consistent(p, preds, Rounds(p, preds, rounds)) && pc < |p|
    requires Reaches(Steps(unit, p), done, pc, s)
    ensures Holds(FactsAt(p, preds, Rounds(p, preds, rounds), pc), s.regs)
  {
    var exits, b := Rounds(p, preds, rounds), BlockOf(p, pc);
    EveryRoundSound(unit, p, preds, rounds, rounds);
    RoundsGrow(p, preds, rounds, 0, rounds);
    AdmittedBelow(p, preds, rounds, exits, b);
    assert LayoutOf(p).home(pc) == b;
    FactsHold(Steps(unit, p), FlowOf(p), AdmitsOf(p), LayoutOf(p), exits, done, pc, s, EntryFacts(preds, exits, b));
    FactsAtByFlow(p, preds, rounds, pc);
  }

  /** Steppers that agree on every state reached from the entry. */
  ghost predicate AgreeWhenReached(step: Stepper, other: Stepper) {
    forall n: nat, pc: nat, s: State | Reaches(step, n, pc, s) :: other(pc, s) == step(pc, s)
  }

  lemma {:induction false} RunsAgree(step: Stepper, other: Stepper, done: nat, pc: nat, s: State, n: nat)
    requires AgreeWhenReached(step, other) && Reaches(step, done, pc, s)
    ensures Run(other, At(pc, s), n) == Run(step, At(pc, s), n)
    decreases n
  {
    if n > 0 && step(pc, s).At? {
      var next := step(pc, s);
      assert Reaches(step, done + 1, next.pc, next.s);
      RunsAgree(step, other, done + 1, next.pc, next.s, n - 1);
    } else if n > 0 {
      assert other(pc, s) == step(pc, s);
    }
  }

  /** The rewritten program has the same runs, from any start state, with the exits of any round. */
  lemma PropagationPreserves(unit: Unit, p: Program, preds: Preds, rounds: nat, q: Program, s: State, n: nat)
    requires preds == CfgOf(p).pred && Rewritten(p, preds, Rounds(p, preds, rounds), q)
    requires Consistent(p, preds, Rounds(p, preds, rounds))
    ensures Run(Steps(unit, q), At(0, s), n) == Run(Steps(unit, p), At(0, s), n)
  {
    var step, other := Steps(unit, p), Steps(unit, q);
    forall done: nat, pc: nat, t: State | Reaches(step, done, pc, t)
      ensures other(pc, t) == step(pc, t)
    {
      if pc < |p| {
        FactsHoldAt(unit, p, preds, rounds, done, pc, t);
      }
      RewrittenStep(unit, p, preds, Rounds(p, preds, rounds), q, pc, t);
    }
    RunsAgree(step, other, 0, 0, s, n);
  }

  /* ---------- conditions on the program ---------- */

  /** No instruction writes a general-purpose register unseen, and no carry instruction has a constant operand. */
  predicate Trackable(p: Program) {
    forall k | 0 <= k < |p| && p[k].Code? :: !p[k].inst.cc && Unseen(p[k].inst).None?
  }

  lemma TrackableSeen(p: Program, preds: Preds, exits: Exits)
    requires Trackable(p)
    ensures AllSeen(p, preds, exits)
  {
  }

  /** The pass preserves every run of a program in which all writes are seen and nothing jumps to the entry block. */
  lemma EntryFreePreserves(unit: Unit, p: Program, preds: Preds, q: Program, s: State, n: nat)
    requires preds == CfgOf(p).pred && Rewritten(p, preds, FinalExits(p, preds), q)
    requires Trackable(p) && preds[0] == {}
    ensures Run(Steps(unit, q), At(0, s), n) == Run(Steps(unit, p), At(0, s), n)
  {
    TrackableSeen(p, preds, FinalExits(p, preds));
    PropagationPreserves(unit, p, preds, MaxRounds, q, s, n);
  }

  /** The graph as if runs started in a block of their own: nothing enters the entry block. */
  function Detached(preds: Preds): Preds { preds[0 := {}] }

  /**
   A test on the program: when nothing is taken to enter the entry block, the blocks that jump to it share no
   constant.
   */
  ghost predicate EntryClean(p: Program, preds: Preds) { DetachedEntry(p, preds, MaxRounds) == map[] }

  /** The constants shared by the blocks that jump to the entry block, when nothing is taken to enter it. */
  ghost function DetachedEntry(p: Program, preds: Preds, n: nat): Constants {
    EntryFacts(preds, Rounds(p, Detached(preds), n), 0)
  }

  lemma DetachedFacts(preds: Preds, exits: Exits, b: nat)
    requires b != 0 || EntryFacts(preds, exits, 0) == map[]
    ensures EntryFacts(Detached(preds), exits, b) == EntryFacts(preds, exits, b)
  {
    var c, d := EntryFacts(preds, exits, b), EntryFacts(Detached(preds), exits, b);
    if b != 0 {
      assert PredecessorsWithFacts(Detached(preds), exits, b) == PredecessorsWithFacts(preds, exits, b);
      assert Incoming(preds, exits, b, d);
      IncomingUnique(preds, exits, b, c, d);
    } else {
      assert PredecessorsWithFacts(Detached(preds), exits, 0) == {};
    }
  }

  lemma {:induction false} SameRound(v: (Exits, nat) -> Exits, w: (Exits, nat) -> Exits, exits: Exits, k: nat)
    requires forall j: nat | j < k :: v(Round(v, exits, j), j) == w(Round(v, exits, j), j)
    ensures Round(w, exits, k) == Round(v, exits, k)
  {
    if k > 0 {
      SameRound(v, w, exits, k - 1);
    }
  }

  lemma DetachedRound(p: Program, preds: Preds, exits: Exits, k: nat)
    requires EntryFacts(preds, exits, 0) == map[]
    ensures Round(VisitOf(p, Detached(preds)), exits, k) == Round(VisitOf(p, preds), exits, k)
  {
    var v, w := VisitOf(p, preds), VisitOf(p, Detached(preds));
    forall j: nat | j < k
      ensures v(Round(v, exits, j), j) == w(Round(v, exits, j), j)
    {
      DetachedFacts(preds, Round(v, exits, j), j);
    }
    SameRound(v, w, exits, k);
  }

  /** As long as nothing enters the entry block, both iterations do the same. */
  lemma {:induction false} DetachedRounds(p: Program, preds: Preds, n: nat)
    requires forall m: nat | m < n :: EntryFacts(preds, Rounds(p, preds, m), 0) == map[]
    ensures Rounds(p, Detached(preds), n) == Rounds(p, preds, n)
  {
    if n > 0 {
      DetachedRounds(p, preds, n - 1);
      assert EntryFacts(preds, Rounds(p, preds, n - 1), 0) == map[];
      DetachedRound(p, preds, Rounds(p, preds, n - 1), |p|);
    }
  }

  lemma EarlierEntry(p: Program, preds: Preds, via: Preds, m: nat, n: nat)
    requires m <= n && EntryFacts(preds, Rounds(p, via, n), 0) == map[]
    ensures EntryFacts(preds, Rounds(p, via, m), 0) == map[]
  {
    RoundsGrow(p, via, m, 0, n);
    EntryGrows(preds, Rounds(p, via, m), Rounds(p, via, n), 0);
  }

  /** The test tells whether constants enter the entry block in the pass. */
  lemma EntryTest(p: Program, preds: Preds, n: nat)
    ensures EntryFacts(preds, Rounds(p, preds, n), 0) == map[] <==> DetachedEntry(p, preds, n) == map[]
  {
    if EntryFacts(preds, Rounds(p, preds, n), 0) == map[] {
      forall m: nat | m < n
        ensures EntryFacts(preds, Rounds(p, preds, m), 0) == map[]
      {
        EarlierEntry(p, preds, preds, m, n);
      }
      DetachedRounds(p, preds, n);
    }
    if DetachedEntry(p, preds, n) == map[] {
      DetachedClean(p, preds, n);
    }
  }

  lemma {:induction false} DetachedClean(p: Program, preds: Preds, n: nat)
    requires DetachedEntry(p, preds, n) == map[]
    ensures EntryFacts(preds, Rounds(p, preds, n), 0) == map[] && Rounds(p, Detached(preds), n) == Rounds(p, preds, n)
  {
    if n > 0 {
      EarlierEntry(p, preds, Detached(preds), n - 1, n);
      DetachedClean(p, preds, n - 1);
      DetachedRound(p, preds, Rounds(p, preds, n - 1), |p|);
    }
  }

  /** The facts the apply phase uses hold wherever a run can be. */
  ghost predicate FactsTrue(unit: Unit, p: Program, preds: Preds) {
    forall done: nat, pc: nat, s: State | pc < |p| && Reaches(Steps(unit, p), done, pc, s) ::
      Holds(FactsAt(p, preds, FinalExits(p, preds), pc), s.regs)
  }

  lemma SomeStateRefutes(c: Constants)
    requires c != map[]
    ensures exists s: State :: !Holds(c, s.regs)
  {
    var r :| r in c;
    var s := State(map[r := if c[r].value == 0 then 1 else 0], 0, map[], []);
    assert Get(s.regs, r) != c[r].value;
    assert !Holds(c, s.regs);
  }

  /** The facts the pass uses are true in every run exactly when the program passes the test. */
  lemma FactsTrueExactly(unit: Unit, p: Program, preds: Preds)
    requires preds == CfgOf(p).pred && AllSeen(p, preds, FinalExits(p, preds)) && p != []
    ensures FactsTrue(unit, p, preds) <==> EntryClean(p, preds)
  {
    EntryTest(p, preds, MaxRounds);
    var exits := FinalExits(p, preds);
    if FactsTrue(unit, p, preds) {
      var c := FactsAt(p, preds, exits, 0);
      if c != map[] {
        SomeStateRefutes(c);
        var s: State :| !Holds(c, s.regs);
        assert Reaches(Steps(unit, p), 0, 0, s);
      }
    }
    if EntryClean(p, preds) {
      forall done: nat, pc: nat, s: State | pc < |p| && Reaches(Steps(unit, p), done, pc, s)
        ensures Holds(FactsAt(p, preds, exits, pc), s.regs)
      {
        FactsHoldAt(unit, p, preds, MaxRounds, done, pc, s);
      }
    }
  }

  /** A program that passes the test keeps all its runs. */
  lemma CleanPreserves(unit: Unit, p: Program, preds: Preds, q: Program, s: State, n: nat)
    requires preds == CfgOf(p).pred && Rewritten(p, preds, FinalExits(p, preds), q)
    requires AllSeen(p, preds, FinalExits(p, preds)) && EntryClean(p, preds)
    ensures Run(Steps(unit, q), At(0, s), n) == Run(Steps(unit, p), At(0, s), n)
  {
    EntryTest(p, preds, MaxRounds);
    PropagationPreserves(unit, p, preds, MaxRounds, q, s, n);
  }

  /* ---------- a constant that enters the entry block and is used there ---------- */

  /** The instruction writes `r`, if it executes. */
  predicate Writes(i: Instr, r: Reg) {
    (i.base.Pure? || i.base.Fma? || i.base.Setp? || i.base.Ld?) && i.operands != [] && i.operands[0] == RegOp(r)
  }

  /** `r` is not written before item `i`. */
  predicate Untouched(p: Program, i: nat, r: Reg) {
    i <= |p| && forall j | 0 <= j < i && p[j].Code? :: !Writes(p[j].inst, r)
  }

  predicate IsCopy(i: Instr, d: Reg, r: Reg) {
    i.base == Pure(Mov) && !i.cc && i.guard.None? && i.operands == [RegOp(d), RegOp(r)] && !IsPredicate(d)
  }

  lemma {:induction false} StillKnown(p: Program, i: nat, r: Reg, c: Constants)
    requires Untouched(p, i, r) && r in c
    ensures Has(TransferRange(ApplyFlow(p), 0, i, c), r, c[r])
  {
    if i > 0 {
      StillKnown(p, i - 1, r, c);
    }
  }

  /** Through the entry block, a run goes item by item, and `r` keeps its value. */
  lemma {:induction false} EntryPrefix(unit: Unit, p: Program, i: nat, r: Reg, s: State)
    requires i < |p| && BlockOf(p, i) == 0 && Untouched(p, i, r) && Run(Steps(unit, p), At(0, s), i).At?
    ensures
      var o := Run(Steps(unit, p), At(0, s), i);
      o.pc == i && Get(o.s.regs, r) == Get(s.regs, r)
  {
    if i > 0 {
      var step := Steps(unit, p);
      RunAppend(step, At(0, s), i - 1, 1);
      var before := Run(step, At(0, s), i - 1);
      BlockRange(p, i, i - 1);
      EntryPrefix(unit, p, i - 1, r, s);
      RunMore(step, At(0, s), i - 1, i - 1, before.s);
      BlockOfFacts(p, i);
      StepFollowsEdges(unit, p, i - 1, before.s);
      StepKeepsReg(unit, p, i - 1, before.s, r);
    }
  }

  lemma StepKeepsReg(unit: Unit, p: Program, pc: nat, s: State, r: Reg)
    requires pc < |p| && (p[pc].Code? ==> !Writes(p[pc].inst, r)) && Step(unit, p, pc, s).At?
    ensures Get(Step(unit, p, pc, s).s.regs, r) == Get(s.regs, r)
  {
    if p[pc].Code? && !p[pc].inst.base.Ret? && !p[pc].inst.base.Bra? && GuardPasses(p[pc].inst, s) {
      WritesOnlyOne(unit, p[pc].inst, s);
    }
  }

  lemma CopyEffect(unit: Unit, i: Instr, d: Reg, r: Reg, s: State)
    requires IsCopy(i, d, r)
    ensures Effect(unit, i, s) == Some(s.(regs := s.regs[d := Get(s.regs, r)]))
  {
    assert i.operands[1..] == [RegOp(r)];
    assert Values(unit, [RegOp(r)], s.regs) == [Get(s.regs, r)];
  }

  lemma CopyFolded(unit: Unit, i: Instr, d: Reg, r: Reg, c: Constants, s: State)
    requires IsCopy(i, d, r) && r in c && TypeMatches(c[r].ty, i.ty)
    ensures
      var j := Fold(i, c).0;
      !j.base.Ret? && !j.base.Bra? && GuardPasses(j, s) && Effect(unit, j, s) == Some(s.(regs := s.regs[d := c[r].value]))
  {
    assert i.operands[1..] == [RegOp(r)];
    var known, k := ResolveAll([RegOp(r)], i.ty, c), Const(i.ty, c[r].value);
    assert known == [Some(k)];
    assert i.operands[0] == RegOp(d) && Substitute([RegOp(r)], known) == [Literal(k)];
    assert Fold(i, c).0 == i.(operands := [RegOp(d), Literal(k)]);
    MovLiteral(unit, RegOp(d), k, i.ty, s);
    var j := Fold(i, c).0;
    assert j.operands[1..] == [Literal(k)];
    assert Values(unit, [Literal(k)], s.regs) == [k.value];
    PureEffect(unit, j, s);
  }

  /** Item `i` copies a register whose constant enters the entry block and is not written before. */
  ghost predicate UsesEntryConstant(p: Program, preds: Preds, exits: Exits, i: nat, d: Reg, r: Reg) {
    && i < |p| && BlockOf(p, i) == 0 && p[i].Code? && IsCopy(p[i].inst, d, r) && Untouched(p, i, r)
    && r in EntryFacts(preds, exits, 0) && TypeMatches(EntryFacts(preds, exits, 0)[r].ty, p[i].inst.ty)
  }

  lemma RunsPart(step: Stepper, other: Stepper, s: State, i: nat)
    requires Run(step, At(0, s), i).At?
    requires var o := Run(step, At(0, s), i); step(o.pc, o.s) != other(o.pc, o.s)
    ensures exists n: nat :: n <= i + 1 && Run(other, At(0, s), n) != Run(step, At(0, s), n)
  {
    var o := Run(step, At(0, s), i);
    if Run(other, At(0, s), i) == o {
      RunMore(step, At(0, s), i, o.pc, o.s);
      RunMore(other, At(0, s), i, o.pc, o.s);
      assert Run(other, At(0, s), i + 1) != Run(step, At(0, s), i + 1);
    } else {
      assert i <= i + 1;
    }
  }

  lemma CopyStepDiffers(unit: Unit, p: Program, preds: Preds, exits: Exits, q: Program, i: nat, d: Reg, r: Reg,
                        s: State)
    requires Rewritten(p, preds, exits, q) && UsesEntryConstant(p, preds, exits, i, d, r)
    requires Get(s.regs, r) != EntryFacts(preds, exits, 0)[r].value
    ensures Step(unit, p, i, s) != Step(unit, q, i, s)
  {
    var c := FactsAt(p, preds, exits, i);
    StillKnown(p, i, r, EntryFacts(preds, exits, 0));
    assert RewritesTo(p, preds, exits, i, q[i]);
    CopyEffect(unit, p[i].inst, d, r, s);
    CopyFolded(unit, p[i].inst, d, r, c, s);
    assert s.regs[d := Get(s.regs, r)][d] != s.regs[d := c[r].value][d];
  }

  /** Once such a constant is used, every run that starts with another value and gets there is changed. */
  lemma EntryUseChangesRun(unit: Unit, p: Program, preds: Preds, exits: Exits, q: Program, i: nat, d: Reg, r: Reg,
                           s: State)
    requires Rewritten(p, preds, exits, q) && UsesEntryConstant(p, preds, exits, i, d, r)
    requires Run(Steps(unit, p), At(0, s), i).At? && Get(s.regs, r) != EntryFacts(preds, exits, 0)[r].value
    ensures exists n: nat :: n <= i + 1 && Run(Steps(unit, q), At(0, s), n) != Run(Steps(unit, p), At(0, s), n)
  {
    EntryPrefix(unit, p, i, r, s);
    CopyStepDiffers(unit, p, preds, exits, q, i, d, r, Run(Steps(unit, p), At(0, s), i).s);
    RunsPart(Steps(unit, p), Steps(unit, q), s, i);
  }
}
