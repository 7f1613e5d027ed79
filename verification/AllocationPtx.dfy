/** The PTX machine as an instance of the virtual-register machine, so that allocation preserves its runs. */
module AllocationPtx {
  import opened Isa
  import opened Ptx
  import opened Cfg
  import opened Agreement
  import opened Liveness
  import opened LoopRanges
  import opened LinearScan
  import opened LinearScanFacts
  import opened AllocationMeaning
  import opened RegisterAllocation

  /** Everything but the general-purpose registers; `stuck` is set when a run has failed. */
  datatype World = World(state: State, stuck: bool)

  predicate OnlyPredicates(w: State) { forall r | r in w.regs :: IsPredicate(r) }

  function Predicates(s: State): State {
    s.(regs := map r | r in s.regs && IsPredicate(r) :: s.regs[r])
  }

  /** The state an instruction sees: its operands and the predicates. */
  function Seen(args: map<Reg, Content>, w: State): State {
    w.(regs := map r | r in w.regs.Keys + args.Keys :: if r in args then args[r].lo else w.regs[r])
  }

  /** What each item of the program does. */
  function SemanticsOf(unit: Unit, p: Program): Semantics<World> {
    (pc: nat, args: map<Reg, Content>, w: World) => ItemResult(unit, p, pc, args, w)
  }

  function ItemResult(unit: Unit, p: Program, pc: nat, args: map<Reg, Content>, w: World): Result<World> {
    match Step(unit, p, pc, Seen(args, w.state))
    case Stop(_) => Halt(w)
    case Stuck => Halt(w.(stuck := true))
    case At(next, s) => Continue(ResultValue(p, pc, Seen(args, w.state), s), World(Predicates(s), false), next)
  }

  /** The word written to a general-purpose register, if the guard passed. */
  function ResultValue(p: Program, pc: nat, before: State, after: State): Option<Content> {
    var d := GprDefinition(p, pc);
    if d.Some? && GuardPasses(p[pc].inst, before) then Some(Content(Get(after.regs, d.value), 0)) else None
  }

  /* ---------- one step ---------- */

  /** The virtual registers and the world hold what the state holds. */
  ghost predicate Holds(regs: Virtual, w: World, s: State) {
    && !w.stuck && OnlyPredicates(w.state)
    && w.state.carry == s.carry && w.state.mem == s.mem && w.state.trace == s.trace
    && forall r: Reg :: Get(s.regs, r) == if IsPredicate(r) then Get(w.state.regs, r) else ReadVirtual(regs, r).lo
  }

  /** Comparisons write predicates. */
  predicate ComparesToPredicates(p: Program) {
    forall k | 0 <= k < |p| && p[k].Code? && p[k].inst.base.Setp? :: PredicateDestination(p[k].inst)
  }

  predicate PredicateDestination(i: Instr) {
    i.operands != [] && i.operands[0].RegOp? ==> IsPredicate(i.operands[0].reg)
  }

  predicate Matters(p: Program, pc: nat, r: Reg) { IsPredicate(r) || r in GprUses(p, pc) }

  lemma SeenAgrees(p: Program, pc: nat, regs: Virtual, w: World, s: State)
    requires Holds(regs, w, s)
    ensures SameOn(r => Matters(p, pc, r), Seen(Arguments(regs, GprUses(p, pc)), w.state), s)
  {
  }

  lemma {:induction false} OperandsMatter(unit: Unit, p: Program, pc: nat, s: State, t: State)
    requires pc < |p| && p[pc].Code? && SameOn(r => Matters(p, pc, r), s, t)
    ensures
      var i := p[pc].inst;
      && GuardPasses(i, s) == GuardPasses(i, t)
      && (i.operands != [] && !i.base.Bra? && !i.base.Ret? ==>
            Values(unit, i.operands[1..], s.regs) == Values(unit, i.operands[1..], t.regs))
      && (i.operands != [] && i.base.St? ==> Value(unit, i.operands[0], s.regs) == Value(unit, i.operands[0], t.regs))
  {
    var i := p[pc].inst;
    assert forall r | r in UsedBy(i) :: Matters(p, pc, r);
    if i.operands != [] {
      assert AllRegs(i.operands) == OperandRegs(i.operands[0]) + AllRegs(i.operands[1..]);
      SameOperands(unit, i.operands[1..], s.regs, t.regs);
    }
  }

  lemma OthersKept(unit: Unit, i: Instr, s: State)
    requires Effect(unit, i, s).Some?
    ensures forall r: Reg | DefinedBy(i) != Some(r) && !(i.base.Setp? && i.operands != [] && i.operands[0] == RegOp(r)) ::
              Get(Effect(unit, i, s).value.regs, r) == Get(s.regs, r)
  {
  }

  lemma WrittenSame(unit: Unit, i: Instr, s: State, t: State)
    requires s.carry == t.carry && s.mem == t.mem && i.operands != [] && DefinedBy(i).Some?
    requires Values(unit, i.operands[1..], s.regs) == Values(unit, i.operands[1..], t.regs)
    requires Effect(unit, i, s).Some? && Effect(unit, i, t).Some?
    ensures Get(Effect(unit, i, s).value.regs, DefinedBy(i).value) == Get(Effect(unit, i, t).value.regs, DefinedBy(i).value)
  {
  }

  /** What one step leaves in the state and in the world. */
  ghost predicate SameStep(p: Program, pc: nat, c: State, s: State, oc: Outcome, os: Outcome) {
    match os
    case Stop(_) => oc.Stop?
    case Stuck => oc.Stuck?
    case At(next, after) =>
      && oc.At? && oc.pc == next && SameOn(r => Matters(p, pc, r), oc.s, after)
      && (forall r: Reg | !IsPredicate(r) && GprDefinition(p, pc) != Some(r) :: Get(after.regs, r) == Get(s.regs, r))
      && (GprDefinition(p, pc).Some? && GuardPasses(p[pc].inst, c) ==>
            Get(oc.s.regs, GprDefinition(p, pc).value) == Get(after.regs, GprDefinition(p, pc).value))
      && (GprDefinition(p, pc).Some? && !GuardPasses(p[pc].inst, c) ==> after == s)
  }

  lemma StepSame(unit: Unit, p: Program, pc: nat, c: State, s: State)
    requires ComparesToPredicates(p) && SameOn(r => Matters(p, pc, r), c, s)
    ensures SameStep(p, pc, c, s, Step(unit, p, pc, c), Step(unit, p, pc, s))
  {
    if pc < |p| && p[pc].Code? {
      var i := p[pc].inst;
      OperandsMatter(unit, p, pc, c, s);
      assert i.base.Setp? ==> PredicateDestination(i);
      if !i.base.Ret? && !i.base.Bra? && GuardPasses(i, c) {
        OperandsDecide(unit, r => Matters(p, pc, r), i, c, s);
        if Effect(unit, i, s).Some? {
          OthersKept(unit, i, s);
          if DefinedBy(i).Some? {
            WrittenSame(unit, i, c, s);
          }
        }
      }
    }
  }

  /** The virtual machine is where the PTX machine is. */
  ghost predicate Follows(o: Outcome, v: Machine<Virtual, World>) {
    match o
    case At(pc, s) => v.Running? && v.pc == pc && Holds(v.regs, v.world, s)
    case Stop(s) => v.Halted? && !v.final.stuck && v.final.state.mem == s.mem && v.final.state.trace == s.trace
    case Stuck => v.Halted? && v.final.stuck
  }

  lemma StepFollows(unit: Unit, p: Program, pc: nat, regs: Virtual, w: World, s: State)
    requires ComparesToPredicates(p) && Holds(regs, w, s)
    ensures Follows(Step(unit, p, pc, s), VirtualStep(p, SemanticsOf(unit, p), pc, regs, w))
  {
    var c := Seen(Arguments(regs, GprUses(p, pc)), w.state);
    SeenAgrees(p, pc, regs, w, s);
    StepSame(unit, p, pc, c, s);
    var o, oc := Step(unit, p, pc, s), Step(unit, p, pc, c);
    if o.At? {
      StepHolds(p, pc, regs, w, c, s, oc, o);
    } else if o.Stop? {
      assert o.final == s;
    }
  }

  /** What the virtual machine keeps of a step is what the state holds after it. */
  lemma StepHolds(p: Program, pc: nat, regs: Virtual, w: World, c: State, s: State, oc: Outcome, o: Outcome)
    requires Holds(regs, w, s) && o.At? && SameStep(p, pc, c, s, oc, o)
    ensures
      var d, value := GprDefinition(p, pc), ResultValue(p, pc, c, oc.s);
      Holds(if d.Some? && value.Some? then WriteVirtual(regs, d.value, value.value) else regs,
            World(Predicates(oc.s), false), o.s)
  {
    forall r: Reg | IsPredicate(r)
      ensures Get(o.s.regs, r) == Get(Predicates(oc.s).regs, r)
    {
      assert Matters(p, pc, r);
    }
  }

  lemma {:induction false} RunFollows(unit: Unit, p: Program, o: Outcome, v: Machine<Virtual, World>, n: nat)
    requires ComparesToPredicates(p) && Follows(o, v)
    ensures Follows(Run(Steps(unit, p), o, n), VirtualRun(p, SemanticsOf(unit, p), v, n))
    decreases n
  {
    if n > 0 && o.At? {
      StepFollows(unit, p, o.pc, v.regs, v.world, o.s);
      RunFollows(unit, p, Step(unit, p, o.pc, o.s), VirtualStep(p, SemanticsOf(unit, p), v.pc, v.regs, v.world), n - 1);
    }
  }

  /* ---------- allocation on the PTX machine ---------- */

  /** The first definition of every register, in the text, has no guard. */
  ghost predicate FirstUnguarded(p: Program) {
    forall pc: nat | GprDefinition(p, pc).Some? && !DefinedBefore(p, GprDefinition(p, pc).value, pc) ::
      p[pc].inst.guard.None?
  }

  lemma RespectsPtx(unit: Unit, p: Program)
    requires FirstUnguarded(p)
    ensures Respects(p, SemanticsOf(unit, p))
  {
    var sem := SemanticsOf(unit, p);
    forall pc: nat, args: map<Reg, Content>, w: World
      ensures
        var o := sem(pc, args, w);
        o.Continue? ==>
          && (o.next == pc + 1 || BranchesTo(p, pc, o.next))
          && (GprDefinition(p, pc).Some? && !DefinedBefore(p, GprDefinition(p, pc).value, pc) ==> o.value.Some?)
    {
    }
  }

  /** The mapped machine is where the PTX machine is. */
  ghost predicate Mirrors(o: Outcome, f: Machine<Physical, World>) {
    match o
    case At(pc, s) =>
      f.Running? && f.pc == pc && f.world.state.mem == s.mem && f.world.state.trace == s.trace
    case Stop(s) => f.Halted? && !f.final.stuck && f.final.state.mem == s.mem && f.final.state.trace == s.trace
    case Stuck => f.Halted? && f.final.stuck
  }

  /**
   At every step of every run, the program on the registers of the mapping is at the same item with the same
   memory, loads, stores, branches and predicates as the PTX program.
   */
  lemma AllocationMirrors(unit: Unit, p: Program, mapping: Mapping, jobs: seq<Job>, range: Option<(nat, nat)>,
                          iv: Intervals,
                          s: State, regs: Virtual, w: World, phys: Physical, n: nat)
    requires Allocated(p, mapping, jobs, range, iv) && Cfg.WellFormed(p) && ComparesToPredicates(p) && FirstUnguarded(p)
    requires DefinedFirst(p) && Reducible(p) && ForwardSafe(p, RangeWithLabels(p, range))
    requires LoopsCovered(p, range) && PressureBounded(jobs)
    requires Holds(regs, w, s)
    ensures Mirrors(Run(Steps(unit, p), At(0, s), n), PhysicalRun(p, SemanticsOf(unit, p), mapping, Running(0, phys, w), n))
  {
    RespectsPtx(unit, p);
    RunFollows(unit, p, At(0, s), Running(0, regs, w), n);
    AllocationPreserves(p, SemanticsOf(unit, p), mapping, jobs, range, iv, regs, phys, w, n);
  }
}
