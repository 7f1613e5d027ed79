/**
 Running a program on mapped physical registers simulates the run on virtual registers, across back edges,
 whatever its instructions compute.
 */
module AllocationMeaning {
  import opened Isa
  import opened Ptx
  import opened Cfg
  import opened Liveness
  import opened LinearScan
  import opened LinearScanFacts

  /* ---------- virtual and physical machines ---------- */

  /** The content of a register; `hi` is 0 unless the register is a pair. */
  datatype Content = Content(lo: Word, hi: Word)

  datatype Result<W> = Continue(value: Option<Content>, world: W, next: nat) | Halt(final: W)

  /** What each item computes from its operands and the rest of the machine: memory, predicates, the trace. */
  type Semantics<!W> = (nat, map<Reg, Content>, W) -> Result<W>

  /** The general-purpose registers an item reads. */
  function GprUses(p: Program, pc: nat): set<Reg> {
    if pc < |p| && p[pc].Code? then set r | r in UsedBy(p[pc].inst) && !IsPredicate(r) else {}
  }

  function GprDefinition(p: Program, pc: nat): Option<Reg> {
    if pc < |p| && p[pc].Code? && DefinedBy(p[pc].inst).Some? && !IsPredicate(DefinedBy(p[pc].inst).value)
    then DefinedBy(p[pc].inst)
    else None
  }

  function Fit(r: Reg, v: Content): Content { if IsPairName(r) then v else Content(v.lo, 0) }

  type Virtual = map<Reg, Content>
  type Physical = map<nat, Word>

  function ReadVirtual(regs: Virtual, r: Reg): Content { if r in regs then regs[r] else Content(0, 0) }

  function WriteVirtual(regs: Virtual, r: Reg, v: Content): Virtual { regs[r := Fit(r, v)] }

  function Place(m: Mapping, r: Reg): nat { if r in m then m[r] else 0 }

  function ReadPhysical(regs: Physical, m: Mapping, r: Reg): Content {
    Content(Get(regs, Place(m, r)), if IsPairName(r) then Get(regs, Place(m, r) + 1) else 0)
  }

  function WritePhysical(regs: Physical, m: Mapping, r: Reg, v: Content): Physical {
    if IsPairName(r) then regs[Place(m, r) := v.lo][Place(m, r) + 1 := v.hi] else regs[Place(m, r) := v.lo]
  }

  datatype Machine<R, W> = Running(pc: nat, regs: R, world: W) | Halted(final: W)

  function Arguments(regs: Virtual, uses: set<Reg>): map<Reg, Content> {
    map r | r in uses :: ReadVirtual(regs, r)
  }

  function MappedArguments(regs: Physical, m: Mapping, uses: set<Reg>): map<Reg, Content> {
    map r | r in uses :: ReadPhysical(regs, m, r)
  }

  function VirtualStep<W(!new)>(p: Program, sem: Semantics<W>, pc: nat, regs: Virtual, w: W): Machine<Virtual, W> {
    match sem(pc, Arguments(regs, GprUses(p, pc)), w)
    case Halt(final) => Halted(final)
    case Continue(value, world, next) =>
      var d := GprDefinition(p, pc);
      Running(next, if d.Some? && value.Some? then WriteVirtual(regs, d.value, value.value) else regs, world)
  }

  function PhysicalStep<W(!new)>(p: Program, sem: Semantics<W>, m: Mapping, pc: nat, regs: Physical, w: W):
    Machine<Physical, W>
  {
    match sem(pc, MappedArguments(regs, m, GprUses(p, pc)), w)
    case Halt(final) => Halted(final)
    case Continue(value, world, next) =>
      var d := GprDefinition(p, pc);
      Running(next, if d.Some? && value.Some? then WritePhysical(regs, m, d.value, value.value) else regs, world)
  }

  function VirtualRun<W(!new)>(p: Program, sem: Semantics<W>, s: Machine<Virtual, W>, n: nat): Machine<Virtual, W>
    decreases n
  {
    if n == 0 || s.Halted? then s else VirtualRun(p, sem, VirtualStep(p, sem, s.pc, s.regs, s.world), n - 1)
  }

  function PhysicalRun<W(!new)>(p: Program, sem: Semantics<W>, m: Mapping, s: Machine<Physical, W>, n: nat):
    Machine<Physical, W>
    decreases n
  {
    if n == 0 || s.Halted? then s else PhysicalRun(p, sem, m, PhysicalStep(p, sem, m, s.pc, s.regs, s.world), n - 1)
  }

  /* ---------- when a register matters ---------- */

  /** The items from the first to the last of all loops; empty when `lo > hi`. */
  datatype LoopRange = LoopRange(lo: nat, hi: nat)

  predicate InRange(l: LoopRange, k: nat) { l.lo <= k <= l.hi }

  ghost predicate DefinedBefore(p: Program, r: Reg, pc: nat) {
    exists d: nat :: d < pc && Occurs(p, Definition, d, r)
  }

  /** A use that control can still reach from `pc`: a later one, or one in the same loops. */
  predicate StillUsed(p: Program, l: LoopRange, r: Reg, pc: nat, u: nat) {
    Occurs(p, Use, u, r) && (pc <= u || (InRange(l, pc) && InRange(l, u)))
  }

  ghost predicate Needed(p: Program, l: LoopRange, r: Reg, pc: nat) {
    !IsPredicate(r) && DefinedBefore(p, r, pc) && exists u: nat :: StillUsed(p, l, r, pc, u)
  }

  type Intervals = map<Reg, Interval>

  /** Intervals span all definitions and uses, and reach the end of the loops when used inside them. */
  ghost predicate Protects(p: Program, l: LoopRange, iv: Intervals) {
    forall r: Reg, d: nat | Occurs(p, Definition, d, r) && !IsPredicate(r) ::
      r in iv && iv[r].first <= d <= iv[r].last && Reach(p, l, r, iv[r])
  }

  ghost predicate Reach(p: Program, l: LoopRange, r: Reg, iv: Interval) {
    forall u: nat | Occurs(p, Use, u, r) && iv.first <= u :: u <= iv.last && (InRange(l, u) ==> l.hi <= iv.last)
  }

  /** Registers with overlapping intervals are mapped apart. */
  predicate Colours(iv: Intervals, m: Mapping) {
    forall r, q | r in iv && q in iv && r != q && Overlap(iv[r], iv[q]) :: Apart(m, r, q)
  }

  predicate Apart(m: Mapping, r: Reg, q: Reg) { PhysOf(r, Place(m, r)) !! PhysOf(q, Place(m, q)) }

  /* ---------- what the program must satisfy ---------- */

  predicate BranchesTo(p: Program, pc: nat, next: nat) {
    IsBra(p, pc) && Target(p, p[pc].inst) == Some(next)
  }

  /** Every use comes after some definition in the text. */
  ghost predicate DefinedFirst(p: Program) {
    forall r: Reg, u: nat | Occurs(p, Use, u, r) && !IsPredicate(r) :: DefinedBefore(p, r, u)
  }

  /** Branches back stay within the loops. */
  ghost predicate BackwardInside(p: Program, l: LoopRange) {
    forall pc: nat, next: nat | BranchesTo(p, pc, next) && next <= pc :: InRange(l, next) && InRange(l, pc)
  }

  /** No branch forward skips the first definition of a register that is needed at its target. */
  ghost predicate ForwardSafe(p: Program, l: LoopRange) {
    forall pc: nat, next: nat, r: Reg | BranchesTo(p, pc, next) && pc < next && Needed(p, l, r, next) ::
      DefinedBefore(p, r, pc)
  }

  ghost predicate Structured(p: Program, l: LoopRange) {
    DefinedFirst(p) && BackwardInside(p, l) && ForwardSafe(p, l)
  }

  /** Control goes to the next item or a branch's target, and first definitions are unconditional. */
  ghost predicate Respects<W(!new)>(p: Program, sem: Semantics<W>) {
    forall pc: nat, args: map<Reg, Content>, w: W {:trigger sem(pc, args, w)} ::
      var o := sem(pc, args, w);
      o.Continue? ==>
        && (o.next == pc + 1 || BranchesTo(p, pc, o.next))
        && (GprDefinition(p, pc).Some? && !DefinedBefore(p, GprDefinition(p, pc).value, pc) ==> o.value.Some?)
  }

  /* ---------- simulation ---------- */

  ghost predicate Agree(p: Program, l: LoopRange, m: Mapping, pc: nat, regs: Virtual, phys: Physical) {
    forall r: Reg | Needed(p, l, r, pc) :: ReadPhysical(phys, m, r) == ReadVirtual(regs, r)
  }

  lemma NeededInInterval(p: Program, l: LoopRange, iv: Intervals, r: Reg, pc: nat)
    requires DefinedFirst(p) && Protects(p, l, iv) && Needed(p, l, r, pc)
    ensures r in iv && iv[r].first < pc <= iv[r].last
  {
    var d: nat :| d < pc && Occurs(p, Definition, d, r);
    var u: nat :| StillUsed(p, l, r, pc, u);
    var e: nat :| e < u && Occurs(p, Definition, e, r);
    assert Reach(p, l, r, iv[r]);
  }

  lemma OperandsNeeded(p: Program, l: LoopRange, r: Reg, pc: nat)
    requires DefinedFirst(p) && r in GprUses(p, pc)
    ensures Needed(p, l, r, pc)
  {
    assert Occurs(p, Use, pc, r);
    assert StillUsed(p, l, r, pc, pc);
  }

  /** What matters after a step mattered before it, or is now defined for the first time. */
  lemma NeededEarlier(p: Program, l: LoopRange, r: Reg, pc: nat, next: nat)
    requires Structured(p, l) && Needed(p, l, r, next) && (next == pc + 1 || BranchesTo(p, pc, next))
    ensures Needed(p, l, r, pc) || (!DefinedBefore(p, r, pc) && GprDefinition(p, pc) == Some(r))
  {
    var d: nat :| d < next && Occurs(p, Definition, d, r);
    var u: nat :| StillUsed(p, l, r, next, u);
    assert StillUsed(p, l, r, pc, u);
    if next == pc + 1 {
      assert d == pc || DefinedBefore(p, r, pc);
    }
  }

  lemma WriteReadBack(m: Mapping, phys: Physical, q: Reg, v: Content)
    ensures ReadPhysical(WritePhysical(phys, m, q, v), m, q) == Fit(q, v)
  {
  }

  lemma WriteApart(m: Mapping, phys: Physical, q: Reg, v: Content, r: Reg)
    requires Apart(m, r, q)
    ensures ReadPhysical(WritePhysical(phys, m, q, v), m, r) == ReadPhysical(phys, m, r)
  {
    assert Place(m, r) in PhysOf(r, Place(m, r));
    assert IsPairName(r) ==> Place(m, r) + 1 in PhysOf(r, Place(m, r));
    assert Place(m, q) in PhysOf(q, Place(m, q));
    assert IsPairName(q) ==> Place(m, q) + 1 in PhysOf(q, Place(m, q));
  }

  /** A defined register is apart from every other register that matters next. */
  lemma DefinitionApart(p: Program, l: LoopRange, iv: Intervals, m: Mapping, pc: nat, q: Reg, r: Reg)
    requires DefinedFirst(p) && Protects(p, l, iv) && Colours(iv, m)
    requires GprDefinition(p, pc) == Some(q) && r != q && Needed(p, l, r, pc)
    ensures Apart(m, r, q)
  {
    NeededInInterval(p, l, iv, r, pc);
    assert Occurs(p, Definition, pc, q);
    assert Overlap(iv[r], iv[q]);
  }

  lemma AgreeAfter(p: Program, l: LoopRange, iv: Intervals, m: Mapping, pc: nat, next: nat,
                   regs: Virtual, phys: Physical, value: Option<Content>)
    requires Structured(p, l) && Protects(p, l, iv) && Colours(iv, m) && Agree(p, l, m, pc, regs, phys)
    requires next == pc + 1 || BranchesTo(p, pc, next)
    requires GprDefinition(p, pc).Some? && !DefinedBefore(p, GprDefinition(p, pc).value, pc) ==> value.Some?
    ensures
      var d := GprDefinition(p, pc);
      if d.Some? && value.Some? then
        Agree(p, l, m, next, WriteVirtual(regs, d.value, value.value), WritePhysical(phys, m, d.value, value.value))
      else Agree(p, l, m, next, regs, phys)
  {
    var d := GprDefinition(p, pc);
    forall r: Reg | Needed(p, l, r, next)
      ensures Needed(p, l, r, pc) || (d == Some(r) && value.Some?)
      ensures d.Some? && value.Some? ==>
                ReadPhysical(WritePhysical(phys, m, d.value, value.value), m, r)
                == ReadVirtual(WriteVirtual(regs, d.value, value.value), r)
    {
      NeededEarlier(p, l, r, pc, next);
      if d.Some? && value.Some? {
        if r == d.value {
          WriteReadBack(m, phys, r, value.value);
        } else {
          DefinitionApart(p, l, iv, m, pc, d.value, r);
          WriteApart(m, phys, d.value, value.value, r);
        }
      }
    }
  }

  /** The machines are at the same item with the same world, and agree on every register that matters. */
  ghost predicate Simulates<W(!new)>(p: Program, l: LoopRange, m: Mapping, v: Machine<Virtual, W>,
                                     f: Machine<Physical, W>) {
    match v
    case Halted(final) => f == Halted(final)
    case Running(pc, regs, world) =>
      f.Running? && f.pc == pc && f.world == world && Agree(p, l, m, pc, regs, f.regs)
  }

  lemma SameArguments(p: Program, l: LoopRange, m: Mapping, pc: nat, regs: Virtual, phys: Physical)
    requires DefinedFirst(p) && Agree(p, l, m, pc, regs, phys)
    ensures Arguments(regs, GprUses(p, pc)) == MappedArguments(phys, m, GprUses(p, pc))
  {
    forall r | r in GprUses(p, pc)
      ensures ReadPhysical(phys, m, r) == ReadVirtual(regs, r)
    {
      OperandsNeeded(p, l, r, pc);
    }
  }

  lemma StepSimulates<W(!new)>(p: Program, sem: Semantics<W>, l: LoopRange, iv: Intervals, m: Mapping, pc: nat,
                         regs: Virtual, phys: Physical, w: W)
    requires Structured(p, l) && Respects(p, sem) && Protects(p, l, iv) && Colours(iv, m)
    requires Agree(p, l, m, pc, regs, phys)
    ensures Simulates(p, l, m, VirtualStep(p, sem, pc, regs, w), PhysicalStep(p, sem, m, pc, phys, w))
  {
    SameArguments(p, l, m, pc, regs, phys);
    var o := sem(pc, Arguments(regs, GprUses(p, pc)), w);
    if o.Continue? {
      AgreeAfter(p, l, iv, m, pc, o.next, regs, phys, o.value);
    }
  }

  lemma {:induction false} RunSimulates<W(!new)>(p: Program, sem: Semantics<W>, l: LoopRange, iv: Intervals, m: Mapping,
                                           v: Machine<Virtual, W>, f: Machine<Physical, W>, n: nat)
    requires Structured(p, l) && Respects(p, sem) && Protects(p, l, iv) && Colours(iv, m)
    requires Simulates(p, l, m, v, f)
    ensures Simulates(p, l, m, VirtualRun(p, sem, v, n), PhysicalRun(p, sem, m, f, n))
    decreases n
  {
    if n > 0 && v.Running? {
      StepSimulates(p, sem, l, iv, m, v.pc, v.regs, f.regs, v.world);
      RunSimulates(p, sem, l, iv, m, VirtualStep(p, sem, v.pc, v.regs, v.world),
                   PhysicalStep(p, sem, m, f.pc, f.regs, f.world), n - 1);
    }
  }

  /** From the entry, whatever the registers hold, the mapped run does what the virtual run does. */
  lemma MappedRunSimulates<W(!new)>(p: Program, sem: Semantics<W>, l: LoopRange, iv: Intervals, m: Mapping,
                              regs: Virtual, phys: Physical, w: W, n: nat)
    requires Structured(p, l) && Respects(p, sem) && Protects(p, l, iv) && Colours(iv, m)
    ensures Simulates(p, l, m, VirtualRun(p, sem, Running(0, regs, w), n), PhysicalRun(p, sem, m, Running(0, phys, w), n))
  {
    assert Agree(p, l, m, 0, regs, phys);
    RunSimulates(p, sem, l, iv, m, Running(0, regs, w), Running(0, phys, w), n);
  }
}
