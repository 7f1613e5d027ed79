/**
 The source language: PTX items with virtual registers, and a machine for them. Integer operations are
 arithmetic modulo 2^32 on the low word, as the lowering computes them; single-precision operations,
 conversions and comparisons are the fields of a parameter.
 */
module Ptx {
  import opened Isa
  import M = Machine

  /** Register classes, by the prefix of the name. */
  datatype RegClass = PClass | RClass | SClass | BClass | FClass | HClass | RdClass | BdClass

  datatype Reg = Reg(cls: RegClass, id: nat)

  predicate IsPredicate(r: Reg) { r.cls.PClass? }

  /** `_predicate_number`: the error is `None`. */
  function PredicateNumber(r: Reg): Option<nat> { if r.cls.PClass? && r.id < 8 then Some(r.id) else None }

  /** 64-bit registers, which occupy two physical registers. */
  predicate IsPairName(r: Reg) { r.cls.RdClass? || r.cls.BdClass? }

  datatype Ty = U32 | S32 | B32 | F32 | PredTy | OtherTy(code: nat)

  /** The operations whose only effect is the result they write. */
  datatype PureOp = Add | Sub | Mul | Mad | And | Or | Xor | Shl | Shr | Mov | Cvt

  datatype Base =
    | Pure(op: PureOp)
    | Fma | Setp
    | Ld | St
    | Bra | Ret
    | Unsupported(code: nat)

  /** `Sym` is anything else an operand can name: a label, a kernel parameter, a special register. */
  datatype Operand = RegOp(reg: Reg) | Imm(value: int) | FloatImm(bits: int) | Addr(reg: Reg) | Sym(name: nat)

  /** `mods` identifies the part of the opcode between base and type; `cc` is the carry modifier. */
  datatype Instr = Instr(
    base: Base,
    mods: nat,
    cc: bool,
    ty: Ty,
    operands: seq<Operand>,
    guard: Option<Reg>,
    negated: bool)

  datatype Item = Label(name: nat) | Code(inst: Instr)

  type Program = seq<Item>

  /* ---------- facts the passes rest on ---------- */

  /** `_destination_register` */
  function Destination(i: Instr): Option<Reg> {
    if i.operands != [] && (i.base.Pure? || i.base.Ld? || i.base.Setp?) && i.operands[0].RegOp?
    then Some(i.operands[0].reg)
    else None
  }

  function OperandRegs(o: Operand): set<Reg> {
    if o.RegOp? || o.Addr? then {o.reg} else {}
  }

  function AllRegs(operands: seq<Operand>): set<Reg> {
    if operands == [] then {} else OperandRegs(operands[0]) + AllRegs(operands[1..])
  }

  /** `_instruction_read_registers` */
  function ReadRegs(i: Instr): set<Reg> {
    (if i.guard.Some? then {i.guard.value} else {})
    + AllRegs(if (i.base.Pure? || i.base.Ld? || i.base.Setp?) && i.operands != [] then i.operands[1..] else i.operands)
  }

  /** `_is_side_effecting` */
  predicate SideEffecting(i: Instr) {
    || i.guard.Some?
    || i.cc
    || !i.base.Pure?
    || i.ty.PredTy?
    || (Destination(i).Some? && IsPredicate(Destination(i).value))
  }

  lemma {:induction false} RegsOf(operands: seq<Operand>, k: nat)
    requires k < |operands|
    ensures OperandRegs(operands[k]) <= AllRegs(operands)
  {
    if k > 0 {
      RegsOf(operands[1..], k - 1);
    }
  }

  /** The registers and the registers of addresses among the operands. */
  lemma {:induction false} AllRegsExactly(operands: seq<Operand>, r: Reg)
    ensures r in AllRegs(operands) <==>
              exists k :: 0 <= k < |operands| && (operands[k] == RegOp(r) || operands[k] == Addr(r))
  {
    if operands != [] {
      AllRegsExactly(operands[1..], r);
      if k :| 0 <= k < |operands| && (operands[k] == RegOp(r) || operands[k] == Addr(r)) {
        assert k > 0 ==> operands[1..][k - 1] == operands[k];
      }
      if k :| 0 <= k < |operands[1..]| && (operands[1..][k] == RegOp(r) || operands[1..][k] == Addr(r)) {
        assert operands[k + 1] == operands[1..][k];
      }
    }
  }

  /* ---------- the machine ---------- */

  type Memory = map<Word, Word>

  datatype Event = LoadEvent(address: Word) | StoreEvent(address: Word, data: Word)
                 | BranchEvent(taken: bool) | PredicateEvent(p: Reg, value: bool)

  datatype Unit = Unit(
    pure: (PureOp, nat, Ty, seq<Word>) -> Word,
    carry: (PureOp, nat, Ty, seq<Word>, Word) -> (Word, Word),
    fma: (nat, Ty, seq<Word>) -> Word,
    setp: (nat, Ty, seq<Word>) -> bool,
    param: (nat, Ty, Word) -> Word,
    symbol: nat -> Word)

  datatype State = State(regs: map<Reg, Word>, carry: Word, mem: Memory, trace: seq<Event>)

  function Get<K>(m: map<K, Word>, k: K): Word {
    if k in m then m[k] else 0
  }

  function Value(unit: Unit, o: Operand, regs: map<Reg, Word>): Word {
    match o
    case RegOp(r) => Get(regs, r)
    case Addr(r) => Get(regs, r)
    case Imm(v) => M.Wrap(v)
    case FloatImm(bits) => M.Wrap(bits)
    case Sym(name) => unit.symbol(name)
  }

  function Values(unit: Unit, operands: seq<Operand>, regs: map<Reg, Word>): (v: seq<Word>)
    ensures |v| == |operands|
    ensures forall k | 0 <= k < |v| :: v[k] == Value(unit, operands[k], regs)
  {
    seq(|operands|, k requires 0 <= k < |operands| => Value(unit, operands[k], regs))
  }

  predicate IsInt32(t: Ty) { t.U32? || t.S32? || t.B32? }

  function Arithmetic(unit: Unit, op: PureOp, mods: nat, t: Ty, v: seq<Word>, result: int): Word {
    if t.F32? then unit.pure(op, mods, t, v) else M.Wrap(result)
  }

  /** The result of a pure operation without carry. */
  function PureResult(unit: Unit, op: PureOp, mods: nat, t: Ty, v: seq<Word>): Word {
    if op.Mov? && |v| == 1 then v[0]
    else if op.Mad? && |v| == 3 then
      var a: int, b: int, c: int := v[0], v[1], v[2];
      Arithmetic(unit, op, mods, t, v, a * b + c)
    else if |v| == 2 then
      var a: int, b: int := v[0], v[1];
      match op
      case Add => Arithmetic(unit, op, mods, t, v, a + b)
      case Sub => Arithmetic(unit, op, mods, t, v, a - b)
      case Mul => Arithmetic(unit, op, mods, t, v, a * b)
      case And => M.BitAnd(a, b)
      case Or => M.BitOr(a, b)
      case Xor => M.BitXor(a, b)
      case Shl => M.ShiftLeft(a, b)
      case Shr => M.ShiftRight(a, b)
      case _ => unit.pure(op, mods, t, v)
    else unit.pure(op, mods, t, v)
  }

  /** The result of the operation is left to the unit. */
  predicate Uninterpreted(op: PureOp, t: Ty, arity: nat) {
    if op.Mov? && arity == 1 then false
    else if op.Mad? && arity == 3 then t.F32?
    else if arity == 2 && (op.Add? || op.Sub? || op.Mul?) then t.F32?
    else if arity == 2 then op.Mad? || op.Mov? || op.Cvt?
    else true
  }

  function SetReg(s: State, o: Operand, w: Word): State {
    if o.RegOp? then s.(regs := s.regs[o.reg := w]) else s
  }

  function Log(s: State, e: Event): State { s.(trace := s.trace + [e]) }

  function IsParamAddress(o: Operand): bool { o.Sym? }

  /** An instruction other than a branch or return whose guard passed; `None` if it is not supported. */
  function Effect(unit: Unit, i: Instr, s: State): Option<State> {
    if i.operands == [] then
      if i.base.Pure? then Some(s) else None
    else
      var v := Values(unit, i.operands[1..], s.regs);
      match i.base
      case Pure(op) =>
        if i.cc then
          var (w, c) := unit.carry(op, i.mods, i.ty, v, s.carry);
          Some(SetReg(s, i.operands[0], w).(carry := c))
        else Some(SetReg(s, i.operands[0], PureResult(unit, op, i.mods, i.ty, v)))
      case Fma => Some(SetReg(s, i.operands[0], unit.fma(i.mods, i.ty, v)))
      case Setp =>
        var b := unit.setp(i.mods, i.ty, v);
        var s' := SetReg(s, i.operands[0], if b then 1 else 0);
        Some(if i.operands[0].RegOp? then Log(s', PredicateEvent(i.operands[0].reg, b)) else s')
      case Ld =>
        if |v| != 1 then None
        else if IsParamAddress(i.operands[1]) then Some(SetReg(s, i.operands[0], unit.param(i.mods, i.ty, v[0])))
        else Some(Log(SetReg(s, i.operands[0], Get(s.mem, v[0])), LoadEvent(v[0])))
      case St =>
        if |v| != 1 then None
        else
          var a := Value(unit, i.operands[0], s.regs);
          Some(Log(s.(mem := s.mem[a := v[0]]), StoreEvent(a, v[0])))
      case _ => None
  }

  function GuardPasses(i: Instr, s: State): bool {
    i.guard.None? || (Get(s.regs, i.guard.value) != 0) != i.negated
  }

  /** An instruction other than a branch or return, whether or not its guard passes. */
  function Perform(unit: Unit, i: Instr, s: State): Option<State> {
    if GuardPasses(i, s) then Effect(unit, i, s) else Some(s)
  }

  /** The position of a label. */
  function FindLabel(p: Program, name: nat): (at: Option<nat>)
    ensures at.Some? ==> at.value < |p| && p[at.value] == Label(name)
    ensures at.Some? ==> forall k | 0 <= k < at.value :: p[k] != Label(name)
    ensures at.None? ==> forall k | 0 <= k < |p| :: p[k] != Label(name)
  {
    if p == [] then None
    else if p[0] == Label(name) then Some(0)
    else
      match FindLabel(p[1..], name)
      case None => None
      case Some(k) => Some(k + 1)
  }

  function Target(p: Program, i: Instr): Option<nat> {
    if |i.operands| == 1 && i.operands[0].Sym? then FindLabel(p, i.operands[0].name) else None
  }

  datatype Outcome = At(pc: nat, s: State) | Stop(final: State) | Stuck

  function Step(unit: Unit, p: Program, pc: nat, s: State): Outcome {
    if pc >= |p| then Stuck
    else if p[pc].Label? then At(pc + 1, s)
    else
      var i := p[pc].inst;
      if i.base.Ret? then Stop(s)
      else if i.base.Bra? then
        if Target(p, i).None? then Stuck
        else
          var s' := Log(s, BranchEvent(GuardPasses(i, s)));
          if GuardPasses(i, s) then At(Target(p, i).value, s') else At(pc + 1, s')
      else if !GuardPasses(i, s) then At(pc + 1, s)
      else
        match Effect(unit, i, s)
        case None => Stuck
        case Some(s') => At(pc + 1, s')
  }

  /** One step of a fixed program. */
  type Stepper = (nat, State) -> Outcome

  function Steps(unit: Unit, p: Program): Stepper {
    (pc: nat, s: State) => Step(unit, p, pc, s)
  }

  /** The state after `n` steps; a run that ended stays where it ended. */
  function Run(step: Stepper, o: Outcome, n: nat): Outcome
    decreases n
  {
    if n == 0 || !o.At? then o else Run(step, step(o.pc, o.s), n - 1)
  }

  lemma {:induction false} RunAppend(step: Stepper, o: Outcome, m: nat, n: nat)
    ensures Run(step, o, m + n) == Run(step, Run(step, o, m), n)
    decreases m
  {
    if m > 0 && o.At? {
      RunAppend(step, step(o.pc, o.s), m - 1, n);
    }
  }

  /** One more step of a run. */
  lemma RunMore(step: Stepper, o: Outcome, n: nat, pc: nat, s: State)
    requires Run(step, o, n) == At(pc, s)
    ensures Run(step, o, n + 1) == step(pc, s)
  {
    RunAppend(step, o, n, 1);
    assert Run(step, step(pc, s), 0) == step(pc, s);
  }

  lemma PlainStep(unit: Unit, p: Program, pc: nat, s: State, after: State)
    requires pc < |p| && p[pc].Code? && p[pc].inst.guard.None? && !p[pc].inst.base.Ret? && !p[pc].inst.base.Bra?
    requires Effect(unit, p[pc].inst, s) == Some(after)
    ensures Step(unit, p, pc, s) == At(pc + 1, after)
  {
  }
}
