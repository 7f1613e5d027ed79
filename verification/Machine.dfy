/**
 The reference machine: one warp of lanes that executes AEC instructions in lockstep over a shared
 global memory, exactly as the repository's simulator does. Every exception the simulator raises is
 the outcome `None` (for one instruction) or `Error` (for a run).
 */
module Machine {
  import opened Isa

  type Byte = b: int | 0 <= b < 256
  type RegFile = s: seq<Word> | |s| == 256 witness seq(256, _ => 0)
  type PredFile = s: seq<bool> | |s| == 8 witness seq(8, _ => false)

  /** Single-precision arithmetic is a parameter; `None` is an overflow while packing the result. */
  datatype Fpu = Fpu(
    add: (Word, Word) -> Option<Word>,
    sub: (Word, Word) -> Option<Word>,
    mul: (Word, Word) -> Option<Word>,
    fma: (Word, Word, Word) -> Option<Word>,
    compare: (Compare, Word, Word) -> bool)

  /** `special` holds the launch-geometry values a lane can copy (thread and block indices). */
  datatype Lane = Lane(regs: RegFile, preds: PredFile, special: map<nat, Word>)

  datatype Memory = Memory(gmem: seq<Byte>, pmem: seq<Byte>)

  datatype Warp = Warp(lanes: seq<Lane>, mem: Memory)

  /** What one lane does for one instruction, once its operands have been read. */
  datatype Effect =
    | Trap
    | Skip
    | SetReg(r: nat, w: Word)
    | SetPair(r: nat, lo: Word, hi: Word)
    | SetPred(p: nat, b: bool)
    | Store(address: nat, data: seq<Byte>)
  {
    predicate Valid() {
      match this
      case SetReg(r, _) => r < 256
      case SetPair(r, _, _) => r < 255
      case SetPred(p, _) => p < 8
      case _ => true
    }
  }

  /* ---------- word arithmetic ---------- */

  function Wrap(x: int): Word { x % 0x1_0000_0000 }

  function BitAnd(a: Word, b: Word): Word { ((a as bv32) & (b as bv32)) as int }

  function BitOr(a: Word, b: Word): Word { ((a as bv32) | (b as bv32)) as int }

  function BitXor(a: Word, b: Word): Word { ((a as bv32) ^ (b as bv32)) as int }

  function ShiftLeft(a: Word, n: Word): Word { ((a as bv32) << ((n % 32) as bv6)) as int }

  function ShiftRight(a: Word, n: Word): Word { ((a as bv32) >> ((n % 32) as bv6)) as int }

  function CompareWords(c: Compare, a: Word, b: Word): bool {
    match c
    case Eq => a == b
    case Ne => a != b
    case Lt => a < b
    case Le => a <= b
    case Gt => a > b
    case Ge => a >= b
  }

  /* ---------- memory ---------- */

  function TypeSize(t: DType): Option<nat> {
    match t
    case B64 => Some(8)
    case B32 => Some(4)
    case U32 => Some(4)
    case S32 => Some(4)
    case F32 => Some(4)
    case _ => None
  }

  function ReadWord(m: seq<Byte>, a: nat): Word
    requires a + 4 <= |m|
  {
    var b0: int, b1: int, b2: int, b3: int := m[a], m[a + 1], m[a + 2], m[a + 3];
    b0 + 0x100 * b1 + 0x1_0000 * b2 + 0x100_0000 * b3
  }

  /** The little-endian bytes of a 32-bit value in a field of four or eight bytes. */
  function WordBytes(w: Word, size: nat): seq<Byte> {
    var low: seq<Byte> := [w % 0x100, w / 0x100 % 0x100, w / 0x1_0000 % 0x100, w / 0x100_0000];
    if size == 8 then low + [0, 0, 0, 0] else low
  }

  function WriteBytes(m: seq<Byte>, a: nat, data: seq<Byte>): seq<Byte>
    requires a + |data| <= |m|
  {
    m[..a] + data + m[a + |data|..]
  }

  /* ---------- one lane ---------- */

  function GuardPasses(inst: Inst, lane: Lane): bool
    requires inst.guard.Some? ==> inst.guard.value < 8
  {
    inst.guard.None? || lane.preds[inst.guard.value] != inst.negated
  }

  function RegResult(dest: nat, w: Option<Word>): Effect {
    if dest < 256 && w.Some? then SetReg(dest, w.value) else Trap
  }

  function BinaryResult(fpu: Fpu, op: BinaryOp, t: DType, a: Word, b: Word): Option<Word> {
    match op
    case ADD => if t.F32? then fpu.add(a, b) else Some(Wrap(a + b))
    case SUB => if t.F32? then fpu.sub(a, b) else Some(Wrap(a - b))
    case MUL => if t.F32? then fpu.mul(a, b) else Some(Wrap(a * b))
    case AND => Some(BitAnd(a, b))
    case OR => Some(BitOr(a, b))
    case XOR => Some(BitXor(a, b))
    case SHL => Some(ShiftLeft(a, b))
    case SHR => Some(ShiftRight(a, b))
  }

  function TernaryResult(fpu: Fpu, op: TernaryOp, t: DType, a: Word, b: Word, c: Word): Option<Word> {
    if !t.F32? then Some(Wrap(a * b + c))
    else if op.FMA? then fpu.fma(a, b, c)
    else
      match fpu.mul(a, b)
      case None => None
      case Some(product) => fpu.add(product, c)
  }

  function LoadEffect(inst: Inst, lane: Lane, mem: Memory): Effect {
    if inst.src1 >= 256 || inst.space.None? || TypeSize(inst.dtype).None? then Trap
    else if !inst.space.value.Gmem? && !inst.space.value.Pmem? then Trap
    else
      var m := if inst.space.value.Gmem? then mem.gmem else mem.pmem;
      var a: nat := lane.regs[inst.src1];
      if a + TypeSize(inst.dtype).value > |m| then Trap
      else if inst.dtype.B64? then
        if inst.dest < 255 then SetPair(inst.dest, ReadWord(m, a), ReadWord(m, a + 4)) else Trap
      else RegResult(inst.dest, Some(ReadWord(m, a)))
  }

  function StoreEffect(inst: Inst, lane: Lane, mem: Memory): Effect {
    if inst.src1 >= 256 || inst.src2 >= 256 || inst.space != Some(Gmem) || TypeSize(inst.dtype).None? then Trap
    else
      var a: nat := lane.regs[inst.src1];
      if a + TypeSize(inst.dtype).value > |mem.gmem| then Trap
      else Store(a, WordBytes(lane.regs[inst.src2], TypeSize(inst.dtype).value))
  }

  function CopyEffect(inst: Inst, lane: Lane): Effect {
    if inst.dtype.B64? || inst.dtype.F64? then
      if inst.dest >= 255 || inst.src1 >= 255 then Trap
      else
        // the high half is copied after the low half was written
        var lo := lane.regs[inst.src1];
        SetPair(inst.dest, lo, if inst.src1 + 1 == inst.dest then lo else lane.regs[inst.src1 + 1])
    else if inst.src1 < 256 then RegResult(inst.dest, Some(lane.regs[inst.src1]))
    else if inst.src1 in lane.special then RegResult(inst.dest, Some(lane.special[inst.src1]))
    else Trap
  }

  function CompareEffect(fpu: Fpu, inst: Inst, lane: Lane): Effect {
    if inst.compare.None? || inst.src1 >= 256 || inst.src2 >= 256 || inst.dest >= 8 then Trap
    else
      var a, b := lane.regs[inst.src1], lane.regs[inst.src2];
      SetPred(inst.dest,
              if inst.dtype.F32? then fpu.compare(inst.compare.value, a, b)
              else CompareWords(inst.compare.value, a, b))
  }

  /** The effect of an instruction whose guard passed. */
  function Execute(fpu: Fpu, inst: Inst, lane: Lane, mem: Memory): Effect {
    if inst.opcode.LOADI? then RegResult(inst.dest, Some(Wrap(inst.imm)))
    else if inst.opcode.LOADI64? then
      if inst.dest < 255 then SetPair(inst.dest, Wrap(inst.imm), Wrap(inst.imm / 0x1_0000_0000)) else Trap
    else if inst.opcode.CPY? then CopyEffect(inst, lane)
    else if inst.opcode.LD? then LoadEffect(inst, lane, mem)
    else if inst.opcode.ST? then StoreEffect(inst, lane, mem)
    else if inst.opcode.CMPP? then CompareEffect(fpu, inst, lane)
    else if inst.opcode.Binary? then
      if inst.src1 >= 256 || inst.src2 >= 256 then Trap
      else RegResult(inst.dest, BinaryResult(fpu, inst.opcode.bin, inst.dtype, lane.regs[inst.src1], lane.regs[inst.src2]))
    else if inst.opcode.Ternary? then
      if inst.src1 >= 256 || inst.src2 >= 256 || inst.src3 >= 256 then Trap
      else
        RegResult(inst.dest,
                  TernaryResult(fpu, inst.opcode.tern, inst.dtype,
                          lane.regs[inst.src1], lane.regs[inst.src2], lane.regs[inst.src3]))
    else Trap
  }

  function LaneEffect(fpu: Fpu, inst: Inst, lane: Lane, mem: Memory): (e: Effect)
    ensures e.Valid()
    ensures e.Store? ==> inst.opcode.ST? && e.address + |e.data| <= |mem.gmem|
  {
    if inst.guard.Some? && inst.guard.value >= 8 then Trap
    else if GuardPasses(inst, lane) then Execute(fpu, inst, lane, mem)
    else Skip
  }

  function ApplyLane(e: Effect, lane: Lane): Lane
    requires e.Valid()
  {
    match e
    case SetReg(r, w) => lane.(regs := lane.regs[r := w])
    case SetPair(r, lo, hi) => lane.(regs := lane.regs[r := lo][r + 1 := hi])
    case SetPred(p, b) => lane.(preds := lane.preds[p := b])
    case _ => lane
  }

  function ApplyMem(e: Effect, mem: Memory): Memory
    requires e.Store? ==> e.address + |e.data| <= |mem.gmem|
  {
    if e.Store? then mem.(gmem := WriteBytes(mem.gmem, e.address, e.data)) else mem
  }

  /* ---------- one warp ---------- */

  /** One instruction over all lanes, in lane order. */
  function WarpStep(fpu: Fpu, inst: Inst, w: Warp): Option<Warp>
    decreases |w.lanes|
  {
    if w.lanes == [] then Some(w)
    else
      var e := LaneEffect(fpu, inst, w.lanes[0], w.mem);
      if e.Trap? then None
      else
        match WarpStep(fpu, inst, Warp(w.lanes[1..], ApplyMem(e, w.mem)))
        case None => None
        case Some(rest) => Some(Warp([ApplyLane(e, w.lanes[0])] + rest.lanes, rest.mem))
  }

  /** How a warp executes one instruction that is not a control instruction. */
  type Exec = (Inst, Warp) -> Option<Warp>

  /** The simulator's instructions. */
  function WarpExec(fpu: Fpu): Exec {
    (i: Inst, w: Warp) => WarpStep(fpu, i, w)
  }

  /** The branch decision of one lane for BRX. */
  function Decision(inst: Inst, lane: Lane): bool
    requires inst.guard.Some? && inst.guard.value < 8
  {
    lane.preds[inst.guard.value] != inst.negated
  }

  datatype Outcome = Running(pc: int, warp: Warp) | Halted(final: Warp) | Failed

  function BranchStep(inst: Inst, pc: int, w: Warp): Outcome {
    if inst.guard.None? || inst.guard.value >= 8 || w.lanes == [] then Failed
    else if forall k | 0 <= k < |w.lanes| :: Decision(inst, w.lanes[k]) then Running(inst.imm, w)
    else if forall k | 0 <= k < |w.lanes| :: !Decision(inst, w.lanes[k]) then Running(pc + 1, w)
    else Failed
  }

  predicate IsControl(inst: Inst) {
    inst.opcode.Control? && (inst.opcode.ctl.BR? || inst.opcode.ctl.BRX? || inst.opcode.ctl.HALT?)
  }

  function ControlStep(inst: Inst, pc: int, w: Warp): Outcome
    requires IsControl(inst)
  {
    if inst.opcode.ctl.HALT? then
      if inst.guard.Some? then Failed else Halted(w)
    else if inst.opcode.ctl.BR? then
      if inst.guard.Some? then Failed else Running(inst.imm, w)
    else BranchStep(inst, pc, w)
  }

  function Step(exec: Exec, program: seq<Inst>, pc: int, w: Warp): Outcome {
    if !(0 <= pc < |program|) then Failed
    else if IsControl(program[pc]) then ControlStep(program[pc], pc, w)
    else
      match exec(program[pc], w)
      case None => Failed
      case Some(w') => Running(pc + 1, w')
  }

  /** How a whole run ends: the final warp and the number of executed instructions, or an exception. */
  datatype Final = Done(warp: Warp, executed: nat) | Error

  /** Run from `pc` with `left` steps remaining before the step limit. */
  function Run(exec: Exec, program: seq<Inst>, pc: int, w: Warp, left: nat, executed: nat): Final
    decreases left
  {
    if left == 0 then Error
    else
      match Step(exec, program, pc, w)
      case Failed => Error
      case Halted(w') => Done(w', executed + 1)
      case Running(pc', w') => Run(exec, program, pc', w', left - 1, executed + 1)
  }
}
