/** The AEC instruction set: opcodes, operand types and the decoded instruction record. */
module Isa {

  datatype Option<+T> = None | Some(value: T)

  type Word = w: int | 0 <= w < 0x1_0000_0000

  datatype BinaryOp = ADD | SUB | MUL | AND | OR | XOR | SHL | SHR

  datatype TernaryOp = MAD | FMA

  datatype ControlOp = BR | BRX | HALT | CALL | RET

  /** The opcodes of the extended profile that the simulator does not execute. */
  datatype ExtendedOp =
    | DIV | NEG | ABS | MIN | MAX | NOT | BFX | BINS | POPC | FLO
    | CMP | SEL | PICK | LDC | ATOM | SYNC_CT | MBAR
    | CVTFF | CVTFI | CVTIF | CVTII
    | SHUF | VOTE | MTCH | RCP | RSQ | SIN | COS | EXP | LOG | SQRT | RDTSC

  datatype Opcode =
    | Binary(bin: BinaryOp)
    | Ternary(tern: TernaryOp)
    | Control(ctl: ControlOp)
    | CMPP | LD | ST | CPY | LOADI | LOADI64
    | Extended(ext: ExtendedOp)

  datatype DType = B32 | B64 | U32 | S32 | U8 | S8 | F32 | F64 | F16 | BF16 | NoType

  datatype Space = Gmem | Smem | Cmem | Lmem | Pmem

  datatype Compare = Eq | Ne | Lt | Le | Gt | Ge

  datatype Inst = Inst(
    opcode: Opcode,
    dtype: DType,
    dest: nat,
    src1: nat,
    src2: nat,
    src3: nat,
    imm: int,
    guard: Option<nat>,
    negated: bool,
    compare: Option<Compare>,
    space: Option<Space>,
    cvtSource: Option<DType>,
    family: nat)
}
