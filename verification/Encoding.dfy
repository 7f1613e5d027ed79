/** The 128-bit instruction encoding: four 32-bit words, and the little-endian byte stream. */
module Encoding {
  import opened Isa
  import M = Machine

  datatype Result<+T> = Ok(value: T) | Err(error: EncodeError)

  datatype EncodeError =
    | UnsupportedOpcode | UnsupportedType | UnsupportedSourceType
    | BranchWithoutPredicate | NegatedWithoutPredicate
    | UnknownOpcode | UnknownType | UnknownCompare | UnknownSpace | UnknownSourceType
    | BadLength

  datatype Profile = C1Default | TrackB

  datatype Words = Words(w0: Word, w1: Word, w2: Word, w3: Word)

  /* ---------- tables ---------- */

  function BinaryCode(op: BinaryOp): nat {
    match op
    case ADD => 0x0001 case SUB => 0x0002 case MUL => 0x0003 case AND => 0x0010
    case OR => 0x0011 case XOR => 0x0012 case SHL => 0x0014 case SHR => 0x0015
  }

  function ControlCode(op: ControlOp): nat {
    match op
    case BR => 0x0040 case BRX => 0x0041 case CALL => 0x0043 case RET => 0x0044 case HALT => 0x0045
  }

  function ExtendedCode(op: ExtendedOp): nat {
    match op
    case DIV => 0x0006 case NEG => 0x0007 case ABS => 0x0008 case MIN => 0x0009 case MAX => 0x000A
    case NOT => 0x0013 case BFX => 0x0016 case BINS => 0x0017 case POPC => 0x0018 case FLO => 0x0019
    case CMP => 0x0020 case SEL => 0x0022 case PICK => 0x0023 case LDC => 0x0032 case ATOM => 0x0033
    case SYNC_CT => 0x0047 case MBAR => 0x0049 case CVTFF => 0x0050 case CVTFI => 0x0051 case CVTIF => 0x0052
    case CVTII => 0x0053 case SHUF => 0x0057 case VOTE => 0x0058 case MTCH => 0x0059 case RCP => 0x0070
    case RSQ => 0x0071 case SIN => 0x0072 case COS => 0x0073 case EXP => 0x0074 case LOG => 0x0075
    case SQRT => 0x0076 case RDTSC => 0x0080
  }

  function OpcodeCode(op: Opcode): nat {
    match op
    case Binary(b) => BinaryCode(b)
    case Ternary(t) => if t.MAD? then 0x0004 else 0x0005
    case Control(c) => ControlCode(c)
    case CMPP => 0x0021
    case LD => 0x0030
    case ST => 0x0031
    case CPY => 0x0054
    case LOADI => 0x0055
    case LOADI64 => 0x0056
    case Extended(e) => ExtendedCode(e)
  }

  /** The extended profile has every opcode. */
  predicate HasOpcode(profile: Profile, op: Opcode) {
    profile.TrackB? || !(op.Extended? || op == Control(CALL) || op == Control(RET))
  }

  function TypeCode(t: DType): bv16 {
    match t
    case B32 => 0x0 case B64 => 0x1 case U32 => 0x2 case S32 => 0x3 case U8 => 0x4 case S8 => 0x5
    case F32 => 0x8 case F64 => 0x9 case F16 => 0xA case BF16 => 0xB case NoType => 0xF
  }

  predicate HasType(profile: Profile, t: DType) {
    profile.TrackB? || t.B32? || t.B64? || t.U32? || t.S32? || t.F32? || t.NoType?
  }

  function CompareCode(c: Compare): bv16 {
    match c
    case Eq => 0 case Ne => 1 case Lt => 2 case Le => 3 case Gt => 4 case Ge => 5
  }

  function SpaceCode(s: Space): bv16 {
    match s
    case Gmem => 0 case Smem => 1 case Cmem => 2 case Lmem => 3 case Pmem => 4
  }

  /* ---------- reverse tables ---------- */

  function BinaryOf(code: nat): Option<BinaryOp> {
    match code
    case 0x0001 => Some(ADD) case 0x0002 => Some(SUB) case 0x0003 => Some(MUL) case 0x0010 => Some(AND)
    case 0x0011 => Some(OR) case 0x0012 => Some(XOR) case 0x0014 => Some(SHL) case 0x0015 => Some(SHR)
    case _ => None
  }

  function ControlOf(code: nat): Option<ControlOp> {
    match code
    case 0x0040 => Some(BR) case 0x0041 => Some(BRX) case 0x0043 => Some(CALL) case 0x0044 => Some(RET)
    case 0x0045 => Some(HALT)
    case _ => None
  }

  function ExtendedOf(code: nat): Option<ExtendedOp> {
    match code
    case 0x0006 => Some(DIV) case 0x0007 => Some(NEG) case 0x0008 => Some(ABS) case 0x0009 => Some(MIN)
    case 0x000A => Some(MAX) case 0x0013 => Some(NOT) case 0x0016 => Some(BFX) case 0x0017 => Some(BINS)
    case 0x0018 => Some(POPC) case 0x0019 => Some(FLO) case 0x0020 => Some(CMP) case 0x0022 => Some(SEL)
    case 0x0023 => Some(PICK) case 0x0032 => Some(LDC) case 0x0033 => Some(ATOM) case 0x0047 => Some(SYNC_CT)
    case 0x0049 => Some(MBAR) case 0x0050 => Some(CVTFF) case 0x0051 => Some(CVTFI) case 0x0052 => Some(CVTIF)
    case 0x0053 => Some(CVTII) case 0x0057 => Some(SHUF) case 0x0058 => Some(VOTE) case 0x0059 => Some(MTCH)
    case 0x0070 => Some(RCP) case 0x0071 => Some(RSQ) case 0x0072 => Some(SIN) case 0x0073 => Some(COS)
    case 0x0074 => Some(EXP) case 0x0075 => Some(LOG) case 0x0076 => Some(SQRT) case 0x0080 => Some(RDTSC)
    case _ => None
  }

  function OtherOf(code: nat): Option<Opcode> {
    match code
    case 0x0004 => Some(Ternary(MAD)) case 0x0005 => Some(Ternary(FMA))
    case 0x0021 => Some(CMPP) case 0x0030 => Some(LD) case 0x0031 => Some(ST)
    case 0x0054 => Some(CPY) case 0x0055 => Some(LOADI) case 0x0056 => Some(LOADI64)
    case _ => None
  }

  function AnyOpcodeOf(code: nat): Option<Opcode> {
    if BinaryOf(code).Some? then Some(Binary(BinaryOf(code).value))
    else if ControlOf(code).Some? then Some(Control(ControlOf(code).value))
    else if ExtendedOf(code).Some? then Some(Extended(ExtendedOf(code).value))
    else OtherOf(code)
  }

  function OpcodeOf(profile: Profile, code: nat): Option<Opcode> {
    var op := AnyOpcodeOf(code);
    if op.Some? && HasOpcode(profile, op.value) then op else None
  }

  function AnyTypeOf(code: bv16): Option<DType> {
    match code
    case 0x0 => Some(B32) case 0x1 => Some(B64) case 0x2 => Some(U32) case 0x3 => Some(S32)
    case 0x4 => Some(U8) case 0x5 => Some(S8) case 0x8 => Some(F32) case 0x9 => Some(F64)
    case 0xA => Some(F16) case 0xB => Some(BF16) case 0xF => Some(NoType)
    case _ => None
  }

  function TypeOf(profile: Profile, code: bv16): Option<DType> {
    var t := AnyTypeOf(code);
    if t.Some? && HasType(profile, t.value) then t else None
  }

  function CompareOf(code: bv16): Option<Compare> {
    match code
    case 0 => Some(Eq) case 1 => Some(Ne) case 2 => Some(Lt) case 3 => Some(Le) case 4 => Some(Gt) case 5 => Some(Ge)
    case _ => None
  }

  function SpaceOf(code: bv16): Option<Space> {
    match code
    case 0 => Some(Gmem) case 1 => Some(Smem) case 2 => Some(Cmem) case 3 => Some(Lmem) case 4 => Some(Pmem)
    case _ => None
  }

  /** The reverse maps invert the tables. */
  lemma OpcodesInvert(profile: Profile, op: Opcode, code: nat)
    ensures OpcodeOf(profile, code) == Some(op) <==> HasOpcode(profile, op) && OpcodeCode(op) == code
    ensures OpcodeCode(op) < 0x1_0000
  {
    BinaryInverts(code);
    ControlInverts(code);
    ExtendedInverts(code);
  }

  lemma BinaryInverts(code: nat)
    ensures forall op :: BinaryOf(code) == Some(op) <==> BinaryCode(op) == code
  {
  }

  lemma ControlInverts(code: nat)
    ensures forall op :: ControlOf(code) == Some(op) <==> ControlCode(op) == code
  {
  }

  lemma ExtendedInverts(code: nat)
    ensures forall op :: ExtendedOf(code) == Some(op) <==> ExtendedCode(op) == code
  {
  }

  lemma TypesInvert(profile: Profile, t: DType, code: bv16)
    ensures TypeOf(profile, code) == Some(t) <==> HasType(profile, t) && TypeCode(t) == code
  {
  }

  /* ---------- fields ---------- */

  predicate IsConversion(op: Opcode) { op.Extended? && (op.ext.CVTFF? || op.ext.CVTFI? || op.ext.CVTIF? || op.ext.CVTII?) }

  predicate Compares(op: Opcode) { op.CMPP? || op == Extended(CMP) }

  predicate AccessesMemory(op: Opcode) { op.LD? || op.ST? || op == Extended(LDC) }

  predicate UsesImmediate(op: Opcode) {
    op.LOADI? || op.LOADI64? || op == Control(BR) || op == Control(BRX) || op == Control(CALL)
  }

  /** `_instruction_encoding_type` */
  function EncodingType(op: Opcode, t: DType): DType {
    if op == Binary(SHL) && t.B32? then U32
    else if op.LOADI? || op.LOADI64? || op == Control(BR) || op == Control(BRX) then NoType
    else t
  }

  /** The three low bits of a number, as bits, and back. */
  function Low3(n: nat): bv16 {
    match n % 8
    case 0 => 0 case 1 => 1 case 2 => 2 case 3 => 3 case 4 => 4 case 5 => 5 case 6 => 6 case _ => 7
  }

  function Number3(b: bv16): nat {
    match b & 7
    case 0 => 0 case 1 => 1 case 2 => 2 case 3 => 3 case 4 => 4 case 5 => 5 case 6 => 6 case _ => 7
  }

  /** The `k` low bits of a number. */
  function Bits(n: nat, k: nat): bv16 {
    if k == 0 then 0 else (Bits(n / 2, k - 1) << 1) | (if n % 2 == 1 then 1 else 0)
  }

  /** The number written by the `k` low bits. */
  function Number(b: bv16, k: nat): nat {
    if k == 0 then 0 else 2 * Number(b >> 1, k - 1) + (if b & 1 == 1 then 1 else 0)
  }

  function Power2(k: nat): nat { if k == 0 then 1 else 2 * Power2(k - 1) }

  /** No bit at or above position `k` is set. */
  predicate Below(b: bv16, k: nat) { if k == 0 then b == 0 else Below(b >> 1, k - 1) }

  lemma {:induction false} BitsOfNumber(b: bv16, k: nat)
    requires Below(b, k)
    ensures Bits(Number(b, k), k) == b && Number(b, k) < Power2(k)
    decreases k
  {
    if k > 0 {
      BitsOfNumber(b >> 1, k - 1);
      Rejoin(b);
      var m, odd := Number(b >> 1, k - 1), if b & 1 == 1 then 1 else 0;
      Halve(m, odd);
      assert Number(b, k) == 2 * m + odd;
    }
  }

  lemma Rejoin(b: bv16)
    ensures ((b >> 1) << 1) | (if b & 1 == 1 then 1 else 0) == b
  {
  }

  lemma Halve(m: nat, odd: nat)
    requires odd <= 1
    ensures (2 * m + odd) / 2 == m && (2 * m + odd) % 2 == odd
  {
  }

  lemma HalfWord(b: bv16)
    ensures Number(b, 16) < Half && Bits(Number(b, 16), 16) == b
  {
    assert Power2(4) == 16;
    assert Power2(8) == 256;
    assert Power2(12) == 4096;
    assert Power2(16) == Half;
    BelowFour(b, 16);
    BelowFour(b >> 4, 12);
    BelowFour((b >> 4) >> 4, 8);
    BelowFour(((b >> 4) >> 4) >> 4, 4);
    ShiftedOut(b);
    BitsOfNumber(b, 16);
  }

  lemma BelowFour(b: bv16, k: nat)
    requires k >= 4
    ensures Below(b, k) == Below(b >> 4, k - 4)
  {
    assert Below(b, k) == Below((b >> 1) >> 1, k - 2);
    assert Below((b >> 1) >> 1, k - 2) == Below((((b >> 1) >> 1) >> 1) >> 1, k - 4);
    ShiftFour(b);
  }

  lemma ShiftFour(b: bv16)
    ensures (((b >> 1) >> 1) >> 1) >> 1 == b >> 4
  {
  }

  lemma ShiftedOut(b: bv16)
    ensures (((b >> 4) >> 4) >> 4) >> 4 == 0
  {
  }

  const PredEnable: bv16 := 0x8000
  const PredNegate: bv16 := 0x4000

  function TypeBits(i: Inst): bv16 {
    ((TypeCode(EncodingType(i.opcode, i.dtype)) & 0xF) << 3)
    | (if IsConversion(i.opcode) && i.cvtSource.Some? then (TypeCode(i.cvtSource.value) & 0xF) << 10 else 0)
  }

  function GuardBits(i: Inst): bv16 {
    if i.guard.None? then 0
    else PredEnable | Low3(i.guard.value) | (if i.negated then PredNegate else 0)
  }

  function ExtraBits(i: Inst): bv16 {
    if i.compare.Some? then (CompareCode(i.compare.value) & 7) << 8
    else if i.space.Some? then (SpaceCode(i.space.value) & 7) << 11
    else if i.family != 0 then Low3(i.family) << 8
    else 0
  }

  function PredCtrl(i: Inst): bv16 { TypeBits(i) | GuardBits(i) | ExtraBits(i) }

  const Half: nat := 0x1_0000
  const Full: nat := 0x1_0000_0000

  function LowWord(x: int): Word { x % Full }

  /** Two 16-bit fields in one word. */
  function Pack(high: nat, low: nat): Word { (high % Half) * Half + low % Half }

  /* ---------- encoding ---------- */

  function EncodeFailure(i: Inst, profile: Profile): Option<EncodeError> {
    if !HasOpcode(profile, i.opcode) then Some(UnsupportedOpcode)
    else if !HasType(profile, EncodingType(i.opcode, i.dtype)) then Some(UnsupportedType)
    else if IsConversion(i.opcode) && i.cvtSource.Some? && !HasType(profile, i.cvtSource.value) then
      Some(UnsupportedSourceType)
    else if i.opcode == Control(BRX) && i.guard.None? then Some(BranchWithoutPredicate)
    else if i.guard.None? && i.negated then Some(NegatedWithoutPredicate)
    else None
  }

  function EncodeWords(i: Inst): Words {
    Words(
      LowWord(if UsesImmediate(i.opcode) then i.imm else i.src3),
      LowWord(if i.opcode.LOADI64? then i.imm / Full else i.src2),
      Pack(i.dest, i.src1),
      Pack(OpcodeCode(i.opcode), Number(PredCtrl(i), 16)))
  }

  function Encode(i: Inst, profile: Profile): Result<Words> {
    match EncodeFailure(i, profile)
    case Some(e) => Err(e)
    case None => Ok(EncodeWords(i))
  }

  /* ---------- decoding ---------- */

  /** The fields of the control half-word that depend on the opcode. */
  function DecodeGuard(op: Opcode, ctrl: bv16): (Option<nat>, bool) {
    if op == Control(BRX) || ctrl & PredEnable != 0 then (Some(Number3(ctrl)), ctrl & PredNegate != 0) else (None, false)
  }

  function TypeField(ctrl: bv16): bv16 { (ctrl >> 3) & 0xF }
  function CompareField(ctrl: bv16): bv16 { (ctrl >> 8) & 7 }
  function SpaceField(ctrl: bv16): bv16 { (ctrl >> 11) & 7 }
  function SourceField(ctrl: bv16): bv16 { (ctrl >> 10) & 0xF }

  function DecodeFailure(op: Opcode, ctrl: bv16, profile: Profile): Option<EncodeError> {
    if TypeOf(profile, TypeField(ctrl)).None? then Some(UnknownType)
    else if Compares(op) && CompareOf(CompareField(ctrl)).None? then Some(UnknownCompare)
    else if AccessesMemory(op) && SpaceOf(SpaceField(ctrl)).None? then Some(UnknownSpace)
    else if IsConversion(op) && TypeOf(profile, SourceField(ctrl)).None? then Some(UnknownSourceType)
    else None
  }

  function DecodeFields(op: Opcode, ctrl: bv16, profile: Profile, w: Words): Inst
    requires DecodeFailure(op, ctrl, profile).None?
  {
    var (guard, negated) := DecodeGuard(op, ctrl);
    Inst(op, TypeOf(profile, TypeField(ctrl)).value, w.w2 / Half, w.w2 % Half,
         if op.LOADI64? then 0 else w.w1,
         if UsesImmediate(op) then 0 else w.w0,
         if op.LOADI64? then w.w1 * Full + w.w0 else if UsesImmediate(op) then w.w0 else 0,
         guard, negated,
         if Compares(op) then CompareOf(CompareField(ctrl)) else None,
         if AccessesMemory(op) then SpaceOf(SpaceField(ctrl)) else None,
         if IsConversion(op) then TypeOf(profile, SourceField(ctrl)) else None,
         0)
  }

  function Decode(w: Words, profile: Profile): Result<Inst> {
    var op, ctrl := OpcodeOf(profile, w.w3 / Half), Bits(w.w3 % Half, 16);
    if op.None? then Err(UnknownOpcode)
    else
      match DecodeFailure(op.value, ctrl, profile)
      case Some(e) => Err(e)
      case None => Ok(DecodeFields(op.value, ctrl, profile, w))
  }

  /* ---------- round trip ---------- */

  /** The optional fields are present exactly where the opcode has them. */
  predicate OptionsFit(i: Inst) {
    && (i.compare.Some? <==> Compares(i.opcode))
    && (i.space.Some? <==> AccessesMemory(i.opcode))
    && (i.cvtSource.Some? <==> IsConversion(i.opcode))
    && i.family == 0
  }

  /** The numbers are in range, and zero where the opcode does not use them. */
  predicate NumbersFit(i: Inst) {
    && i.dest < Half && i.src1 < Half
    && (if i.opcode.LOADI64? then i.src2 == 0 else i.src2 < Full)
    && (if UsesImmediate(i.opcode) then i.src3 == 0 else i.src3 < Full)
    && (if i.opcode.LOADI64? then 0 <= i.imm < Full * Full
        else if UsesImmediate(i.opcode) then 0 <= i.imm < Full
        else i.imm == 0)
  }

  predicate Canonical(i: Inst) {
    && OptionsFit(i) && NumbersFit(i)
    && i.dtype == EncodingType(i.opcode, i.dtype) && (i.guard.Some? ==> i.guard.value < 8)
  }

  lemma Numbers3(n: nat, b: bv16)
    ensures Number3(Low3(n)) == n % 8 && Low3(n) <= 7
  {
  }

  /** A control half-word with these fields. */
  predicate Joined(ctrl: bv16, t: bv16, guard: bv16, source: bv16, compare: bv16, space: bv16) {
    ctrl == ((t & 0xF) << 3) | ((source & 0xF) << 10) | guard | ((compare & 7) << 8) | ((space & 7) << 11)
  }

  /** The fields of a control half-word do not disturb each other. */
  lemma FieldsApart(ctrl: bv16, t: bv16, guard: bv16, source: bv16, compare: bv16, space: bv16)
    requires Joined(ctrl, t, guard, source, compare, space)
    requires t <= 0xF && guard & 0x3FF8 == 0 && source <= 0xF && compare <= 7 && space <= 7
    requires (source == 0 && compare == 0) || (source == 0 && space == 0) || (compare == 0 && space == 0)
    ensures TypeField(ctrl) == t && ctrl & 0xC007 == guard & 0xC007
    ensures space == 0 && source == 0 ==> CompareField(ctrl) == compare
    ensures compare == 0 && source == 0 ==> SpaceField(ctrl) == space
    ensures compare == 0 && space == 0 ==> SourceField(ctrl) == source
  {
  }

  function SourceCode(i: Inst): bv16 {
    if IsConversion(i.opcode) && i.cvtSource.Some? then TypeCode(i.cvtSource.value) else 0
  }

  function CompareBits(i: Inst): bv16 { if i.compare.Some? then CompareCode(i.compare.value) else 0 }

  function SpaceBits(i: Inst): bv16 {
    if i.compare.None? && i.space.Some? then SpaceCode(i.space.value) else 0
  }

  predicate OneField(i: Inst) {
    && i.family == 0
    && !(i.compare.Some? && i.cvtSource.Some?) && !(i.space.Some? && i.cvtSource.Some?)
  }

  lemma GuardBitsDecode(i: Inst, ctrl: bv16)
    requires i.guard.None? ==> !i.negated && i.opcode != Control(BRX)
    requires ctrl & 0xC007 == GuardBits(i) & 0xC007
    ensures GuardBits(i) & 0x3FF8 == 0
    ensures DecodeGuard(i.opcode, ctrl) == (if i.guard.Some? then Some(i.guard.value % 8) else None, i.negated)
  {
    if i.guard.Some? {
      var p := Low3(i.guard.value);
      Numbers3(i.guard.value, p);
      GuardBitsApart(p, i.negated, ctrl);
      assert Number3(ctrl) == Number3(p);
    }
  }

  lemma GuardBitsApart(p: bv16, negated: bool, ctrl: bv16)
    requires p <= 7
    requires ctrl & 0xC007 == (PredEnable | p | (if negated then PredNegate else 0)) & 0xC007
    ensures (PredEnable | p | (if negated then PredNegate else 0)) & 0x3FF8 == 0
    ensures ctrl & 7 == p && ctrl & PredEnable != 0 && (ctrl & PredNegate != 0 <==> negated)
  {
  }

  lemma PredCtrlFields(i: Inst)
    requires OneField(i)
    ensures Joined(PredCtrl(i), TypeCode(EncodingType(i.opcode, i.dtype)), GuardBits(i), SourceCode(i), CompareBits(i),
                   SpaceBits(i))
  {
    var t := TypeCode(EncodingType(i.opcode, i.dtype));
    ZeroBits();
    assert TypeBits(i) == ((t & 0xF) << 3) | ((SourceCode(i) & 0xF) << 10);
    assert ExtraBits(i) == ((CompareBits(i) & 7) << 8) | ((SpaceBits(i) & 7) << 11);
    JoinFields(TypeBits(i), GuardBits(i), (CompareBits(i) & 7) << 8, (SpaceBits(i) & 7) << 11);
  }

  lemma ZeroBits()
    ensures (0 & 7) << 8 == 0 as bv16 && (0 & 7) << 11 == 0 as bv16 && (0 & 0xF) << 10 == 0 as bv16
  {
  }

  lemma JoinFields(a: bv16, b: bv16, c: bv16, d: bv16)
    ensures a | b | (c | d) == a | b | c | d
  {
  }

  lemma CodeRanges(t: DType, c: Compare, s: Space)
    ensures TypeCode(t) <= 0xF && CompareCode(c) <= 7 && SpaceCode(s) <= 7
  {
  }

  lemma FieldRanges(i: Inst)
    ensures SourceCode(i) <= 0xF && CompareBits(i) <= 7 && SpaceBits(i) <= 7
  {
    CodeRanges(if i.cvtSource.Some? then i.cvtSource.value else B32,
               if i.compare.Some? then i.compare.value else Eq, if i.space.Some? then i.space.value else Gmem);
  }

  /** Each part fits its field, and at most one of the last three is not zero. */
  lemma PartsFit(i: Inst)
    requires OneField(i)
    ensures TypeCode(EncodingType(i.opcode, i.dtype)) <= 0xF && GuardBits(i) & 0x3FF8 == 0
    ensures SourceCode(i) <= 0xF && CompareBits(i) <= 7 && SpaceBits(i) <= 7
    ensures (SourceCode(i) == 0 && CompareBits(i) == 0) || (SourceCode(i) == 0 && SpaceBits(i) == 0)
            || (CompareBits(i) == 0 && SpaceBits(i) == 0)
  {
    CodeRanges(EncodingType(i.opcode, i.dtype), Eq, Gmem);
    FieldRanges(i);
    GuardRange(i);
  }

  /** A field read from the control half-word is the one that was written. */
  lemma ReadBack(i: Inst, ctrl: bv16)
    requires OneField(i) && ctrl == PredCtrl(i)
    ensures TypeField(ctrl) == TypeCode(EncodingType(i.opcode, i.dtype)) && ctrl & 0xC007 == GuardBits(i) & 0xC007
    ensures SpaceBits(i) == 0 && SourceCode(i) == 0 ==> CompareField(ctrl) == CompareBits(i)
    ensures CompareBits(i) == 0 && SourceCode(i) == 0 ==> SpaceField(ctrl) == SpaceBits(i)
    ensures CompareBits(i) == 0 && SpaceBits(i) == 0 ==> SourceField(ctrl) == SourceCode(i)
  {
    PartsFit(i);
    PredCtrlFields(i);
    FieldsApart(ctrl, TypeCode(EncodingType(i.opcode, i.dtype)), GuardBits(i), SourceCode(i), CompareBits(i), SpaceBits(i));
  }

  /** Each field of the control half-word can be read back. */
  lemma ControlFields(i: Inst)
    requires OneField(i) && (i.guard.None? ==> !i.negated && i.opcode != Control(BRX))
    ensures TypeField(PredCtrl(i)) == TypeCode(EncodingType(i.opcode, i.dtype))
    ensures DecodeGuard(i.opcode, PredCtrl(i)) == (if i.guard.Some? then Some(i.guard.value % 8) else None, i.negated)
    ensures i.compare.Some? ==> CompareField(PredCtrl(i)) == CompareBits(i)
    ensures i.compare.None? && i.space.Some? ==> SpaceField(PredCtrl(i)) == SpaceBits(i)
    ensures i.compare.None? && i.space.None? ==> SourceField(PredCtrl(i)) == SourceCode(i)
  {
    ReadBack(i, PredCtrl(i));
    GuardBitsDecode(i, PredCtrl(i));
  }

  lemma GuardRange(i: Inst)
    ensures GuardBits(i) & 0x3FF8 == 0
  {
    if i.guard.Some? {
      Numbers3(i.guard.value, 0);
    }
  }

  lemma Unpack(high: nat, low: nat)
    ensures Pack(high, low) / Half == high % Half && Pack(high, low) % Half == low % Half
  {
  }

  /** The opcode and the control half-word are read back from the last word. */
  lemma HeaderDecodes(i: Inst, profile: Profile)
    requires HasOpcode(profile, i.opcode)
    ensures OpcodeOf(profile, EncodeWords(i).w3 / Half) == Some(i.opcode)
    ensures Bits(EncodeWords(i).w3 % Half, 16) == PredCtrl(i)
  {
    var code, ctrl := OpcodeCode(i.opcode), Number(PredCtrl(i), 16);
    OpcodesInvert(profile, i.opcode, code);
    HalfWord(PredCtrl(i));
    HeaderUnpack(EncodeWords(i).w3, code, ctrl);
  }

  lemma HeaderUnpack(w: Word, code: nat, ctrl: nat)
    requires w == Pack(code, ctrl) && code < Half && ctrl < Half
    ensures w / Half == code && w % Half == ctrl
  {
  }

  lemma CodesInvert(c: Compare, s: Space)
    ensures CompareOf(CompareCode(c)) == Some(c) && SpaceOf(SpaceCode(s)) == Some(s)
  {
  }

  lemma OptionsDecode(i: Inst, profile: Profile)
    requires OptionsFit(i) && EncodeFailure(i, profile).None?
    ensures DecodeFailure(i.opcode, PredCtrl(i), profile).None?
    ensures
      var j := DecodeFields(i.opcode, PredCtrl(i), profile, EncodeWords(i));
      && j.opcode == i.opcode && j.dtype == EncodingType(i.opcode, i.dtype)
      && j.guard == (if i.guard.Some? then Some(i.guard.value % 8) else None) && j.negated == i.negated
      && j.compare == i.compare && j.space == i.space && j.cvtSource == i.cvtSource && j.family == i.family
  {
    ControlFields(i);
    TypesInvert(profile, EncodingType(i.opcode, i.dtype), TypeCode(EncodingType(i.opcode, i.dtype)));
    if i.compare.Some? { CodesInvert(i.compare.value, Gmem); }
    if i.space.Some? { CodesInvert(Eq, i.space.value); }
    if i.cvtSource.Some? { TypesInvert(profile, i.cvtSource.value, TypeCode(i.cvtSource.value)); }
  }

  lemma LowWordFits(x: int)
    ensures LowWord(x) == x <==> 0 <= x < Full
  {
  }

  /** The two words of a 64-bit immediate. */
  lemma WideImmediate(x: int)
    ensures LowWord(x / Full) * Full + LowWord(x) == x <==> 0 <= x < Full * Full
  {
  }

  lemma NumbersDecode(i: Inst, profile: Profile, ctrl: bv16, w: Words)
    requires DecodeFailure(i.opcode, ctrl, profile).None?
    requires w.w0 == LowWord(if UsesImmediate(i.opcode) then i.imm else i.src3)
    requires w.w1 == LowWord(if i.opcode.LOADI64? then i.imm / Full else i.src2)
    requires w.w2 / Half == i.dest % Half && w.w2 % Half == i.src1 % Half
    ensures
      var j := DecodeFields(i.opcode, ctrl, profile, w);
      (j.dest == i.dest && j.src1 == i.src1 && j.src2 == i.src2 && j.src3 == i.src3 && j.imm == i.imm) <==> NumbersFit(i)
  {
    LowWordFits(i.imm);
    LowWordFits(i.src2);
    LowWordFits(i.src3);
    WideImmediate(i.imm);
  }

  lemma DecodedFits(i: Inst, profile: Profile, ctrl: bv16, w: Words)
    requires DecodeFailure(i.opcode, ctrl, profile).None? && DecodeFields(i.opcode, ctrl, profile, w) == i
    ensures OptionsFit(i)
  {
  }

  lemma DecodeEncoded(i: Inst, profile: Profile)
    requires HasOpcode(profile, i.opcode)
    ensures
      var w, ctrl := EncodeWords(i), PredCtrl(i);
      if DecodeFailure(i.opcode, ctrl, profile).None? then Decode(w, profile) == Ok(DecodeFields(i.opcode, ctrl, profile, w))
      else Decode(w, profile).Err?
  {
    HeaderDecodes(i, profile);
  }

  lemma DecodedNumbers(i: Inst, profile: Profile, ctrl: bv16)
    requires DecodeFailure(i.opcode, ctrl, profile).None? && OptionsFit(i)
    requires var j := DecodeFields(i.opcode, ctrl, profile, EncodeWords(i));
             && j.opcode == i.opcode && j.dtype == EncodingType(i.opcode, i.dtype)
             && j.guard == (if i.guard.Some? then Some(i.guard.value % 8) else None) && j.negated == i.negated
             && j.compare == i.compare && j.space == i.space && j.cvtSource == i.cvtSource && j.family == i.family
    ensures DecodeFields(i.opcode, ctrl, profile, EncodeWords(i)) == i <==> Canonical(i)
  {
    Unpack(i.dest, i.src1);
    NumbersDecode(i, profile, ctrl, EncodeWords(i));
  }

  /** Decoding gives back what was encoded exactly when the instruction is canonical. */
  lemma RoundTripExactly(i: Inst, profile: Profile)
    requires Encode(i, profile).Ok?
    ensures Decode(Encode(i, profile).value, profile) == Ok(i) <==> Canonical(i)
  {
    DecodeEncoded(i, profile);
    if OptionsFit(i) {
      OptionsDecode(i, profile);
      DecodedNumbers(i, profile, PredCtrl(i));
    } else if DecodeFailure(i.opcode, PredCtrl(i), profile).None? {
      if DecodeFields(i.opcode, PredCtrl(i), profile, EncodeWords(i)) == i {
        DecodedFits(i, profile, PredCtrl(i), EncodeWords(i));
      }
    }
  }

  /* ---------- the other way round ---------- */

  /** The bits between type and guard that the opcode does not use. */
  function SpareBits(op: Opcode): bv16 {
    if Compares(op) then 0x3880 else if AccessesMemory(op) then 0x0780 else if IsConversion(op) then 0x0380 else 0x3F80
  }

  /** Spare bits are zero, predicate bits are zero where no predicate is enabled, and BRX enables its predicate. */
  predicate TidyControl(op: Opcode, ctrl: bv16) {
    && ctrl & SpareBits(op) == 0
    && (ctrl & PredEnable != 0 || (op != Control(BRX) && ctrl & 0x4007 == 0))
  }

  predicate TypeFits(op: Opcode, ctrl: bv16, profile: Profile) {
    var t := TypeOf(profile, TypeField(ctrl));
    t.Some? && EncodingType(op, t.value) == t.value
  }

  /** Words without spare bits, of a type that the opcode is encoded with. */
  predicate Tidy(w: Words, profile: Profile) {
    var op, ctrl := OpcodeOf(profile, w.w3 / Half), Bits(w.w3 % Half, 16);
    op.Some? && TidyControl(op.value, ctrl) && TypeFits(op.value, ctrl, profile)
  }

  lemma {:induction false} BelowGrows(b: bv16, k: nat)
    requires Below(b, k)
    ensures Below(b, k + 1)
    decreases k
  {
    if k > 0 {
      BelowGrows(b >> 1, k - 1);
    } else {
      assert b >> 1 == 0;
    }
  }

  lemma {:induction false} BelowMore(b: bv16, k: nat, m: nat)
    requires Below(b, k) && k <= m
    ensures Below(b, m)
    decreases m - k
  {
    if k < m {
      BelowGrows(b, k);
      BelowMore(b, k + 1, m);
    }
  }

  /** A number of 15 bits can be shifted left and back. */
  lemma ShiftBack(b: bv16, odd: bool)
    requires Below(b, 15)
    ensures ((b << 1) | (if odd then 1 else 0)) >> 1 == b
    ensures ((b << 1) | (if odd then 1 else 0)) & 1 == if odd then 1 else 0
  {
    BelowFour(b, 15);
    BelowFour(b >> 4, 11);
    BelowFour((b >> 4) >> 4, 7);
    BelowThree(((b >> 4) >> 4) >> 4);
    TopClear(b);
    ShiftLeftRight(b);
  }

  lemma BelowThree(b: bv16)
    requires Below(b, 3)
    ensures ((b >> 1) >> 1) >> 1 == 0
  {
    assert Below(b >> 1, 2);
    assert Below((b >> 1) >> 1, 1);
    assert Below(((b >> 1) >> 1) >> 1, 0);
  }

  lemma TopClear(b: bv16)
    requires ((((((b >> 4) >> 4) >> 4) >> 1) >> 1) >> 1) == 0
    ensures b & 0x8000 == 0
  {
  }

  lemma ShiftLeftRight(b: bv16)
    requires b & 0x8000 == 0
    ensures ((b << 1) | 1) >> 1 == b && ((b << 1) | 0) >> 1 == b
    ensures ((b << 1) | 1) & 1 == 1 && ((b << 1) | 0) & 1 == 0
  {
  }

  /** One more bit. */
  predicate Longer(b: bv16, high: bv16, odd: bool) { b == (high << 1) | (if odd then 1 else 0) }

  lemma NumberNext(b: bv16, high: bv16, k: nat, odd: bool)
    requires 0 < k && Below(high, 15) && Below(high, k - 1) && Longer(b, high, odd)
    ensures Below(b, k) && Number(b, k) == 2 * Number(high, k - 1) + (if odd then 1 else 0)
  {
    ShiftBack(high, odd);
  }

  lemma BitsNext(n: nat, k: nat)
    requires k > 0
    ensures Longer(Bits(n, k), Bits(n / 2, k - 1), n % 2 == 1)
    ensures n < Power2(k) ==> n / 2 < Power2(k - 1)
  {
  }

  lemma {:induction false} NumberOfBits(n: nat, k: nat)
    requires k <= 16 && n < Power2(k)
    ensures Below(Bits(n, k), k) && Number(Bits(n, k), k) == n
    decreases k
  {
    hide Below, Number, Bits, Power2, Longer;
    if k > 0 {
      BitsNext(n, k);
      NumberOfBits(n / 2, k - 1);
      BelowMore(Bits(n / 2, k - 1), k - 1, 15);
      NumberNext(Bits(n, k), Bits(n / 2, k - 1), k, n % 2 == 1);
    } else {
      NoBits(n);
    }
  }

  lemma NoBits(n: nat)
    requires n < Power2(0)
    ensures Below(Bits(n, 0), 0) && Number(Bits(n, 0), 0) == n
  {
  }

  lemma HalfNumber(n: nat)
    requires n < Half
    ensures Number(Bits(n, 16), 16) == n
  {
    assert Power2(4) == 16;
    assert Power2(8) == 256;
    assert Power2(12) == 4096;
    assert Power2(16) == Half;
    NumberOfBits(n, 16);
  }

  /** The three low bits of a word. */
  lemma LowBack(b: bv16)
    ensures Low3(Number3(b)) == b & 7 && Number3(b) < 8
  {
    LowCases(b & 7);
  }

  lemma LowCases(b: bv16)
    requires b <= 7
    ensures b == 0 || b == 1 || b == 2 || b == 3 || b == 4 || b == 5 || b == 6 || b == 7
  {
  }

  /** The guard bits of a decoded guard are the word's own, exactly when they are tidy. */
  lemma GuardBack(j: Inst, ctrl: bv16)
    requires (j.guard, j.negated) == DecodeGuard(j.opcode, ctrl)
    ensures GuardBits(j) & 0x3FF8 == 0
    ensures GuardBits(j) == ctrl & 0xC007 <==>
              ctrl & PredEnable != 0 || (j.opcode != Control(BRX) && ctrl & 0x4007 == 0)
  {
    LowBack(ctrl);
    if j.guard.Some? {
      GuardJoined(ctrl, j.negated);
    } else {
      GuardAbsent(ctrl);
    }
  }

  lemma GuardJoined(ctrl: bv16, negated: bool)
    requires negated <==> ctrl & PredNegate != 0
    ensures (PredEnable | (ctrl & 7) | (if negated then PredNegate else 0)) & 0x3FF8 == 0
    ensures PredEnable | (ctrl & 7) | (if negated then PredNegate else 0) == ctrl & 0xC007 <==> ctrl & PredEnable != 0
  {
  }

  lemma GuardAbsent(ctrl: bv16)
    ensures ctrl & PredEnable == 0 ==> (0 == ctrl & 0xC007 <==> ctrl & 0x4007 == 0)
  {
  }

  lemma CodesBack(ctrl: bv16)
    ensures CompareOf(CompareField(ctrl)).Some? ==> CompareCode(CompareOf(CompareField(ctrl)).value) == CompareField(ctrl)
    ensures SpaceOf(SpaceField(ctrl)).Some? ==> SpaceCode(SpaceOf(SpaceField(ctrl)).value) == SpaceField(ctrl)
  {
    LowCases(CompareField(ctrl));
    LowCases(SpaceField(ctrl));
  }

  /** Each field in its place. */
  lemma FieldsInPlace(ctrl: bv16)
    ensures (TypeField(ctrl) & 0xF) << 3 == ctrl & 0x78 && (CompareField(ctrl) & 7) << 8 == ctrl & 0x700
    ensures (SpaceField(ctrl) & 7) << 11 == ctrl & 0x3800 && (SourceField(ctrl) & 0xF) << 10 == ctrl & 0x3C00
  {
  }

  lemma CompareMakesUp(ctrl: bv16, guard: bv16)
    requires guard & 0x3FF8 == 0
    ensures ctrl == (ctrl & 0x78) | 0 | guard | (ctrl & 0x700) | 0 <==> guard == ctrl & 0xC007 && ctrl & 0x3880 == 0
  {
  }

  lemma SpaceMakesUp(ctrl: bv16, guard: bv16)
    requires guard & 0x3FF8 == 0
    ensures ctrl == (ctrl & 0x78) | 0 | guard | 0 | (ctrl & 0x3800) <==> guard == ctrl & 0xC007 && ctrl & 0x0780 == 0
  {
  }

  lemma SourceMakesUp(ctrl: bv16, guard: bv16)
    requires guard & 0x3FF8 == 0
    ensures ctrl == (ctrl & 0x78) | (ctrl & 0x3C00) | guard | 0 | 0 <==> guard == ctrl & 0xC007 && ctrl & 0x0380 == 0
  {
  }

  lemma TypeMakesUp(ctrl: bv16, guard: bv16)
    requires guard & 0x3FF8 == 0
    ensures ctrl == (ctrl & 0x78) | 0 | guard | 0 | 0 <==> guard == ctrl & 0xC007 && ctrl & 0x3F80 == 0
  {
  }

  lemma JoinedParts(ctrl: bv16, t: bv16, guard: bv16, source: bv16, compare: bv16, space: bv16,
                    a: bv16, b: bv16, c: bv16, d: bv16)
    requires (t & 0xF) << 3 == a && (source & 0xF) << 10 == b && (compare & 7) << 8 == c && (space & 7) << 11 == d
    ensures Joined(ctrl, t, guard, source, compare, space) <==> ctrl == a | b | guard | c | d
  {
  }

  /** A half-word is the sum of its fields exactly when the bits outside them are zero. */
  lemma WithCompare(ctrl: bv16, guard: bv16)
    requires guard & 0x3FF8 == 0
    ensures Joined(ctrl, TypeField(ctrl), guard, 0, CompareField(ctrl), 0) <==> guard == ctrl & 0xC007 && ctrl & 0x3880 == 0
  {
    hide TypeField, CompareField, SpaceField, SourceField, Joined;
    FieldsInPlace(ctrl);
    ZeroBits();
    JoinedParts(ctrl, TypeField(ctrl), guard, 0, CompareField(ctrl), 0, ctrl & 0x78, 0, ctrl & 0x700, 0);
    CompareMakesUp(ctrl, guard);
  }

  lemma WithSpace(ctrl: bv16, guard: bv16)
    requires guard & 0x3FF8 == 0
    ensures Joined(ctrl, TypeField(ctrl), guard, 0, 0, SpaceField(ctrl)) <==> guard == ctrl & 0xC007 && ctrl & 0x0780 == 0
  {
    hide TypeField, CompareField, SpaceField, SourceField, Joined;
    FieldsInPlace(ctrl);
    ZeroBits();
    JoinedParts(ctrl, TypeField(ctrl), guard, 0, 0, SpaceField(ctrl), ctrl & 0x78, 0, 0, ctrl & 0x3800);
    SpaceMakesUp(ctrl, guard);
  }

  lemma WithSource(ctrl: bv16, guard: bv16)
    requires guard & 0x3FF8 == 0
    ensures Joined(ctrl, TypeField(ctrl), guard, SourceField(ctrl), 0, 0) <==> guard == ctrl & 0xC007 && ctrl & 0x0380 == 0
  {
    hide TypeField, CompareField, SpaceField, SourceField, Joined;
    FieldsInPlace(ctrl);
    ZeroBits();
    JoinedParts(ctrl, TypeField(ctrl), guard, SourceField(ctrl), 0, 0, ctrl & 0x78, ctrl & 0x3C00, 0, 0);
    SourceMakesUp(ctrl, guard);
  }

  lemma WithType(ctrl: bv16, guard: bv16)
    requires guard & 0x3FF8 == 0
    ensures Joined(ctrl, TypeField(ctrl), guard, 0, 0, 0) <==> guard == ctrl & 0xC007 && ctrl & 0x3F80 == 0
  {
    hide TypeField, CompareField, SpaceField, SourceField, Joined;
    FieldsInPlace(ctrl);
    ZeroBits();
    JoinedParts(ctrl, TypeField(ctrl), guard, 0, 0, 0, ctrl & 0x78, 0, 0, 0);
    TypeMakesUp(ctrl, guard);
  }

  /** Another type is never a match. */
  lemma TypeReadBack(ctrl: bv16, t: bv16, guard: bv16, source: bv16, compare: bv16, space: bv16)
    requires t <= 0xF && guard & 0x3FF8 == 0 && Joined(ctrl, t, guard, source, compare, space)
    ensures TypeField(ctrl) == t
  {
  }

  lemma TypeCodesDiffer(profile: Profile, code: bv16, t: DType)
    ensures TypeOf(profile, code).Some? ==> (TypeCode(t) == code <==> t == TypeOf(profile, code).value)
  {
  }

  /** The parts of the control half-word of a decoded instruction. */
  lemma DecodedParts(j: Inst, op: Opcode, ctrl: bv16, profile: Profile, w: Words)
    requires DecodeFailure(op, ctrl, profile).None? && j == DecodeFields(op, ctrl, profile, w)
    ensures OneField(j) && j.opcode == op && (j.guard, j.negated) == DecodeGuard(op, ctrl)
    ensures Compares(op) ==> SourceCode(j) == 0 && CompareBits(j) == CompareField(ctrl) && SpaceBits(j) == 0
    ensures AccessesMemory(op) ==> SourceCode(j) == 0 && CompareBits(j) == 0 && SpaceBits(j) == SpaceField(ctrl)
    ensures IsConversion(op) ==> SourceCode(j) == SourceField(ctrl) && CompareBits(j) == 0 && SpaceBits(j) == 0
    ensures !Compares(op) && !AccessesMemory(op) && !IsConversion(op) ==>
              SourceCode(j) == 0 && CompareBits(j) == 0 && SpaceBits(j) == 0
  {
    hide TypeField, CompareField, SpaceField, SourceField, DecodeGuard, CompareCode, SpaceCode, CompareOf, SpaceOf, TypeCode,
         AnyTypeOf;
    CodesBack(ctrl);
    if IsConversion(op) {
      TypesInvert(profile, j.cvtSource.value, SourceField(ctrl));
    }
  }

  /** The sum of these parts is the half-word exactly when that is tidy. */
  lemma PartsMakeUp(op: Opcode, ctrl: bv16, guard: bv16, source: bv16, compare: bv16, space: bv16)
    requires guard & 0x3FF8 == 0
    requires Compares(op) ==> source == 0 && compare == CompareField(ctrl) && space == 0
    requires AccessesMemory(op) ==> source == 0 && compare == 0 && space == SpaceField(ctrl)
    requires IsConversion(op) ==> source == SourceField(ctrl) && compare == 0 && space == 0
    requires !Compares(op) && !AccessesMemory(op) && !IsConversion(op) ==> source == 0 && compare == 0 && space == 0
    ensures Joined(ctrl, TypeField(ctrl), guard, source, compare, space) <==>
              guard == ctrl & 0xC007 && ctrl & SpareBits(op) == 0
  {
    hide Joined, TypeField, CompareField, SpaceField, SourceField;
    if Compares(op) {
      WithCompare(ctrl, guard);
    } else if AccessesMemory(op) {
      WithSpace(ctrl, guard);
    } else if IsConversion(op) {
      WithSource(ctrl, guard);
    } else {
      WithType(ctrl, guard);
    }
  }

  /** The control half-word of a decoded instruction is the word's own exactly when that is tidy. */
  lemma ControlBack(j: Inst, op: Opcode, ctrl: bv16, profile: Profile, w: Words)
    requires DecodeFailure(op, ctrl, profile).None? && j == DecodeFields(op, ctrl, profile, w)
    ensures PredCtrl(j) == ctrl <==> TidyControl(op, ctrl) && TypeFits(op, ctrl, profile)
  {
    hide PredCtrl, GuardBits, Joined, TypeField, CompareField, SpaceField, SourceField, SourceCode, CompareBits, SpaceBits,
         DecodeGuard, SpareBits, TypeCode, AnyTypeOf, CompareOf, SpaceOf;
    var t, guard := TypeCode(EncodingType(op, j.dtype)), GuardBits(j);
    var source, compare, space := SourceCode(j), CompareBits(j), SpaceBits(j);
    DecodedParts(j, op, ctrl, profile, w);
    GuardBack(j, ctrl);
    PredCtrlFields(j);
    CodeRanges(EncodingType(op, j.dtype), Eq, Gmem);
    PartsMakeUp(op, ctrl, guard, source, compare, space);
    TypeCodesDiffer(profile, TypeField(ctrl), EncodingType(op, j.dtype));
    if Joined(ctrl, t, guard, source, compare, space) {
      TypeReadBack(ctrl, t, guard, source, compare, space);
    }
    SameJoined(PredCtrl(j), ctrl, t, guard, source, compare, space);
  }

  lemma SameJoined(a: bv16, b: bv16, t: bv16, guard: bv16, source: bv16, compare: bv16, space: bv16)
    requires Joined(a, t, guard, source, compare, space)
    ensures a == b <==> Joined(b, t, guard, source, compare, space)
  {
  }

  lemma NumbersBack(j: Inst, op: Opcode, ctrl: bv16, profile: Profile, w: Words)
    requires DecodeFailure(op, ctrl, profile).None? && j == DecodeFields(op, ctrl, profile, w)
    ensures EncodeWords(j).w0 == w.w0 && EncodeWords(j).w1 == w.w1 && EncodeWords(j).w2 == w.w2
  {
    hide PredCtrl, DecodeGuard, TypeOf, CompareOf, SpaceOf, OpcodeCode;
    PackBack(w.w2);
  }

  lemma PackBack(w: Word)
    ensures Pack(w / Half, w % Half) == w
  {
  }

  lemma HeaderBack(j: Inst, profile: Profile, w: Word)
    requires OpcodeOf(profile, w / Half) == Some(j.opcode)
    ensures EncodeWords(j).w3 == w <==> PredCtrl(j) == Bits(w % Half, 16)
  {
    hide PredCtrl, Bits, Number;
    OpcodesInvert(profile, j.opcode, w / Half);
    HalfWord(PredCtrl(j));
    HalfNumber(w % Half);
    PackBack(w);
    HeaderUnpack(EncodeWords(j).w3, w / Half, Number(PredCtrl(j), 16));
  }

  lemma DecodedEncodes(j: Inst, op: Opcode, ctrl: bv16, profile: Profile, w: Words)
    requires HasOpcode(profile, op) && DecodeFailure(op, ctrl, profile).None? && j == DecodeFields(op, ctrl, profile, w)
    ensures EncodeFailure(j, profile).None?
  {
    TypesInvert(profile, j.dtype, TypeField(ctrl));
    if IsConversion(op) {
      TypesInvert(profile, j.cvtSource.value, SourceField(ctrl));
    }
  }

  /** Whatever decodes encodes again, and gives the same words exactly when they are tidy. */
  lemma ReencodesExactly(w: Words, profile: Profile)
    requires Decode(w, profile).Ok?
    ensures Encode(Decode(w, profile).value, profile).Ok?
    ensures Encode(Decode(w, profile).value, profile).value == w <==> Tidy(w, profile)
  {
    hide PredCtrl, DecodeGuard, Bits, TidyControl, TypeFits, EncodeWords;
    var op, ctrl, j := OpcodeOf(profile, w.w3 / Half).value, Bits(w.w3 % Half, 16), Decode(w, profile).value;
    OpcodesInvert(profile, op, w.w3 / Half);
    DecodedEncodes(j, op, ctrl, profile, w);
    ControlBack(j, op, ctrl, profile, w);
    NumbersBack(j, op, ctrl, profile, w);
    HeaderBack(j, profile, w.w3);
  }

  /* ---------- byte streams ---------- */

  type Byte = M.Byte

  function WordBytes(w: Word): (r: seq<Byte>)
    ensures |r| == 4
  {
    M.WordBytes(w, 4)
  }

  function BytesWord(b: seq<Byte>): Word
    requires |b| == 4
  {
    M.ReadWord(b, 0)
  }

  lemma WordBytesInvert(w: Word)
    ensures BytesWord(WordBytes(w)) == w
  {
    var a: int, b: int := w / 0x100, w / 0x1_0000;
    assert a / 0x100 == b && b / 0x100 == w / 0x100_0000;
  }

  function WordsBytes(w: Words): (r: seq<Byte>)
    ensures |r| == 16
  {
    WordBytes(w.w0) + WordBytes(w.w1) + WordBytes(w.w2) + WordBytes(w.w3)
  }

  function BytesWords(b: seq<Byte>): Words
    requires |b| == 16
  {
    Words(BytesWord(b[..4]), BytesWord(b[4..8]), BytesWord(b[8..12]), BytesWord(b[12..]))
  }

  lemma WordsBytesInvert(w: Words)
    ensures BytesWords(WordsBytes(w)) == w
  {
    var b := WordsBytes(w);
    assert b[..4] == WordBytes(w.w0) && b[4..8] == WordBytes(w.w1) && b[8..12] == WordBytes(w.w2);
    assert b[12..] == WordBytes(w.w3);
    WordBytesInvert(w.w0);
    WordBytesInvert(w.w1);
    WordBytesInvert(w.w2);
    WordBytesInvert(w.w3);
  }

  /** The words of a byte stream. */
  function Chunks(b: seq<Byte>): (r: seq<Words>)
    requires |b| % 16 == 0
  {
    if b == [] then [] else [BytesWords(b[..16])] + Chunks(b[16..])
  }

  method BytesToWords(blob: seq<Byte>) returns (r: Result<seq<Words>>)
    ensures r == if |blob| % 16 == 0 then Ok(Chunks(blob)) else Err(BadLength)
  {
    if |blob| % 16 != 0 {
      return Err(BadLength);
    }
    var words: seq<Words> := [];
    var at := 0;
    assert blob[0..] == blob;
    while at < |blob|
      invariant at <= |blob| && at % 16 == 0
      invariant words + Chunks(blob[at..]) == Chunks(blob)
    {
      assert blob[at..][..16] == blob[at..at + 16] && blob[at..][16..] == blob[at + 16..];
      words := words + [BytesWords(blob[at..at + 16])];
      at := at + 16;
    }
    assert blob[at..] == [] && words + [] == words;
    r := Ok(words);
  }

  /** The first failure, or the bytes of all instructions. */
  function Stream(insts: seq<Inst>, profile: Profile): Result<seq<Byte>> {
    if insts == [] then Ok([])
    else
      match Encode(insts[0], profile)
      case Err(e) => Err(e)
      case Ok(w) =>
        match Stream(insts[1..], profile)
        case Err(e) => Err(e)
        case Ok(rest) => Ok(WordsBytes(w) + rest)
  }

  method InstructionsToBytes(insts: seq<Inst>, profile: Profile) returns (r: Result<seq<Byte>>)
    ensures r == Stream(insts, profile)
  {
    var out: seq<Byte> := [];
    assert insts[0..] == insts && Prepend([], Stream(insts, profile)) == Stream(insts, profile) by {
      if Stream(insts, profile).Ok? {
        assert [] + Stream(insts, profile).value == Stream(insts, profile).value;
      }
    }
    for k := 0 to |insts|
      invariant Stream(insts, profile) == Prepend(out, Stream(insts[k..], profile))
    {
      var encoded := Encode(insts[k], profile);
      assert insts[k..][1..] == insts[k + 1..];
      if encoded.Err? {
        return Err(encoded.error);
      }
      out := out + WordsBytes(encoded.value);
      PrependTwice(out[..|out| - 16], WordsBytes(encoded.value), Stream(insts[k + 1..], profile));
    }
    assert insts[|insts|..] == [] && out + [] == out;
    r := Ok(out);
  }

  function Prepend(b: seq<Byte>, r: Result<seq<Byte>>): Result<seq<Byte>> {
    if r.Ok? then Ok(b + r.value) else r
  }

  lemma PrependTwice(a: seq<Byte>, b: seq<Byte>, r: Result<seq<Byte>>)
    ensures Prepend(a + b, r) == Prepend(a, Prepend(b, r))
  {
    if r.Ok? {
      assert a + b + r.value == a + (b + r.value);
    }
  }

  /** Decodes all the words. */
  function DecodeAll(words: seq<Words>, profile: Profile): Result<seq<Inst>> {
    if words == [] then Ok([])
    else
      match Decode(words[0], profile)
      case Err(e) => Err(e)
      case Ok(i) =>
        match DecodeAll(words[1..], profile)
        case Err(e) => Err(e)
        case Ok(rest) => Ok([i] + rest)
  }

  /** Byte streams of any length decode to the instructions they were written from. */
  lemma {:induction false} StreamRoundTrip(insts: seq<Inst>, profile: Profile)
    requires forall k | 0 <= k < |insts| :: Canonical(insts[k]) && EncodeFailure(insts[k], profile).None?
    ensures Stream(insts, profile).Ok? && |Stream(insts, profile).value| == 16 * |insts|
    ensures DecodeAll(Chunks(Stream(insts, profile).value), profile) == Ok(insts)
  {
    if insts != [] {
      StreamRoundTrip(insts[1..], profile);
      var w, rest := EncodeWords(insts[0]), Stream(insts[1..], profile).value;
      var b := WordsBytes(w) + rest;
      assert b[..16] == WordsBytes(w) && b[16..] == rest;
      WordsBytesInvert(w);
      RoundTripExactly(insts[0], profile);
      assert [insts[0]] + insts[1..] == insts;
    }
  }

  lemma Digit(low: int, high: int)
    requires 0 <= low < 0x100 && 0 <= high
    ensures (low + 0x100 * high) / 0x100 == high && (low + 0x100 * high) % 0x100 == low
  {
  }

  lemma Digits(b0: int, b1: int, b2: int, b3: int, w: int)
    requires 0 <= b0 < 0x100 && 0 <= b1 < 0x100 && 0 <= b2 < 0x100 && 0 <= b3 < 0x100
    requires w == b0 + 0x100 * b1 + 0x1_0000 * b2 + 0x100_0000 * b3
    ensures w % 0x100 == b0 && w / 0x100 % 0x100 == b1 && w / 0x1_0000 % 0x100 == b2 && w / 0x100_0000 == b3
  {
    var high := b1 + 0x100 * (b2 + 0x100 * b3);
    Digit(b0, high);
    Digit(b1, b2 + 0x100 * b3);
    Digit(b2, b3);
    assert w / 0x1_0000 == high / 0x100 && w / 0x100_0000 == (high / 0x100) / 0x100;
  }

  lemma BytesWordBack(b: seq<Byte>)
    requires |b| == 4
    ensures WordBytes(BytesWord(b)) == b
  {
    Digits(b[0], b[1], b[2], b[3], BytesWord(b));
  }

  lemma BytesWordsBack(b: seq<Byte>)
    requires |b| == 16
    ensures WordsBytes(BytesWords(b)) == b
  {
    BytesWordBack(b[..4]);
    BytesWordBack(b[4..8]);
    BytesWordBack(b[8..12]);
    BytesWordBack(b[12..]);
    assert b == b[..4] + b[4..8] + b[8..12] + b[12..];
  }

  lemma SameChunk(w: Words, b: seq<Byte>)
    requires |b| == 16
    ensures WordsBytes(w) == b <==> w == BytesWords(b)
  {
    hide WordsBytes, BytesWords;
    BytesWordsBack(b);
    WordsBytesInvert(w);
  }

  lemma AppendSame(a: seq<Byte>, b: seq<Byte>, c: seq<Byte>, d: seq<Byte>)
    requires |a| == |c|
    ensures a + b == c + d <==> a == c && b == d
  {
    assert (a + b)[..|a|] == a && (a + b)[|a|..] == b && (c + d)[..|c|] == c && (c + d)[|c|..] == d;
  }

  predicate AllTidy(words: seq<Words>, profile: Profile) { forall k | 0 <= k < |words| :: Tidy(words[k], profile) }

  /** A binary that decodes can be written again, and is the same exactly when all its words are tidy. */
  lemma {:induction false} StreamReencodesExactly(blob: seq<Byte>, profile: Profile)
    requires |blob| % 16 == 0 && DecodeAll(Chunks(blob), profile).Ok?
    ensures Stream(DecodeAll(Chunks(blob), profile).value, profile).Ok?
    ensures Stream(DecodeAll(Chunks(blob), profile).value, profile).value == blob <==> AllTidy(Chunks(blob), profile)
    decreases |blob|
  {
    hide Tidy, Encode, Decode, WordsBytes, BytesWords;
    if blob != [] {
      var first, rest := blob[..16], blob[16..];
      var w, words := BytesWords(first), Chunks(rest);
      assert Chunks(blob) == [w] + words && words == Chunks(blob)[1..];
      StreamReencodesExactly(rest, profile);
      ReencodesExactly(w, profile);
      var j, more := Decode(w, profile).value, DecodeAll(words, profile).value;
      assert DecodeAll(Chunks(blob), profile).value == [j] + more && ([j] + more)[1..] == more;
      SameChunk(Encode(j, profile).value, first);
      AppendSame(WordsBytes(Encode(j, profile).value), Stream(more, profile).value, first, rest);
      assert blob == first + rest;
      assert AllTidy(Chunks(blob), profile) <==> Tidy(w, profile) && AllTidy(words, profile);
    }
  }
}
