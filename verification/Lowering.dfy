/**
 The AEC code of PTX instructions on 32-bit values: what they compute in registers, their loads and their stores;
 and that each lane does with it what the PTX machine does.
 */
module Lowering {
  import opened Isa
  import M = Machine
  import opened Ptx
  import opened LocalCse

  /** Where registers live, and which comparison an opcode names. */
  datatype Homes = Homes(place: Reg -> nat, compare: nat -> Compare)

  const FirstTemp: nat := 240

  function TypeOf(t: Ty): DType {
    match t
    case U32 => DType.U32
    case S32 => DType.S32
    case F32 => DType.F32
    case _ => DType.B32
  }

  predicate WordType(t: Ty) { IsInt32(t) || t.F32? }

  function Emitted(op: Opcode, t: DType, dest: nat, srcs: seq<nat>, imm: int): Inst {
    Inst(op, t, dest, if |srcs| > 0 then srcs[0] else 0, if |srcs| > 1 then srcs[1] else 0,
         if |srcs| > 2 then srcs[2] else 0, imm, None, false, None, None, None, 0)
  }

  function LoadImmediate(dest: nat, v: int): Inst { Emitted(LOADI, NoType, dest, [], v) }

  predicate IsSource(o: Operand) { (o.RegOp? && !IsPredicate(o.reg) && !IsPairName(o.reg)) || o.Imm? || o.FloatImm? }

  function ImmediateOf(o: Operand): int { if o.Imm? then o.value else if o.FloatImm? then o.bits else 0 }

  /** The code that makes operands available, and the registers they are in. */
  datatype Sources = Sources(code: seq<Inst>, regs: seq<nat>)

  /** `_operand_reg` for each operand: immediates are loaded into temporaries. */
  function LowerSources(ops: seq<Operand>, t: Homes, temp: nat): (r: Sources)
    ensures |r.regs| == |ops|
  {
    if ops == [] then Sources([], [])
    else if ops[0].RegOp? then
      var rest := LowerSources(ops[1..], t, temp);
      Sources(rest.code, [t.place(ops[0].reg)] + rest.regs)
    else
      var rest := LowerSources(ops[1..], t, temp + 1);
      Sources([LoadImmediate(temp, ImmediateOf(ops[0]))] + rest.code, [temp] + rest.regs)
  }

  predicate HasGuardNumber(i: Instr) { i.guard.Some? ==> PredicateNumber(i.guard.value).Some? }

  /** Instructions on 32-bit registers, predicates and immediates that compute without memory. */
  predicate Computes(i: Instr) {
    && !i.cc && WordType(i.ty) && i.operands != [] && i.operands[0].RegOp? && HasGuardNumber(i)
    && (forall k | 1 <= k < |i.operands| :: IsSource(i.operands[k]))
    && (match i.base
        case Pure(op) => !op.Cvt? && |i.operands| == OperandCount(op) && IsSource(i.operands[0])
        case Fma => i.ty.F32? && |i.operands| == 4 && IsSource(i.operands[0])
        case Setp => |i.operands| == 3 && PredicateNumber(i.operands[0].reg).Some?
        case _ => false)
  }

  predicate IsWordRegister(o: Operand) { o.RegOp? && IsSource(o) }

  predicate IsAddress(o: Operand) { o.Addr? && !IsPredicate(o.reg) }

  /** Loads and stores of 32-bit words in global memory. */
  predicate Accesses(i: Instr) {
    && !i.cc && WordType(i.ty) && |i.operands| == 2 && HasGuardNumber(i)
    && ((i.base.Ld? && IsWordRegister(i.operands[0]) && IsAddress(i.operands[1]))
        || (i.base.St? && IsAddress(i.operands[0]) && IsWordRegister(i.operands[1])))
  }

  predicate Lowerable(i: Instr) { Computes(i) || Accesses(i) }

  function OpcodeOf(b: Base): Opcode
    requires b.Pure? || b.Fma?
  {
    if b.Fma? then Ternary(FMA)
    else
      match b.op
      case Add => Binary(ADD)
      case Sub => Binary(SUB)
      case Mul => Binary(MUL)
      case And => Binary(AND)
      case Or => Binary(OR)
      case Xor => Binary(XOR)
      case Shl => Binary(SHL)
      case Shr => Binary(SHR)
      case Mad => Ternary(MAD)
      case _ => CPY
  }

  /** `Lowerer._guard` */
  function WithGuard(inst: Inst, i: Instr): Inst
    requires i.guard.Some? ==> PredicateNumber(i.guard.value).Some?
  {
    if i.guard.None? then inst
    else inst.(guard := Some(PredicateNumber(i.guard.value).value), negated := i.negated)
  }

  predicate LoadsDestination(i: Instr)
    requires Lowerable(i)
  {
    i.base == Pure(Mov) && !i.operands[1].RegOp?
  }

  /** The code that makes the operands of an instruction available. */
  function SourcesOf(i: Instr, t: Homes): Sources
    requires Lowerable(i)
  {
    if Accesses(i) || LoadsDestination(i) then Sources([], []) else LowerSources(i.operands[1..], t, FirstTemp)
  }

  /** `_lower_ld_global` and `_lower_st_global` */
  function AccessInst(i: Instr, t: Homes): Inst
    requires Accesses(i)
  {
    var d, a := t.place(i.operands[0].reg), t.place(i.operands[1].reg);
    if i.base.Ld? then Inst(LD, TypeOf(i.ty), d, a, 0, 0, 0, None, false, None, Some(Gmem), None, 0)
    else Inst(ST, TypeOf(i.ty), 0, d, a, 0, 0, None, false, None, Some(Gmem), None, 0)
  }

  /** The last instruction emitted, before its guard; a move of an immediate loads its destination. */
  function FinalInst(i: Instr, t: Homes): Inst
    requires Lowerable(i)
  {
    var srcs := SourcesOf(i, t).regs;
    if Accesses(i) then AccessInst(i, t)
    else
      var d := i.operands[0].reg;
      if LoadsDestination(i) then LoadImmediate(t.place(d), ImmediateOf(i.operands[1]))
      else if i.base.Setp? then
        Emitted(CMPP, TypeOf(i.ty), PredicateNumber(d).value, srcs, 0).(compare := Some(t.compare(i.mods)))
      else Emitted(OpcodeOf(i.base), if i.base == Pure(Shl) then DType.U32 else TypeOf(i.ty), t.place(d), srcs, 0)
  }

  /** `_lower_instruction` */
  function LowerInstr(i: Instr, t: Homes): seq<Inst>
    requires Lowerable(i)
  {
    SourcesOf(i, t).code + [WithGuard(FinalInst(i, t), i)]
  }

  /* ---------- one lane ---------- */

  /** A lane on its own, with the memory. */
  datatype Single = Single(lane: M.Lane, mem: M.Memory)

  function LaneRun(fpu: M.Fpu, code: seq<Inst>, lane: M.Lane, mem: M.Memory): Option<Single> {
    if code == [] then Some(Single(lane, mem))
    else
      var e := M.LaneEffect(fpu, code[0], lane, mem);
      if e.Trap? then None else LaneRun(fpu, code[1..], M.ApplyLane(e, lane), M.ApplyMem(e, mem))
  }

  lemma {:induction false} LaneRunAppend(fpu: M.Fpu, a: seq<Inst>, b: seq<Inst>, lane: M.Lane, mem: M.Memory)
    ensures LaneRun(fpu, a + b, lane, mem) ==
            match LaneRun(fpu, a, lane, mem) case None => None case Some(next) => LaneRun(fpu, b, next.lane, next.mem)
    decreases |a|
  {
    if a == [] {
      assert a + b == b;
    } else {
      assert (a + b)[1..] == a[1..] + b;
      var e := M.LaneEffect(fpu, a[0], lane, mem);
      if !e.Trap? {
        LaneRunAppend(fpu, a[1..], b, M.ApplyLane(e, lane), M.ApplyMem(e, mem));
      }
    }
  }

  lemma LaneRunOne(fpu: M.Fpu, inst: Inst, lane: M.Lane, mem: M.Memory)
    ensures LaneRun(fpu, [inst], lane, mem) ==
            var e := M.LaneEffect(fpu, inst, lane, mem);
            if e.Trap? then None else Some(Single(M.ApplyLane(e, lane), M.ApplyMem(e, mem)))
  {
    var e := M.LaneEffect(fpu, inst, lane, mem);
    if !e.Trap? {
      NothingRuns(fpu, M.ApplyLane(e, lane), M.ApplyMem(e, mem));
    }
  }

  lemma NothingRuns(fpu: M.Fpu, lane: M.Lane, mem: M.Memory)
    ensures LaneRun(fpu, [], lane, mem) == Some(Single(lane, mem))
  {
  }

  /** The lanes are the same but for temporaries from `temp` on. */
  predicate SameBelow(a: M.Lane, b: M.Lane, temp: nat) {
    a.preds == b.preds && a.special == b.special && forall k | 0 <= k < 256 && k < temp :: a.regs[k] == b.regs[k]
  }

  /** Distinct registers live in distinct places, outside the temporaries. */
  ghost predicate Placed(names: set<Reg>, t: Homes) {
    && (forall r | r in names && !IsPredicate(r) :: t.place(r) < FirstTemp)
    && (forall r, q | r in names && q in names && r != q && !IsPredicate(r) && !IsPredicate(q) :: t.place(r) != t.place(q))
  }

  /** The lane holds the values of the registers, and its predicates are the nonzero ones. */
  ghost predicate Carries(names: set<Reg>, t: Homes, regs: map<Reg, Word>, lane: M.Lane) {
    && (forall r | r in names && !IsPredicate(r) && t.place(r) < 256 :: lane.regs[t.place(r)] == Get(regs, r))
    && (forall n | 0 <= n < 8 :: lane.preds[n] <==> Get(regs, Reg(PClass, n)) != 0)
  }

  /** The PTX operations left open are those of the floating-point unit, where it does not overflow. */
  ghost predicate Implements(fpu: M.Fpu, unit: Unit, t: Homes) {
    && (forall mods: nat, a: Word, b: Word ::
          && Gives(fpu.add(a, b), unit.pure(Add, mods, Ty.F32, [a, b]))
          && Gives(fpu.sub(a, b), unit.pure(Sub, mods, Ty.F32, [a, b]))
          && Gives(fpu.mul(a, b), unit.pure(Mul, mods, Ty.F32, [a, b])))
    && (forall mods: nat, a: Word, b: Word, c: Word ::
          && Gives(fpu.fma(a, b, c), unit.fma(mods, Ty.F32, [a, b, c]))
          && (fpu.mul(a, b).Some? ==> Gives(fpu.add(fpu.mul(a, b).value, c), unit.pure(Mad, mods, Ty.F32, [a, b, c]))))
    && (forall mods: nat, ty: Ty, a: Word, b: Word ::
          unit.setp(mods, ty, [a, b]) <==>
            if ty.F32? then fpu.compare(t.compare(mods), a, b) else M.CompareWords(t.compare(mods), a, b))
  }

  predicate Gives(result: Option<Word>, w: Word) { result.Some? ==> result.value == w }

  /** No result is too large for single precision. */
  ghost predicate NeverOverflows(fpu: M.Fpu) {
    && (forall a: Word, b: Word :: fpu.add(a, b).Some? && fpu.sub(a, b).Some? && fpu.mul(a, b).Some?)
    && (forall a: Word, b: Word, c: Word :: fpu.fma(a, b, c).Some?)
  }

  /** The operations that can overflow. */
  predicate MayOverflow(i: Instr) {
    i.ty.F32? && (i.base.Fma? || (i.base.Pure? && (i.base.op.Add? || i.base.op.Sub? || i.base.op.Mul? || i.base.op.Mad?)))
  }

  ghost predicate Overflowing(fpu: M.Fpu, i: Instr) { MayOverflow(i) && !NeverOverflows(fpu) }

  /** An immediate is loaded into a temporary, and the rest of the code runs. */
  lemma ImmediateLoaded(fpu: M.Fpu, temp: nat, v: int, rest: seq<Inst>, lane: M.Lane, mem: M.Memory)
    requires temp < 256
    ensures LaneRun(fpu, [LoadImmediate(temp, v)] + rest, lane, mem)
         == LaneRun(fpu, rest, lane.(regs := lane.regs[temp := M.Wrap(v)]), mem)
  {
    var load := LoadImmediate(temp, v);
    assert M.LaneEffect(fpu, load, lane, mem) == M.SetReg(temp, M.Wrap(v));
    LaneRunOne(fpu, load, lane, mem);
    LaneRunAppend(fpu, [load], rest, lane, mem);
  }

  lemma SourceHeld(unit: Unit, o: Operand, t: Homes, names: set<Reg>, regs: map<Reg, Word>, lane: M.Lane)
    requires Placed(names, t) && Carries(names, t, regs, lane) && IsSource(o) && OperandRegs(o) <= names && o.RegOp?
    ensures t.place(o.reg) < FirstTemp && lane.regs[t.place(o.reg)] == Value(unit, o, regs)
  {
    assert o.reg in OperandRegs(o);
  }

  lemma TemporaryCarries(names: set<Reg>, t: Homes, regs: map<Reg, Word>, lane: M.Lane, temp: nat, w: Word)
    requires Placed(names, t) && Carries(names, t, regs, lane) && FirstTemp <= temp < 256
    ensures Carries(names, t, regs, lane.(regs := lane.regs[temp := w]))
  {
  }

  /** The operands are in the registers named for them. */
  lemma {:induction false} SourcesLoaded(fpu: M.Fpu, unit: Unit, ops: seq<Operand>, t: Homes, temp: nat,
                                         names: set<Reg>, regs: map<Reg, Word>, lane: M.Lane, mem: M.Memory)
    requires FirstTemp <= temp && temp + |ops| <= 256 && Placed(names, t) && Carries(names, t, regs, lane)
    requires forall k | 0 <= k < |ops| :: IsSource(ops[k]) && OperandRegs(ops[k]) <= names
    ensures
      var s := LowerSources(ops, t, temp);
      var after := LaneRun(fpu, s.code, lane, mem);
      && after.Some? && after.value.mem == mem && SameBelow(after.value.lane, lane, temp)
      && forall k | 0 <= k < |ops| :: s.regs[k] < 256 && after.value.lane.regs[s.regs[k]] == Value(unit, ops[k], regs)
    decreases |ops|
  {
    hide Placed, Carries, LaneRun, IsSource;
    var s := LowerSources(ops, t, temp);
    if ops == [] {
      NothingRuns(fpu, lane, mem);
    } else {
      var o, rest := ops[0], ops[1..];
      if o.RegOp? {
        SourceHeld(unit, o, t, names, regs, lane);
        SourcesLoaded(fpu, unit, rest, t, temp, names, regs, lane, mem);
      } else {
        var v := ImmediateOf(o);
        TemporaryCarries(names, t, regs, lane, temp, M.Wrap(v));
        ImmediateLoaded(fpu, temp, v, LowerSources(rest, t, temp + 1).code, lane, mem);
        SourcesLoaded(fpu, unit, rest, t, temp + 1, names, regs, lane.(regs := lane.regs[temp := M.Wrap(v)]), mem);
        ImmediateValue(unit, o, regs);
      }
      SourcesJoin(unit, ops, regs, LaneRun(fpu, s.code, lane, mem).value.lane, s.regs);
    }
  }

  lemma ImmediateValue(unit: Unit, o: Operand, regs: map<Reg, Word>)
    requires IsSource(o) && !o.RegOp?
    ensures Value(unit, o, regs) == M.Wrap(ImmediateOf(o))
  {
  }

  lemma SourcesJoin(unit: Unit, ops: seq<Operand>, regs: map<Reg, Word>, lane: M.Lane, at: seq<nat>)
    requires ops != [] && |at| == |ops| && at[0] < 256 && lane.regs[at[0]] == Value(unit, ops[0], regs)
    requires forall k | 0 <= k < |ops[1..]| :: at[1..][k] < 256 && lane.regs[at[1..][k]] == Value(unit, ops[1..][k], regs)
    ensures forall k | 0 <= k < |ops| :: at[k] < 256 && lane.regs[at[k]] == Value(unit, ops[k], regs)
  {
    forall k | 0 <= k < |ops|
      ensures at[k] < 256 && lane.regs[at[k]] == Value(unit, ops[k], regs)
    {
      if k > 0 {
        assert at[k] == at[1..][k - 1] && ops[k] == ops[1..][k - 1];
      }
    }
  }

  /** The result of an instruction that computes from the values `v`. */
  function Computed(unit: Unit, i: Instr, v: seq<Word>): Word
    requires i.base.Pure? || i.base.Fma?
  {
    if i.base.Fma? then unit.fma(i.mods, i.ty, v) else PureResult(unit, i.base.op, i.mods, i.ty, v)
  }

  /** One bitwise operation on words. */
  function Bitwise(op: PureOp, a: Word, b: Word): Word
    requires op.And? || op.Or? || op.Xor? || op.Shl? || op.Shr?
  {
    match op
    case And => M.BitAnd(a, b)
    case Or => M.BitOr(a, b)
    case Xor => M.BitXor(a, b)
    case Shl => M.ShiftLeft(a, b)
    case _ => M.ShiftRight(a, b)
  }

  lemma BitwiseResult(unit: Unit, op: PureOp, mods: nat, ty: Ty, v: seq<Word>)
    requires |v| == 2 && (op.And? || op.Or? || op.Xor? || op.Shl? || op.Shr?)
    ensures PureResult(unit, op, mods, ty, v) == Bitwise(op, v[0], v[1])
  {
  }

  lemma BitwiseAgrees(fpu: M.Fpu, op: PureOp, t: DType, a: Word, b: Word)
    requires op.And? || op.Or? || op.Xor? || op.Shl? || op.Shr?
    ensures OpcodeOf(Pure(op)).Binary?
    ensures M.BinaryResult(fpu, OpcodeOf(Pure(op)).bin, t, a, b) == Some(Bitwise(op, a, b))
  {
    hide M.BitAnd, M.BitOr, M.BitXor, M.ShiftLeft, M.ShiftRight;
  }

  lemma ArithmeticAgrees(fpu: M.Fpu, unit: Unit, op: PureOp, mods: nat, ty: Ty, t: Homes, a: Word, b: Word)
    requires (op.Add? || op.Sub? || op.Mul?) && WordType(ty) && Implements(fpu, unit, t)
    ensures OpcodeOf(Pure(op)).Binary?
    ensures
      var result := M.BinaryResult(fpu, OpcodeOf(Pure(op)).bin, TypeOf(ty), a, b);
      Gives(result, PureResult(unit, op, mods, ty, [a, b])) && (!ty.F32? || NeverOverflows(fpu) ==> result.Some?)
  {
    if ty.F32? {
      assert unit.pure(op, mods, Ty.F32, [a, b]) == PureResult(unit, op, mods, ty, [a, b]);
      assert Gives(fpu.add(a, b), unit.pure(Add, mods, Ty.F32, [a, b]));
    }
  }

  lemma BinaryAgrees(fpu: M.Fpu, unit: Unit, i: Instr, t: Homes, a: Word, b: Word)
    requires Computes(i) && i.base.Pure? && |i.operands| == 3 && Implements(fpu, unit, t)
    ensures OpcodeOf(i.base).Binary?
    ensures
      var ty := if i.base == Pure(Shl) then DType.U32 else TypeOf(i.ty);
      var result := M.BinaryResult(fpu, OpcodeOf(i.base).bin, ty, a, b);
      Gives(result, Computed(unit, i, [a, b])) && (!Overflowing(fpu, i) ==> result.Some?)
  {
    var op := i.base.op;
    if op.Add? || op.Sub? || op.Mul? {
      ArithmeticAgrees(fpu, unit, op, i.mods, i.ty, t, a, b);
    } else {
      BitwiseAgrees(fpu, op, if op.Shl? then DType.U32 else TypeOf(i.ty), a, b);
      BitwiseResult(unit, op, i.mods, i.ty, [a, b]);
    }
  }

  lemma TernaryAgrees(fpu: M.Fpu, unit: Unit, i: Instr, t: Homes, a: Word, b: Word, c: Word)
    requires Computes(i) && |i.operands| == 4 && Implements(fpu, unit, t)
    ensures OpcodeOf(i.base).Ternary?
    ensures
      var result := M.TernaryResult(fpu, OpcodeOf(i.base).tern, TypeOf(i.ty), a, b, c);
      Gives(result, Computed(unit, i, [a, b, c])) && (!Overflowing(fpu, i) ==> result.Some?)
  {
    assert Gives(fpu.fma(a, b, c), unit.fma(i.mods, Ty.F32, [a, b, c]));
    assert fpu.mul(a, b).Some? ==> Gives(fpu.add(fpu.mul(a, b).value, c), unit.pure(Mad, i.mods, Ty.F32, [a, b, c]));
    if NeverOverflows(fpu) {
      assert fpu.fma(a, b, c).Some? && fpu.mul(a, b).Some? && fpu.add(fpu.mul(a, b).value, c).Some?;
    }
  }

  lemma MoveResult(unit: Unit, mods: nat, ty: Ty, w: Word)
    ensures PureResult(unit, Mov, mods, ty, [w]) == w
  {
  }

  lemma ComparisonAgrees(fpu: M.Fpu, unit: Unit, i: Instr, t: Homes, a: Word, b: Word)
    requires Implements(fpu, unit, t)
    ensures unit.setp(i.mods, i.ty, [a, b]) <==>
              if i.ty.F32? then fpu.compare(t.compare(i.mods), a, b) else M.CompareWords(t.compare(i.mods), a, b)
  {
  }

  /** The operands of the last instruction are where it reads them. */
  predicate Ready(unit: Unit, i: Instr, t: Homes, s: State, lane: M.Lane)
    requires Lowerable(i)
  {
    var srcs := SourcesOf(i, t).regs;
    |srcs| < |i.operands|
    && forall k | 0 <= k < |srcs| :: srcs[k] < 256 && lane.regs[srcs[k]] == Value(unit, i.operands[1..][k], s.regs)
  }

  /** What a computing instruction writes. */
  function Written(unit: Unit, i: Instr, t: Homes, regs: map<Reg, Word>): M.Effect
    requires Computes(i)
  {
    var d, v := i.operands[0].reg, Values(unit, i.operands[1..], regs);
    if i.base.Setp? then M.SetPred(PredicateNumber(d).value, unit.setp(i.mods, i.ty, v))
    else M.SetReg(t.place(d), Computed(unit, i, v))
  }

  /** The last instruction writes what the PTX instruction computes, or traps on an overflow. */
  lemma FinalEffect(fpu: M.Fpu, unit: Unit, i: Instr, t: Homes, s: State, lane: M.Lane, mem: M.Memory)
    requires Computes(i) && Implements(fpu, unit, t) && Ready(unit, i, t, s, lane)
    requires !i.base.Setp? ==> t.place(i.operands[0].reg) < 256
    ensures
      var e := M.Execute(fpu, FinalInst(i, t), lane, mem);
      (e.Trap? || e == Written(unit, i, t, s.regs)) && (e.Trap? ==> Overflowing(fpu, i))
  {
    hide Implements, PureResult, M.BinaryResult, M.TernaryResult, NeverOverflows, MayOverflow;
    var ops := i.operands[1..];
    var v := Values(unit, ops, s.regs);
    if LoadsDestination(i) {
      assert v == [Value(unit, i.operands[1], s.regs)];
      MoveResult(unit, i.mods, i.ty, v[0]);
    } else if |v| == 2 {
      assert v == [v[0], v[1]];
      if !i.base.Setp? {
        BinaryAgrees(fpu, unit, i, t, v[0], v[1]);
      } else {
        ComparisonAgrees(fpu, unit, i, t, v[0], v[1]);
      }
    } else if |v| == 3 {
      assert v == [v[0], v[1], v[2]];
      TernaryAgrees(fpu, unit, i, t, v[0], v[1], v[2]);
    } else {
      assert v == [v[0]];
      MoveResult(unit, i.mods, i.ty, v[0]);
    }
  }

  /** What the PTX instruction does to registers, when its guard passes. */
  lemma PtxEffect(unit: Unit, i: Instr, s: State)
    requires Computes(i)
    ensures
      var v, d := Values(unit, i.operands[1..], s.regs), i.operands[0].reg;
      var after := Effect(unit, i, s);
      && after.Some?
      && after.value.mem == s.mem
      && after.value.regs ==
           s.regs[d := if i.base.Setp? then (if unit.setp(i.mods, i.ty, v) then 1 else 0) else Computed(unit, i, v)]
  {
  }

  lemma GuardsAgree(i: Instr, inst: Inst, names: set<Reg>, t: Homes, s: State, lane: M.Lane)
    requires Lowerable(i) && Carries(names, t, s.regs, lane) && inst.guard.None?
    ensures (WithGuard(inst, i).guard.Some? ==> WithGuard(inst, i).guard.value < 8)
    ensures M.GuardPasses(WithGuard(inst, i), lane) == GuardPasses(i, s)
  {
    if i.guard.Some? {
      assert i.guard.value == Reg(PClass, i.guard.value.id);
    }
  }

  lemma CarriesWrite(names: set<Reg>, t: Homes, regs: map<Reg, Word>, lane: M.Lane, d: Reg, w: Word)
    requires Placed(names, t) && Carries(names, t, regs, lane) && d in names && !IsPredicate(d)
    ensures Carries(names, t, regs[d := w], M.ApplyLane(M.SetReg(t.place(d), w), lane))
  {
  }

  lemma CarriesSet(names: set<Reg>, t: Homes, regs: map<Reg, Word>, lane: M.Lane, d: Reg, b: bool)
    requires Carries(names, t, regs, lane) && PredicateNumber(d).Some?
    ensures Carries(names, t, regs[d := if b then 1 else 0], M.ApplyLane(M.SetPred(d.id, b), lane))
  {
    assert d == Reg(PClass, d.id);
  }

  lemma CarriesSame(names: set<Reg>, t: Homes, regs: map<Reg, Word>, a: M.Lane, b: M.Lane)
    requires Placed(names, t) && Carries(names, t, regs, a) && SameBelow(b, a, FirstTemp)
    ensures Carries(names, t, regs, b)
  {
  }

  lemma GuardIgnored(fpu: M.Fpu, inst: Inst, i: Instr, lane: M.Lane, mem: M.Memory)
    requires Lowerable(i)
    ensures M.Execute(fpu, WithGuard(inst, i), lane, mem) == M.Execute(fpu, inst, lane, mem)
  {
  }

  /* ---------- memory ---------- */

  /** Global memory holds, at aligned addresses, the words that the PTX machine holds. */
  ghost predicate MemAgrees(words: Memory, mem: M.Memory) {
    forall a: Word | a % 4 == 0 && a + 4 <= |mem.gmem| :: Get(words, a) == M.ReadWord(mem.gmem, a)
  }

  /** The address of a load or store. */
  function Address(unit: Unit, i: Instr, regs: map<Reg, Word>): Word
    requires Accesses(i)
  {
    Value(unit, i.operands[if i.base.Ld? then 1 else 0], regs)
  }

  /** The instruction executes, and its access is not aligned to its word. */
  predicate Misaligned(unit: Unit, i: Instr, s: State)
  {
    Accesses(i) && GuardPasses(i, s) && Address(unit, i, s.regs) % 4 != 0
  }

  /** The instruction executes, and its access leaves a memory of `size` bytes. */
  predicate OutOfRange(unit: Unit, i: Instr, s: State, size: nat) {
    Accesses(i) && GuardPasses(i, s) && Address(unit, i, s.regs) + 4 > size
  }

  lemma WordReadBack(m: seq<M.Byte>, a: nat, w: Word)
    requires a + 4 <= |m|
    ensures M.ReadWord(M.WriteBytes(m, a, M.WordBytes(w, 4)), a) == w
  {
    var high: int, higher: int := w / 0x100, w / 0x1_0000;
    assert high / 0x100 == higher && higher / 0x100 == w / 0x100_0000;
    var after := M.WriteBytes(m, a, M.WordBytes(w, 4));
    assert forall k | 0 <= k < 4 :: after[a + k] == M.WordBytes(w, 4)[k];
  }

  lemma WordElsewhere(m: seq<M.Byte>, a: nat, w: Word, b: nat)
    requires a + 4 <= |m| && b + 4 <= |m| && (b + 4 <= a || a + 4 <= b)
    ensures M.ReadWord(M.WriteBytes(m, a, M.WordBytes(w, 4)), b) == M.ReadWord(m, b)
  {
    var after := M.WriteBytes(m, a, M.WordBytes(w, 4));
    assert forall k | b <= k < b + 4 :: after[k] == m[k];
  }

  lemma StoreAgrees(words: Memory, mem: M.Memory, a: Word, w: Word)
    requires MemAgrees(words, mem) && a % 4 == 0 && a + 4 <= |mem.gmem|
    ensures MemAgrees(words[a := w], mem.(gmem := M.WriteBytes(mem.gmem, a, M.WordBytes(w, 4))))
    ensures |M.WriteBytes(mem.gmem, a, M.WordBytes(w, 4))| == |mem.gmem|
  {
    forall b: Word | b % 4 == 0 && b + 4 <= |mem.gmem|
      ensures Get(words[a := w], b) == M.ReadWord(M.WriteBytes(mem.gmem, a, M.WordBytes(w, 4)), b)
    {
      if b == a {
        WordReadBack(mem.gmem, a, w);
      } else {
        WordElsewhere(mem.gmem, a, w, b);
      }
    }
  }

  /* ---------- one instruction in one lane ---------- */

  /** The lane and the memory hold what the state holds. */
  ghost predicate Holds(names: set<Reg>, t: Homes, s: State, lane: M.Lane, mem: M.Memory) {
    Carries(names, t, s.regs, lane) && MemAgrees(s.mem, mem)
  }

  /** The lane traps, or does what the PTX instruction does. */
  ghost predicate StepAgrees(names: set<Reg>, t: Homes, unit: Unit, i: Instr, s: State, e: M.Effect, lane: M.Lane,
                             mem: M.Memory)
    requires e.Valid() && (e.Store? ==> e.address + |e.data| <= |mem.gmem|)
  {
    && Perform(unit, i, s).Some?
    && (!e.Trap? ==>
          && Holds(names, t, Perform(unit, i, s).value, M.ApplyLane(e, lane), M.ApplyMem(e, mem))
          && |M.ApplyMem(e, mem).gmem| == |mem.gmem| && M.ApplyMem(e, mem).pmem == mem.pmem)
  }

  lemma ComputeAgrees(fpu: M.Fpu, unit: Unit, i: Instr, t: Homes, names: set<Reg>, s: State, lane: M.Lane,
                      mem: M.Memory)
    requires Computes(i) && GuardPasses(i, s) && Implements(fpu, unit, t) && Ready(unit, i, t, s, lane)
    requires Placed(names, t) && Holds(names, t, s, lane, mem) && i.operands[0].reg in names
    ensures
      var e := M.Execute(fpu, FinalInst(i, t), lane, mem);
      e.Valid() && !e.Store? && StepAgrees(names, t, unit, i, s, e, lane, mem) && (e.Trap? ==> Overflowing(fpu, i))
  {
    hide Computed, Carries, MemAgrees, M.Execute, FinalInst, Ready, Effect;
    FinalDestination(i, t, names);
    FinalEffect(fpu, unit, i, t, s, lane, mem);
    PtxEffect(unit, i, s);
    var d, v := i.operands[0].reg, Values(unit, i.operands[1..], s.regs);
    if i.base.Setp? {
      CarriesSet(names, t, s.regs, lane, d, unit.setp(i.mods, i.ty, v));
    } else {
      CarriesWrite(names, t, s.regs, lane, d, Computed(unit, i, v));
    }
  }

  lemma FinalDestination(i: Instr, t: Homes, names: set<Reg>)
    requires Computes(i) && Placed(names, t) && i.operands[0].reg in names
    ensures !i.base.Setp? ==> t.place(i.operands[0].reg) < 256 && !IsPredicate(i.operands[0].reg)
    ensures i.base.Setp? ==> PredicateNumber(i.operands[0].reg).value < 8
  {
  }

  /** What a load or store does in a lane. */
  lemma AccessExecutes(fpu: M.Fpu, i: Instr, t: Homes, lane: M.Lane, mem: M.Memory)
    requires Accesses(i) && t.place(i.operands[0].reg) < 256 && t.place(i.operands[1].reg) < 256
    ensures
      var x, y := t.place(i.operands[0].reg), t.place(i.operands[1].reg);
      var a := lane.regs[if i.base.Ld? then y else x];
      M.Execute(fpu, FinalInst(i, t), lane, mem) ==
        if a + 4 > |mem.gmem| then M.Trap
        else if i.base.Ld? then M.SetReg(x, M.ReadWord(mem.gmem, a))
        else M.Store(a, M.WordBytes(lane.regs[y], 4))
  {
  }

  /** What it does in the PTX machine. */
  lemma AccessPerforms(unit: Unit, i: Instr, s: State)
    requires Accesses(i) && GuardPasses(i, s)
    ensures
      var x, y, a, done := i.operands[0].reg, i.operands[1].reg, Address(unit, i, s.regs), Perform(unit, i, s);
      && done.Some? && a == Get(s.regs, if i.base.Ld? then y else x)
      && done.value.regs == (if i.base.Ld? then s.regs[x := Get(s.mem, a)] else s.regs)
      && done.value.mem == (if i.base.Ld? then s.mem else s.mem[a := Get(s.regs, y)])
  {
    assert Values(unit, i.operands[1..], s.regs) == [Value(unit, i.operands[1], s.regs)];
  }

  lemma AccessNames(i: Instr, names: set<Reg>)
    requires Accesses(i) && AllRegs(i.operands) <= names
    ensures i.operands[0].reg in names && i.operands[1].reg in names
    ensures !IsPredicate(i.operands[0].reg) && !IsPredicate(i.operands[1].reg)
  {
    RegsOf(i.operands, 0);
    RegsOf(i.operands, 1);
    assert i.operands[0].reg in OperandRegs(i.operands[0]) && i.operands[1].reg in OperandRegs(i.operands[1]);
  }

  lemma CarriedHere(names: set<Reg>, t: Homes, regs: map<Reg, Word>, lane: M.Lane, r: Reg)
    requires Placed(names, t) && Carries(names, t, regs, lane) && r in names && !IsPredicate(r)
    ensures t.place(r) < 256 && lane.regs[t.place(r)] == Get(regs, r)
  {
  }

  /** A load or store does the same in both machines. */
  lemma AccessAgrees(fpu: M.Fpu, unit: Unit, i: Instr, t: Homes, names: set<Reg>, s: State, lane: M.Lane,
                     mem: M.Memory)
    requires Accesses(i) && GuardPasses(i, s) && !Misaligned(unit, i, s) && AllRegs(i.operands) <= names
    requires Placed(names, t) && Holds(names, t, s, lane, mem)
    ensures
      var e := M.Execute(fpu, FinalInst(i, t), lane, mem);
      && e.Valid() && (e.Store? ==> e.address + |e.data| <= |mem.gmem|)
      && StepAgrees(names, t, unit, i, s, e, lane, mem) && (e.Trap? <==> OutOfRange(unit, i, s, |mem.gmem|))
  {
    hide Carries, Placed, Perform, M.Execute, FinalInst, Address, M.WriteBytes;
    AccessNames(i, names);
    var x, y := i.operands[0].reg, i.operands[1].reg;
    CarriedHere(names, t, s.regs, lane, x);
    CarriedHere(names, t, s.regs, lane, y);
    AccessExecutes(fpu, i, t, lane, mem);
    AccessPerforms(unit, i, s);
    var a := Address(unit, i, s.regs);
    if a + 4 <= |mem.gmem| {
      if i.base.Ld? {
        CarriesWrite(names, t, s.regs, lane, x, Get(s.mem, a));
      } else {
        StoreAgrees(s.mem, mem, a, Get(s.regs, y));
      }
    }
  }

  /** Guarded, the last instruction does what the PTX instruction does; it traps out of range or on an overflow only. */
  lemma FinalSimulates(fpu: M.Fpu, unit: Unit, i: Instr, t: Homes, names: set<Reg>, s: State, lane: M.Lane,
                       mem: M.Memory)
    requires Lowerable(i) && Implements(fpu, unit, t) && Ready(unit, i, t, s, lane) && AllRegs(i.operands) <= names
    requires Placed(names, t) && Holds(names, t, s, lane, mem) && !Misaligned(unit, i, s)
    ensures
      var e := M.LaneEffect(fpu, WithGuard(FinalInst(i, t), i), lane, mem);
      && StepAgrees(names, t, unit, i, s, e, lane, mem)
      && (OutOfRange(unit, i, s, |mem.gmem|) ==> e.Trap?)
      && (e.Trap? ==> OutOfRange(unit, i, s, |mem.gmem|) || Overflowing(fpu, i))
  {
    hide Ready, Carries, MemAgrees, Placed, M.Execute, FinalInst, Effect, Implements, Overflowing;
    var inst := FinalInst(i, t);
    FinalUnguarded(i, t);
    GuardsAgree(i, inst, names, t, s, lane);
    GuardIgnored(fpu, inst, i, lane, mem);
    RegsOf(i.operands, 0);
    if GuardPasses(i, s) {
      if Computes(i) {
        assert i.operands[0].reg in OperandRegs(i.operands[0]);
        ComputeAgrees(fpu, unit, i, t, names, s, lane, mem);
      } else {
        AccessAgrees(fpu, unit, i, t, names, s, lane, mem);
      }
    }
  }

  lemma FinalUnguarded(i: Instr, t: Homes)
    requires Lowerable(i)
    ensures FinalInst(i, t).guard.None?
  {
  }

  /** The code before the last instruction makes the lane ready, and changes nothing else that matters. */
  lemma SourcesReady(fpu: M.Fpu, unit: Unit, i: Instr, t: Homes, names: set<Reg>, s: State, lane: M.Lane,
                     mem: M.Memory)
    requires Lowerable(i) && AllRegs(i.operands) <= names && Placed(names, t) && Carries(names, t, s.regs, lane)
    ensures
      var ready := LaneRun(fpu, SourcesOf(i, t).code, lane, mem);
      && ready.Some? && ready.value.mem == mem
      && Carries(names, t, s.regs, ready.value.lane) && Ready(unit, i, t, s, ready.value.lane)
  {
    hide Carries, Placed;
    if Accesses(i) || LoadsDestination(i) {
      NothingRuns(fpu, lane, mem);
    } else {
      var ops := i.operands[1..];
      forall k | 0 <= k < |ops|
        ensures IsSource(ops[k]) && OperandRegs(ops[k]) <= names
      {
        RegsOf(i.operands, k + 1);
      }
      SourcesLoaded(fpu, unit, ops, t, FirstTemp, names, s.regs, lane, mem);
      CarriesSame(names, t, s.regs, lane, LaneRun(fpu, SourcesOf(i, t).code, lane, mem).value.lane);
    }
  }

  /** The lane has ended with what the state holds, and with as much memory as before. */
  ghost predicate EndsWith(names: set<Reg>, t: Homes, s: State, after: Single, mem: M.Memory) {
    Holds(names, t, s, after.lane, after.mem) && |after.mem.gmem| == |mem.gmem| && after.mem.pmem == mem.pmem
  }

  /**
   The code of an instruction does in a lane what the instruction does; it traps on an access out of range, and else
   only on an overflow.
   */
  lemma InstrSimulates(fpu: M.Fpu, unit: Unit, i: Instr, t: Homes, names: set<Reg>, s: State, lane: M.Lane,
                       mem: M.Memory)
    requires Lowerable(i) && AllRegs(i.operands) <= names && Placed(names, t) && Implements(fpu, unit, t)
    requires Holds(names, t, s, lane, mem) && !Misaligned(unit, i, s)
    ensures
      var after, done := LaneRun(fpu, LowerInstr(i, t), lane, mem), Perform(unit, i, s);
      && done.Some? && (after.Some? ==> EndsWith(names, t, done.value, after.value, mem))
      && (OutOfRange(unit, i, s, |mem.gmem|) ==> after.None?)
      && (after.None? ==> OutOfRange(unit, i, s, |mem.gmem|) || Overflowing(fpu, i))
  {
    hide Carries, Placed, MemAgrees, Ready, FinalInst, Implements, Overflowing;
    SourcesReady(fpu, unit, i, t, names, s, lane, mem);
    var code, last := SourcesOf(i, t).code, WithGuard(FinalInst(i, t), i);
    var ready := LaneRun(fpu, code, lane, mem).value;
    FinalSimulates(fpu, unit, i, t, names, s, ready.lane, mem);
    LaneRunOne(fpu, last, ready.lane, mem);
    LaneRunAppend(fpu, code, [last], lane, mem);
  }

  /* ---------- a straight piece of the program ---------- */

  /** Items `a` to `b` are instructions that lower, on registers with a place. */
  predicate StraightPiece(p: Program, a: nat, b: nat, names: set<Reg>) {
    b <= |p| && forall k | a <= k < b && p[k].Code? :: Lowerable(p[k].inst) && AllRegs(p[k].inst.operands) <= names
  }

  function LowerPiece(p: Program, t: Homes, a: nat, b: nat): seq<Inst>
    requires b <= |p| && forall k | a <= k < b && p[k].Code? :: Lowerable(p[k].inst)
    decreases b
  {
    if a >= b then []
    else LowerPiece(p, t, a, b - 1) + (if p[b - 1].Code? then LowerInstr(p[b - 1].inst, t) else [])
  }

  lemma PerformTotal(unit: Unit, i: Instr, s: State)
    requires Lowerable(i)
    ensures Perform(unit, i, s).Some?
  {
  }

  /** What the items compute, one after the other. */
  function PerformPiece(unit: Unit, p: Program, a: nat, b: nat, s: State): Option<State>
    requires b <= |p|
    decreases b
  {
    if a >= b then Some(s)
    else
      match PerformPiece(unit, p, a, b - 1, s)
      case None => None
      case Some(t) => if p[b - 1].Code? then Perform(unit, p[b - 1].inst, t) else Some(t)
  }

  /** A run through the items leaves what they compute. */
  lemma {:induction false} PieceRuns(unit: Unit, p: Program, a: nat, b: nat, names: set<Reg>, s: State)
    requires a <= b && StraightPiece(p, a, b, names) && PerformPiece(unit, p, a, b, s).Some?
    ensures Run(Steps(unit, p), At(a, s), b - a) == At(b, PerformPiece(unit, p, a, b, s).value)
    decreases b
  {
    if a < b {
      PieceRuns(unit, p, a, b - 1, names, s);
      var before := PerformPiece(unit, p, a, b - 1, s).value;
      RunAppend(Steps(unit, p), At(a, s), b - 1 - a, 1);
      assert Run(Steps(unit, p), Step(unit, p, b - 1, before), 0) == Step(unit, p, b - 1, before);
    }
  }

  /** No access of the items is out of range. */
  predicate InBounds(unit: Unit, p: Program, a: nat, b: nat, s: State, size: nat)
    requires b <= |p|
  {
    forall k | a <= k < b && p[k].Code? && PerformPiece(unit, p, a, k, s).Some? ::
      !OutOfRange(unit, p[k].inst, PerformPiece(unit, p, a, k, s).value, size)
  }

  predicate WellAligned(unit: Unit, p: Program, a: nat, b: nat, s: State)
    requires b <= |p|
  {
    forall k | a <= k < b && p[k].Code? && PerformPiece(unit, p, a, k, s).Some? ::
      !Misaligned(unit, p[k].inst, PerformPiece(unit, p, a, k, s).value)
  }

  ghost predicate PieceOverflows(fpu: M.Fpu, p: Program, a: nat, b: nat)
    requires b <= |p|
  {
    exists k :: a <= k < b && p[k].Code? && Overflowing(fpu, p[k].inst)
  }

  ghost predicate PieceAgrees(fpu: M.Fpu, unit: Unit, p: Program, t: Homes, a: nat, b: nat, names: set<Reg>, s: State,
                              lane: M.Lane, mem: M.Memory)
    requires StraightPiece(p, a, b, names)
  {
    var after, done := LaneRun(fpu, LowerPiece(p, t, a, b), lane, mem), PerformPiece(unit, p, a, b, s);
    && done.Some? && (after.Some? ==> EndsWith(names, t, done.value, after.value, mem))
    && (after.Some? ==> InBounds(unit, p, a, b, s, |mem.gmem|))
    && (InBounds(unit, p, a, b, s, |mem.gmem|) && !PieceOverflows(fpu, p, a, b) ==> after.Some?)
  }

  lemma InBoundsNext(unit: Unit, p: Program, a: nat, b: nat, s: State, size: nat)
    requires a < b <= |p| && PerformPiece(unit, p, a, b - 1, s).Some?
    ensures InBounds(unit, p, a, b, s, size) <==>
              InBounds(unit, p, a, b - 1, s, size)
              && (p[b - 1].Code? ==> !OutOfRange(unit, p[b - 1].inst, PerformPiece(unit, p, a, b - 1, s).value, size))
  {
  }

  lemma OverflowNext(fpu: M.Fpu, p: Program, a: nat, b: nat)
    requires a < b <= |p|
    ensures PieceOverflows(fpu, p, a, b) <==>
              PieceOverflows(fpu, p, a, b - 1) || (p[b - 1].Code? && Overflowing(fpu, p[b - 1].inst))
  {
  }

  lemma PieceNext(fpu: M.Fpu, unit: Unit, p: Program, t: Homes, a: nat, b: nat, names: set<Reg>, s: State,
                  lane: M.Lane, mem: M.Memory)
    requires a < b && StraightPiece(p, a, b, names) && Placed(names, t) && Implements(fpu, unit, t)
    requires PieceAgrees(fpu, unit, p, t, a, b - 1, names, s, lane, mem)
    requires p[b - 1].Code? ==> !Misaligned(unit, p[b - 1].inst, PerformPiece(unit, p, a, b - 1, s).value)
    ensures PieceAgrees(fpu, unit, p, t, a, b, names, s, lane, mem)
  {
    hide Holds, Placed, Implements, Overflowing, LowerInstr, Perform, OutOfRange, Misaligned, InBounds, PieceOverflows,
         LaneRun;
    var before, done := LaneRun(fpu, LowerPiece(p, t, a, b - 1), lane, mem), PerformPiece(unit, p, a, b - 1, s).value;
    InBoundsNext(unit, p, a, b, s, |mem.gmem|);
    OverflowNext(fpu, p, a, b);
    if p[b - 1].Code? {
      PerformTotal(unit, p[b - 1].inst, done);
      LaneRunAppend(fpu, LowerPiece(p, t, a, b - 1), LowerInstr(p[b - 1].inst, t), lane, mem);
      if before.Some? {
        InstrSimulates(fpu, unit, p[b - 1].inst, t, names, done, before.value.lane, before.value.mem);
      }
    } else {
      assert LowerPiece(p, t, a, b) == LowerPiece(p, t, a, b - 1);
    }
  }

  /**
   The code of the items does in a lane what the items do; it traps when an access is out of range, and else only on
   an overflow.
   */
  lemma {:induction false} PieceSimulates(fpu: M.Fpu, unit: Unit, p: Program, t: Homes, a: nat, b: nat, names: set<Reg>,
                                          s: State, lane: M.Lane, mem: M.Memory)
    requires a <= b && StraightPiece(p, a, b, names) && Placed(names, t) && Implements(fpu, unit, t)
    requires Holds(names, t, s, lane, mem) && WellAligned(unit, p, a, b, s)
    ensures PieceAgrees(fpu, unit, p, t, a, b, names, s, lane, mem)
    decreases b
  {
    hide Holds, Placed, Implements, Overflowing, LowerInstr, Perform, OutOfRange, Misaligned;
    if a == b {
      NothingRuns(fpu, lane, mem);
    } else {
      PieceSimulates(fpu, unit, p, t, a, b - 1, names, s, lane, mem);
      PieceNext(fpu, unit, p, t, a, b, names, s, lane, mem);
    }
  }
}
