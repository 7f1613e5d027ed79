/** What each executed instruction does to a lane and to memory, said of numbers and bytes. */
module InstructionMeaning {
  import opened Isa
  import opened Machine

  /** The number that these bytes are, the lowest first. */
  function LittleEndian(b: seq<Byte>): nat { if b == [] then 0 else b[0] + 0x100 * LittleEndian(b[1..]) }

  /** The lane and the memory after an instruction whose guard passes; `None` is an exception. */
  function After(fpu: Fpu, i: Inst, lane: Lane, mem: Memory): Option<(Lane, Memory)> {
    var e := LaneEffect(fpu, i, lane, mem);
    if e.Trap? then None else Some((ApplyLane(e, lane), ApplyMem(e, mem)))
  }

  predicate Active(i: Inst, lane: Lane) {
    i.guard.None? || (i.guard.value < 8 && (lane.preds[i.guard.value] <==> !i.negated))
  }

  /** A 64-bit value in two registers, the low word first. */
  function Pair(lane: Lane, r: nat): int
    requires r < 255
  {
    var low: int, high: int := lane.regs[r], lane.regs[r + 1];
    low + 0x1_0000_0000 * high
  }

  /** Nothing but these registers changes. */
  predicate OnlyRegs(before: Lane, after: Lane, regs: set<nat>) {
    && after.preds == before.preds && after.special == before.special
    && forall r | 0 <= r < 256 && r !in regs :: after.regs[r] == before.regs[r]
  }

  /* ---------- guards ---------- */

  lemma InactiveSkips(fpu: Fpu, i: Inst, lane: Lane, mem: Memory)
    requires !Active(i, lane)
    ensures After(fpu, i, lane, mem) == if i.guard.value < 8 then Some((lane, mem)) else None
  {
  }

  /* ---------- immediates and copies ---------- */

  lemma ImmediateLoads(fpu: Fpu, i: Inst, lane: Lane, mem: Memory)
    requires Active(i, lane) && i.opcode == LOADI
    ensures After(fpu, i, lane, mem).Some? <==> i.dest < 256
    ensures i.dest < 256 ==>
              var (after, m) := After(fpu, i, lane, mem).value;
              m == mem && OnlyRegs(lane, after, {i.dest}) && after.regs[i.dest] == i.imm % 0x1_0000_0000
  {
  }

  lemma WideImmediateLoads(fpu: Fpu, i: Inst, lane: Lane, mem: Memory)
    requires Active(i, lane) && i.opcode == LOADI64
    ensures After(fpu, i, lane, mem).Some? <==> i.dest < 255
    ensures i.dest < 255 ==>
              var (after, m) := After(fpu, i, lane, mem).value;
              m == mem && OnlyRegs(lane, after, {i.dest, i.dest + 1})
              && Pair(after, i.dest) == i.imm % 0x1_0000_0000_0000_0000
  {
    TwoWords(i.imm);
  }

  lemma TwoWords(x: int)
    ensures x % 0x1_0000_0000 + 0x1_0000_0000 * (x / 0x1_0000_0000 % 0x1_0000_0000) == x % 0x1_0000_0000_0000_0000
  {
  }

  /** A copy reads a register or, from 0x100 on, what the lane knows of the launch. */
  lemma CopyReads(fpu: Fpu, i: Inst, lane: Lane, mem: Memory)
    requires Active(i, lane) && i.opcode == CPY && i.dtype != B64 && i.dtype != F64
    ensures After(fpu, i, lane, mem).Some? <==> i.dest < 256 && (i.src1 < 256 || i.src1 in lane.special)
    ensures After(fpu, i, lane, mem).Some? ==>
              var (after, m) := After(fpu, i, lane, mem).value;
              m == mem && OnlyRegs(lane, after, {i.dest})
              && after.regs[i.dest] == if i.src1 < 0x100 then lane.regs[i.src1] else lane.special[i.src1]
  {
  }

  /** A wide copy copies both words, except onto its own source shifted by one, where the low word is copied twice. */
  lemma WideCopyReads(fpu: Fpu, i: Inst, lane: Lane, mem: Memory)
    requires Active(i, lane) && i.opcode == CPY && (i.dtype == B64 || i.dtype == F64)
    ensures After(fpu, i, lane, mem).Some? <==> i.dest < 255 && i.src1 < 255
    ensures After(fpu, i, lane, mem).Some? ==>
              var (after, m) := After(fpu, i, lane, mem).value;
              && m == mem && OnlyRegs(lane, after, {i.dest, i.dest + 1})
              && after.regs[i.dest] == lane.regs[i.src1]
              && (Pair(after, i.dest) == Pair(lane, i.src1) <==>
                    i.dest != i.src1 + 1 || lane.regs[i.src1] == lane.regs[i.src1 + 1])
              && (i.dest == i.src1 + 1 ==> after.regs[i.dest + 1] == lane.regs[i.src1])
  {
  }

  /* ---------- memory ---------- */

  lemma FourBytes(b: seq<Byte>)
    requires |b| >= 4
    ensures LittleEndian(b) == ReadWord(b, 0) + 0x1_0000_0000 * LittleEndian(b[4..])
  {
    assert b[1..][1..] == b[2..] && b[2..][1..] == b[3..] && b[3..][1..] == b[4..];
    assert LittleEndian(b[3..]) == b[3] + 0x100 * LittleEndian(b[4..]);
    assert LittleEndian(b[2..]) == b[2] + 0x100 * LittleEndian(b[3..]);
    assert LittleEndian(b[1..]) == b[1] + 0x100 * LittleEndian(b[2..]);
  }

  lemma ReadSlice(m: seq<Byte>, a: nat, size: nat)
    requires 4 <= size && a + size <= |m|
    ensures ReadWord(m, a) == ReadWord(m[a..a + size], 0)
    ensures size == 8 ==> ReadWord(m, a + 4) == ReadWord(m[a..a + size][4..], 0)
  {
  }

  lemma NumberRead(m: seq<Byte>, a: nat, size: nat)
    requires (size == 4 || size == 8) && a + size <= |m|
    ensures LittleEndian(m[a..a + size]) ==
              ReadWord(m, a) + if size == 8 then 0x1_0000_0000 * ReadWord(m, a + 4) else 0
  {
    var b := m[a..a + size];
    ReadSlice(m, a, size);
    FourBytes(b);
    if size == 8 {
      FourBytes(b[4..]);
      assert b[4..][4..] == [];
    } else {
      assert b[4..] == [];
    }
  }

  predicate WordType(t: DType) { t == B32 || t == U32 || t == S32 || t == F32 }

  /** A load reads the number whose bytes lie at the address, into one register or two. */
  lemma LoadReads(fpu: Fpu, i: Inst, lane: Lane, mem: Memory, size: nat, m: seq<Byte>)
    requires Active(i, lane) && i.opcode == LD && i.src1 < 256
    requires (WordType(i.dtype) && size == 4) || (i.dtype == B64 && size == 8)
    requires (i.space == Some(Gmem) && m == mem.gmem) || (i.space == Some(Pmem) && m == mem.pmem)
    ensures After(fpu, i, lane, mem).Some? <==> lane.regs[i.src1] + size <= |m| && i.dest < if size == 8 then 255 else 256
    ensures After(fpu, i, lane, mem).Some? ==>
              var ((after, memory), a: nat) := (After(fpu, i, lane, mem).value, lane.regs[i.src1]);
              && memory == mem && OnlyRegs(lane, after, if size == 8 then {i.dest, i.dest + 1} else {i.dest})
              && LittleEndian(m[a..a + size]) == if size == 8 then Pair(after, i.dest) else after.regs[i.dest]
  {
    var a: nat := lane.regs[i.src1];
    if a + size <= |m| {
      NumberRead(m, a, size);
    }
  }

  /** Other loads are exceptions. */
  lemma OtherLoadsFail(fpu: Fpu, i: Inst, lane: Lane, mem: Memory)
    requires Active(i, lane) && i.opcode == LD
    requires i.src1 >= 256 || (i.space != Some(Gmem) && i.space != Some(Pmem)) || (!WordType(i.dtype) && i.dtype != B64)
    ensures After(fpu, i, lane, mem).None?
  {
  }

  lemma WrittenSlice(m: seq<Byte>, a: nat, data: seq<Byte>)
    requires a + |data| <= |m|
    ensures |WriteBytes(m, a, data)| == |m| && WriteBytes(m, a, data)[a..a + |data|] == data
    ensures forall k | 0 <= k < |m| && !(a <= k < a + |data|) :: WriteBytes(m, a, data)[k] == m[k]
  {
  }

  lemma NumberWritten(w: Word, size: nat)
    requires size == 4 || size == 8
    ensures |WordBytes(w, size)| == size && LittleEndian(WordBytes(w, size)) == w
  {
    var b := WordBytes(w, size);
    NumberRead(b, 0, size);
    assert b[0..size] == b;
    FourDigits(w);
  }

  lemma FourDigits(w: Word)
    ensures w % 0x100 + 0x100 * (w / 0x100 % 0x100) + 0x1_0000 * (w / 0x1_0000 % 0x100) + 0x100_0000 * (w / 0x100_0000)
            == w
  {
    var a: int, b: int := w / 0x100, w / 0x1_0000;
    assert a / 0x100 == b && b / 0x100 == w / 0x100_0000;
  }

  /** A store leaves the number of its register at the address, a wide one with zeros above, and nothing else changes. */
  lemma StoreWrites(fpu: Fpu, i: Inst, lane: Lane, mem: Memory, size: nat)
    requires Active(i, lane) && i.opcode == ST && i.src1 < 256 && i.src2 < 256 && i.space == Some(Gmem)
    requires (WordType(i.dtype) && size == 4) || (i.dtype == B64 && size == 8)
    ensures After(fpu, i, lane, mem).Some? <==> lane.regs[i.src1] + size <= |mem.gmem|
    ensures After(fpu, i, lane, mem).Some? ==>
              var ((after, memory), a: nat) := (After(fpu, i, lane, mem).value, lane.regs[i.src1]);
              && after == lane && memory.pmem == mem.pmem && |memory.gmem| == |mem.gmem|
              && LittleEndian(memory.gmem[a..a + size]) == lane.regs[i.src2]
              && forall k | 0 <= k < |mem.gmem| && !(a <= k < a + size) :: memory.gmem[k] == mem.gmem[k]
  {
    NumberWritten(lane.regs[i.src2], size);
    if lane.regs[i.src1] + size <= |mem.gmem| {
      WrittenSlice(mem.gmem, lane.regs[i.src1], WordBytes(lane.regs[i.src2], size));
    }
  }

  /** A load from where a store has written reads what was stored. */
  lemma StoreLoad(fpu: Fpu, store: Inst, load: Inst, lane: Lane, reader: Lane, mem: Memory)
    requires Active(store, lane) && store.opcode == ST && store.src1 < 256 && store.src2 < 256
    requires store.space == Some(Gmem) && WordType(store.dtype)
    requires After(fpu, store, lane, mem).Some?
    requires Active(load, reader) && load.opcode == LD && load.src1 < 256 && load.dest < 256
    requires load.space == Some(Gmem) && WordType(load.dtype) && reader.regs[load.src1] == lane.regs[store.src1]
    ensures
      var memory := After(fpu, store, lane, mem).value.1;
      && After(fpu, load, reader, memory).Some?
      && After(fpu, load, reader, memory).value.0.regs[load.dest] == lane.regs[store.src2]
  {
    StoreWrites(fpu, store, lane, mem, 4);
    var memory := After(fpu, store, lane, mem).value.1;
    LoadReads(fpu, load, reader, memory, 4, memory.gmem);
  }

  /* ---------- arithmetic ---------- */

  predicate ReadsRegisters(i: Inst) {
    && (i.opcode.Binary? || i.opcode.Ternary?) && i.src1 < 256 && i.src2 < 256 && (i.opcode.Ternary? ==> i.src3 < 256)
    && i.dest < 256
  }

  /** Integer operations, by their values modulo 2^32 and by their bits. */
  lemma IntegerComputes(fpu: Fpu, i: Inst, lane: Lane, mem: Memory)
    requires Active(i, lane) && ReadsRegisters(i) && i.dtype != F32
    ensures After(fpu, i, lane, mem).Some?
    ensures
      var ((after, memory), a: int, b: int) := (After(fpu, i, lane, mem).value, lane.regs[i.src1], lane.regs[i.src2]);
      var r: int := after.regs[i.dest];
      && memory == mem && OnlyRegs(lane, after, {i.dest})
      && (i.opcode == Binary(ADD) ==> r == a + b || r == a + b - 0x1_0000_0000)
      && (i.opcode == Binary(SUB) ==> r == a - b || r == a - b + 0x1_0000_0000)
      && (i.opcode == Binary(MUL) ==> r == (a * b) % 0x1_0000_0000)
      && (i.opcode.Ternary? ==> r == (a * b + lane.regs[i.src3]) % 0x1_0000_0000)
  {
  }

  lemma BitsCompute(fpu: Fpu, i: Inst, lane: Lane, mem: Memory, r: Word)
    requires Active(i, lane) && ReadsRegisters(i)
    requires
      var a, b := lane.regs[i.src1], lane.regs[i.src2];
      || (i.opcode == Binary(AND) && r == BitAnd(a, b))
      || (i.opcode == Binary(OR) && r == BitOr(a, b))
      || (i.opcode == Binary(XOR) && r == BitXor(a, b))
      || (i.opcode == Binary(SHL) && r == ShiftLeft(a, b))
      || (i.opcode == Binary(SHR) && r == ShiftRight(a, b))
    ensures After(fpu, i, lane, mem) == Some((lane.(regs := lane.regs[i.dest := r]), mem))
  {
    hide BitAnd, BitOr, BitXor, ShiftLeft, ShiftRight;
  }

  /** Shifts use the five low bits of their amount. */
  lemma LeftShift(a: Word, n: Word)
    ensures ShiftLeft(a, n) == ((a as bv32) << ((n % 32) as bv6)) as int
  {
  }

  lemma RightShift(a: Word, n: Word)
    ensures ShiftRight(a, n) == ((a as bv32) >> ((n % 32) as bv6)) as int
  {
  }

  /** Single precision: a multiply-add rounds twice, a fused one once; a result that cannot be packed is an exception. */
  lemma FloatComputes(fpu: Fpu, i: Inst, lane: Lane, mem: Memory, result: Option<Word>)
    requires Active(i, lane) && ReadsRegisters(i) && i.dtype == F32
    requires
      var a, b := lane.regs[i.src1], lane.regs[i.src2];
      || (i.opcode == Binary(ADD) && result == fpu.add(a, b))
      || (i.opcode == Binary(SUB) && result == fpu.sub(a, b))
      || (i.opcode == Binary(MUL) && result == fpu.mul(a, b))
      || (i.opcode == Ternary(FMA) && result == fpu.fma(a, b, lane.regs[i.src3]))
      || (i.opcode == Ternary(MAD) && fpu.mul(a, b).None? && result == None)
      || (i.opcode == Ternary(MAD) && fpu.mul(a, b).Some? && result == fpu.add(fpu.mul(a, b).value, lane.regs[i.src3]))
    ensures After(fpu, i, lane, mem) ==
              if result.None? then None else Some((lane.(regs := lane.regs[i.dest := result.value]), mem))
  {
  }

  /** A comparison, of words without sign or of floats, sets its predicate and nothing else. */
  lemma ComparisonDecides(fpu: Fpu, i: Inst, lane: Lane, mem: Memory, c: Compare)
    requires Active(i, lane) && i.opcode == CMPP && i.compare == Some(c)
    ensures After(fpu, i, lane, mem).Some? <==> i.src1 < 256 && i.src2 < 256 && i.dest < 8
    ensures After(fpu, i, lane, mem).Some? ==>
              var ((after, memory), a, b) := (After(fpu, i, lane, mem).value, lane.regs[i.src1], lane.regs[i.src2]);
              && memory == mem && after == lane.(preds := after.preds)
              && (forall p | 0 <= p < 8 && p != i.dest :: after.preds[p] == lane.preds[p])
              && (after.preds[i.dest] <==>
                    if i.dtype == F32 then fpu.compare(c, a, b)
                    else (a < b && c in {Lt, Le, Ne}) || (a == b && c in {Eq, Le, Ge}) || (a > b && c in {Gt, Ge, Ne}))
  {
  }
}
