/** The instruction format on the wire: the four words as numbers, and the bytes of a stream. */
module WireFormat {
  import opened Isa
  import M = Machine
  import opened Encoding

  /* ---------- bits and numbers ---------- */

  /** Bitwise or, on numbers. */
  function Either(a: nat, b: nat): nat {
    if a == 0 then b
    else if b == 0 then a
    else 2 * Either(a / 2, b / 2) + (if a % 2 == 1 || b % 2 == 1 then 1 else 0)
  }

  lemma EitherStep(a: nat, b: nat, x: nat, y: nat)
    requires x <= 1 && y <= 1
    ensures Either(2 * a + x, 2 * b + y) == 2 * Either(a, b) + (if x == 1 || y == 1 then 1 else 0)
  {
    Halve(a, x);
    Halve(b, y);
  }

  function LowBit(a: bv16): (r: nat)
    ensures r <= 1
  {
    if a & 1 == 1 then 1 else 0
  }

  lemma NumberStep(a: bv16, k: nat)
    requires k > 0
    ensures Number(a, k) == 2 * Number(a >> 1, k - 1) + LowBit(a)
  {
  }

  lemma HalfOfOr(a: bv16, b: bv16)
    ensures (a | b) >> 1 == (a >> 1) | (b >> 1)
    ensures LowBit(a | b) == if LowBit(a) == 1 || LowBit(b) == 1 then 1 else 0
  {
  }

  lemma NumberStepOr(a: bv16, b: bv16, k: nat)
    requires k > 0
    ensures Number(a | b, k) == 2 * Number((a >> 1) | (b >> 1), k - 1) + LowBit(a | b)
  {
    hide Number;
    HalfOfOr(a, b);
    NumberStep(a | b, k);
  }

  lemma {:induction false} NumberOfOr(a: bv16, b: bv16, k: nat)
    ensures Number(a | b, k) == Either(Number(a, k), Number(b, k))
    decreases k
  {
    if k == 0 {
      NothingBelow(a | b);
      NothingBelow(a);
      NothingBelow(b);
    } else {
      hide Number, LowBit;
      NumberOfOr(a >> 1, b >> 1, k - 1);
      NumberStepOr(a, b, k);
      HalfOfOr(a, b);
      NumberStep(a, k);
      NumberStep(b, k);
      EitherStep(Number(a >> 1, k - 1), Number(b >> 1, k - 1), LowBit(a), LowBit(b));
    }
  }

  lemma NothingBelow(a: bv16)
    ensures Number(a, 0) == 0
  {
  }

  lemma DoubleBack(a: bv16)
    requires a < 0x8000
    ensures (a << 1) >> 1 == a && (a << 1) & 1 == 0
  {
  }

  lemma NumberOfDouble(a: bv16, k: nat)
    requires a < 0x8000
    ensures Number(a << 1, k + 1) == 2 * Number(a, k)
  {
    DoubleBack(a);
  }

  lemma {:induction false} NumberOfZero(k: nat)
    ensures Number(0, k) == 0
  {
    if k > 0 {
      NumberOfZero(k - 1);
      assert (0 as bv16) >> 1 == 0;
    }
  }

  /** A number of four bits. */
  lemma NumberOfFour(a: bv16, k: nat)
    requires a <= 0xF && k >= 4
    ensures Number(a, k) == (if a & 8 != 0 then 8 else 0) + (if a & 4 != 0 then 4 else 0)
                            + (if a & 2 != 0 then 2 else 0) + (if a & 1 != 0 then 1 else 0)
  {
    FourBits(a);
    NumberOfZero(k - 4);
    assert Number(a, k) == 2 * Number(a >> 1, k - 1) + (if a & 1 == 1 then 1 else 0);
    assert Number(a >> 1, k - 1) == 2 * Number(a >> 2, k - 2) + (if a & 2 != 0 then 1 else 0);
    assert Number(a >> 2, k - 2) == 2 * Number(a >> 3, k - 3) + (if a & 4 != 0 then 1 else 0);
    assert Number(a >> 3, k - 3) == 2 * Number(0, k - 4) + (if a & 8 != 0 then 1 else 0);
  }

  lemma FourBits(a: bv16)
    requires a <= 0xF
    ensures (a >> 1) >> 1 == a >> 2 && (a >> 2) >> 1 == a >> 3 && (a >> 3) >> 1 == 0
    ensures ((a >> 1) & 1 == 1 <==> a & 2 != 0) && ((a >> 2) & 1 == 1 <==> a & 4 != 0)
    ensures ((a >> 3) & 1 == 1 <==> a & 8 != 0) && (a & 1 == 1 <==> a & 1 != 0)
  {
  }

  lemma UpTwo(a: bv16)
    requires a < 0x4000
    ensures a << 2 == (a << 1) << 1 && a << 1 < 0x8000
  {
  }

  lemma NumberUpTwo(a: bv16, k: nat)
    requires a < 0x4000
    ensures Number(a << 2, k + 2) == 4 * Number(a, k)
  {
    hide Number;
    UpTwo(a);
    NumberOfDouble(a, k);
    NumberOfDouble(a << 1, k + 1);
  }

  lemma UpMore(a: bv16)
    requires a <= 0xF
    ensures a << 1 < 0x4000 && a << 2 < 0x4000 && a << 3 < 0x4000 && a << 4 < 0x4000 && a << 6 < 0x4000
    ensures a << 8 < 0x4000 && a << 10 < 0x8000
    ensures (a << 1) << 2 == a << 3 && (a << 2) << 2 == a << 4 && (a << 4) << 2 == a << 6 && (a << 6) << 2 == a << 8
    ensures (a << 8) << 2 == a << 10 && (a << 10) << 1 == a << 11
  {
  }

  /** A number of four bits, moved up. */
  lemma NumberMoved(a: bv16)
    requires a <= 0xF
    ensures Number(a << 3, 16) == 8 * Number(a, 13) && Number(a << 8, 16) == 0x100 * Number(a, 8)
    ensures Number(a << 10, 16) == 0x400 * Number(a, 6) && Number(a << 11, 16) == 0x800 * Number(a, 5)
  {
    hide Number;
    UpMore(a);
    NumberOfDouble(a, 13);
    NumberUpTwo(a << 1, 14);
    MovedUp(a, 5);
    MovedUp(a, 6);
    MovedUp(a, 8);
    NumberUpTwo(a << 8, 14);
    NumberUpTwo(a << 8, 13);
    NumberOfDouble(a << 10, 15);
  }

  lemma MovedUp(a: bv16, k: nat)
    requires a <= 0xF
    ensures Number(a << 8, k + 8) == 0x100 * Number(a, k)
  {
    hide Number;
    UpMore(a);
    NumberUpTwo(a, k);
    NumberUpTwo(a << 2, k + 2);
    NumberUpTwo(a << 4, k + 4);
    NumberUpTwo(a << 6, k + 6);
  }

  /* ---------- or, on numbers ---------- */

  lemma {:induction false} EitherSame(a: nat, b: nat)
    ensures Either(a, b) == Either(b, a)
  {
    if a != 0 && b != 0 {
      EitherSame(a / 2, b / 2);
    }
  }

  lemma {:induction false} EitherBound(a: nat, b: nat, s: nat)
    requires a < Power2(s) && b < Power2(s)
    ensures Either(a, b) < Power2(s)
    decreases s
  {
    if a != 0 && b != 0 {
      EitherBound(a / 2, b / 2, s - 1);
    }
  }

  /** `n` with `s` zeros written after it. */
  function Scale(n: nat, s: nat): nat { if s == 0 then n else 2 * Scale(n, s - 1) }

  lemma ScaleBy(n: nat)
    ensures Scale(n, 3) == 8 * n && Scale(n, 8) == 0x100 * n && Scale(n, 14) == 0x4000 * n
  {
    ScaleFour(n, 4);
    ScaleFour(n, 8);
    ScaleFour(n, 12);
    assert Scale(n, 0) == n && Scale(n, 14) == 2 * Scale(n, 13) && Scale(n, 13) == 2 * Scale(n, 12);
    assert Scale(n, 3) == 2 * Scale(n, 2) && Scale(n, 2) == 2 * Scale(n, 1);
  }

  lemma ScaleFour(n: nat, s: nat)
    requires s >= 4
    ensures Scale(n, s) == 16 * Scale(n, s - 4)
  {
    assert Scale(n, s - 2) == 2 * Scale(n, s - 3) && Scale(n, s) == 2 * Scale(n, s - 1);
  }

  /** Numbers without a common bit, because one of them is below the other's lowest, add up. */
  lemma {:induction false} EitherSum(high: nat, low: nat, s: nat)
    requires low < Power2(s)
    ensures Either(Scale(high, s), low) == Scale(high, s) + low
    decreases s
  {
    if s > 0 {
      EitherSum(high, low / 2, s - 1);
      EitherStep(Scale(high, s - 1), low / 2, 0, low % 2);
    }
  }

  lemma {:induction false} EitherScale(a: nat, b: nat, s: nat)
    ensures Either(Scale(a, s), Scale(b, s)) == Scale(Either(a, b), s)
    decreases s
  {
    if s > 0 {
      EitherScale(a, b, s - 1);
      EitherStep(Scale(a, s - 1), Scale(b, s - 1), 0, 0);
    }
  }

  lemma {:induction false} EitherRegroup(a: nat, b: nat, c: nat)
    ensures Either(Either(a, b), c) == Either(a, Either(b, c))
    decreases a + b + c
  {
    if a != 0 && b != 0 && c != 0 {
      EitherRegroup(a / 2, b / 2, c / 2);
      RegroupStep(a / 2, b / 2, c / 2, a % 2, b % 2, c % 2);
    }
  }

  lemma RegroupStep(a: nat, b: nat, c: nat, x: nat, y: nat, z: nat)
    requires x <= 1 && y <= 1 && z <= 1 && Either(Either(a, b), c) == Either(a, Either(b, c))
    ensures Either(Either(2 * a + x, 2 * b + y), 2 * c + z) == Either(2 * a + x, Either(2 * b + y, 2 * c + z))
  {
    hide Either;
    var left, right := if x == 1 || y == 1 then 1 else 0, if y == 1 || z == 1 then 1 else 0;
    EitherStep(a, b, x, y);
    EitherStep(b, c, y, z);
    EitherStep(Either(a, b), c, left, z);
    EitherStep(a, Either(b, c), x, right);
  }

  lemma EitherSwap(a: nat, b: nat, c: nat)
    ensures Either(Either(a, b), c) == Either(Either(a, c), b)
  {
    hide Either;
    EitherRegroup(a, b, c);
    EitherRegroup(a, c, b);
    EitherSame(b, c);
  }

  lemma EitherCross(a: nat, b: nat, c: nat, d: nat)
    ensures Either(Either(a, b), Either(c, d)) == Either(Either(c, b), Either(a, d))
  {
    hide Either;
    EitherRegroup(Either(a, b), c, d);
    EitherSame(Either(a, b), c);
    EitherSame(a, b);
    EitherRegroup(c, b, a);
    EitherRegroup(Either(c, b), a, d);
  }

  lemma SmallPowers()
    ensures Power2(3) == 8 && Power2(6) == 64 && Power2(8) == 0x100 && Power2(14) == 0x4000
  {
    assert Power2(4) == 16;
    assert Power2(8) == 16 * Power2(4);
    assert Power2(12) == 16 * Power2(8);
  }

  lemma ScaleSix(h: nat)
    ensures Scale(h, 14) == Scale(Scale(h, 6), 8) && Scale(h, 6) == 64 * h
  {
    ScaleBy(h);
    ScaleFour(h, 6);
    ScaleBy(Scale(h, 6));
    assert Scale(h, 2) == 4 * h;
  }

  /** The five parts of a control half-word, the two that can overlap joined bit by bit. */
  lemma PartsAdd(t: nat, source: nat, guard: nat, p: nat, extra: nat)
    requires t < 16 && source < 64 && p < 8 && extra < 64
    ensures Either(Either(Either(8 * t, 0x100 * source), Either(0x4000 * guard, p)), 0x100 * extra)
            == 0x4000 * guard + 0x100 * Either(source, extra) + 8 * t + p
  {
    hide Either, Scale, Power2;
    var a, s, h, e := 8 * t, 0x100 * source, 0x4000 * guard, 0x100 * extra;
    SmallPowers();
    ScaleBy(t);
    ScaleBy(source);
    ScaleBy(extra);
    ScaleBy(guard);
    ScaleBy(Either(source, extra));
    EitherCross(a, s, h, p);
    EitherSwap(Either(h, s), Either(a, p), e);
    EitherRegroup(h, s, e);
    EitherScale(source, extra, 8);
    EitherBound(source, extra, 6);
    EitherSum(t, p, 3);
    ScaleSix(guard);
    EitherScale(Scale(guard, 6), Either(source, extra), 8);
    EitherSum(guard, Either(source, extra), 6);
    ScaleBy(Scale(guard, 6) + Either(source, extra));
    EitherSum(Scale(guard, 6) + Either(source, extra), a + p, 8);
  }

  /* ---------- the control half-word ---------- */

  lemma TypePart(i: Inst)
    ensures Number(TypeBits(i), 16)
            == Either(8 * Number(TypeCode(EncodingType(i.opcode, i.dtype)), 4), 0x100 * (4 * Number(SourceCode(i), 4)))
  {
    hide Number, Either, SourceCode, EncodingType, TypeCode;
    var t, source := TypeCode(EncodingType(i.opcode, i.dtype)), SourceCode(i);
    CodeRanges(EncodingType(i.opcode, i.dtype), Eq, Gmem);
    FieldRanges(i);
    TypeBitsJoin(i);
    NumberOfOr(t << 3, source << 10, 16);
    NumberMoved(t);
    NumberMoved(source);
    NumberOfFour(t, 13);
    NumberOfFour(t, 4);
    NumberOfFour(source, 6);
    NumberOfFour(source, 4);
  }

  lemma TypeBitsJoin(i: Inst)
    ensures TypeBits(i) == (TypeCode(EncodingType(i.opcode, i.dtype)) << 3) | (SourceCode(i) << 10)
  {
    hide TypeCode;
    CodeRanges(EncodingType(i.opcode, i.dtype), Eq, Gmem);
    FieldRanges(i);
    Masked(TypeCode(EncodingType(i.opcode, i.dtype)));
    Masked(SourceCode(i));
    ZeroBits();
  }

  lemma Masked(a: bv16)
    ensures a <= 0xF ==> a & 0xF == a
    ensures a <= 7 ==> a & 7 == a
    ensures (0 as bv16) << 10 == 0
  {
  }

  lemma HighBits()
    ensures Number(0x8000, 16) == 0x8000 && Number(0x4000, 16) == 0x4000 && Number(0, 16) == 0
  {
    hide Number;
    NumberOfZero(16);
    NumberOfFour(8, 4);
    NumberOfFour(4, 4);
    MovedUp(8, 4);
    MovedUp(4, 4);
    NumberUpTwo(0x800, 12);
    NumberUpTwo(0x2000, 14);
    NumberUpTwo(0x400, 12);
    NumberUpTwo(0x1000, 14);
  }

  lemma Low3Number(n: nat)
    ensures Low3(n) <= 7 && Number(Low3(n), 16) == n % 8 && Number(Low3(n), 8) == n % 8
  {
    hide Number;
    NumberOfFour(Low3(n), 16);
    NumberOfFour(Low3(n), 8);
  }

  lemma EitherZero()
    ensures Either(0, 0) == 0 && forall a: nat :: Either(a, 0) == a
    ensures Either(0x8000, 0x4000) == 0xC000
  {
    EitherScale(2, 1, 14);
    ScaleBy(2);
    ScaleBy(1);
    ScaleBy(3);
    assert Either(1, 0) == 1;
    EitherStep(1, 0, 0, 1);
    assert Either(2, 1) == 3;
  }

  /** The two high bits of a guard. */
  function GuardHigh(i: Inst): nat { if i.guard.None? then 0 else if i.negated then 3 else 2 }

  lemma GuardPart(i: Inst)
    ensures Number(GuardBits(i), 16) == Either(0x4000 * GuardHigh(i), if i.guard.Some? then i.guard.value % 8 else 0)
  {
    hide Number, Either;
    HighBits();
    EitherZero();
    if i.guard.Some? {
      var p := Low3(i.guard.value);
      Low3Number(i.guard.value);
      NumberOfOr(0x8000 | p, if i.negated then 0x4000 else 0, 16);
      NumberOfOr(0x8000, p, 16);
      EitherSwap(0x8000, i.guard.value % 8, if i.negated then 0x4000 else 0);
    }
  }

  /** What follows the type field, in units of 0x100. */
  function ExtraNumber(i: Inst): nat {
    if i.compare.Some? then Number(CompareCode(i.compare.value), 4)
    else if i.space.Some? then 8 * Number(SpaceCode(i.space.value), 4)
    else i.family % 8
  }

  lemma ExtraPart(i: Inst)
    ensures Number(ExtraBits(i), 16) == 0x100 * ExtraNumber(i) && ExtraNumber(i) < 64
  {
    hide Number, CompareCode, SpaceCode;
    if i.compare.Some? {
      var c := CompareCode(i.compare.value);
      CodeRanges(B32, i.compare.value, Gmem);
      Masked(c);
      NumberMoved(c);
      NumberOfFour(c, 8);
      NumberOfFour(c, 4);
    } else if i.space.Some? {
      var c := SpaceCode(i.space.value);
      CodeRanges(B32, Eq, i.space.value);
      Masked(c);
      NumberMoved(c);
      SpaceNumber(c);
    } else {
      Low3Number(i.family);
      NumberMoved(Low3(i.family));
      NumberOfZero(16);
    }
  }

  lemma SpaceNumber(c: bv16)
    requires c <= 7
    ensures Number(c, 5) == Number(c, 4) && Number(c, 4) < 8
  {
    hide Number;
    NumberOfFour(c, 5);
    NumberOfFour(c, 4);
    assert c & 8 == 0;
  }

  lemma ControlNumber(i: Inst)
    ensures Number(PredCtrl(i), 16)
            == 0x4000 * GuardHigh(i) + 0x100 * Either(4 * Number(SourceCode(i), 4), ExtraNumber(i))
               + 8 * Number(TypeCode(EncodingType(i.opcode, i.dtype)), 4)
               + (if i.guard.Some? then i.guard.value % 8 else 0)
  {
    hide Number, Either, PredCtrl, TypeBits, GuardBits, ExtraBits, ExtraNumber, SourceCode, TypeCode, EncodingType,
         GuardHigh;
    ControlParts(i);
    TypePart(i);
    GuardPart(i);
    ExtraPart(i);
    CodesBelow(i);
    var t, source := Number(TypeCode(EncodingType(i.opcode, i.dtype)), 4), Number(SourceCode(i), 4);
    PartsAdd(t, 4 * source, GuardHigh(i), if i.guard.Some? then i.guard.value % 8 else 0, ExtraNumber(i));
  }

  lemma ControlParts(i: Inst)
    ensures Number(PredCtrl(i), 16)
            == Either(Either(Number(TypeBits(i), 16), Number(GuardBits(i), 16)), Number(ExtraBits(i), 16))
  {
    hide Number, Either, TypeBits, GuardBits, ExtraBits;
    NumberOfThree(TypeBits(i), GuardBits(i), ExtraBits(i));
  }

  lemma NumberOfThree(a: bv16, b: bv16, c: bv16)
    ensures Number(a | b | c, 16) == Either(Either(Number(a, 16), Number(b, 16)), Number(c, 16))
  {
    hide Number, Either;
    NumberOfOr(a | b, c, 16);
    NumberOfOr(a, b, 16);
  }

  lemma CodesBelow(i: Inst)
    ensures Number(TypeCode(EncodingType(i.opcode, i.dtype)), 4) < 16 && Number(SourceCode(i), 4) < 16
  {
    hide Number, SourceCode, TypeCode, EncodingType;
    CodeRanges(EncodingType(i.opcode, i.dtype), Eq, Gmem);
    FieldRanges(i);
    NumberOfFour(TypeCode(EncodingType(i.opcode, i.dtype)), 4);
    NumberOfFour(SourceCode(i), 4);
  }

  lemma PackSum(high: nat, low: nat)
    requires high < Half && low < Half
    ensures Pack(high, low) == 0x1_0000 * high + low
  {
  }

  lemma OpcodeFits(op: Opcode)
    ensures OpcodeCode(op) < Half
  {
  }

  lemma PartsApart(op: nat, guard: nat, options: nat, t: nat, p: nat, w: nat)
    requires guard < 4 && options < 64 && t < 16 && p < 8
    requires w == 0x1_0000 * op + 0x4000 * guard + 0x100 * options + 8 * t + p
    ensures w / 0x1_0000 == op && w / 0x8000 % 2 == guard / 2 && w / 0x4000 % 2 == guard % 2
    ensures w / 0x100 % 64 == options && w / 0x80 % 2 == 0 && w / 8 % 16 == t && w % 8 == p
  {
    var header := 4 * op + guard;
    Quotients(0x40 * header + options, 8 * t + p, w);
    LowFields(0x40 * header + options, t, p, w);
    HighFields(op, guard, options, w);
  }

  lemma Quotients(high: nat, low: nat, w: nat)
    requires low < 0x80 && w == 0x100 * high + low
    ensures w / 0x100 == high && w / 0x80 == 2 * high && w % 0x80 == low
  {
  }

  lemma LowFields(high: nat, t: nat, p: nat, w: nat)
    requires t < 16 && p < 8 && w == 0x100 * high + 8 * t + p
    ensures w / 8 % 16 == t && w % 8 == p
  {
    assert w / 8 == 16 * (2 * high) + t;
  }

  lemma HighFields(op: nat, guard: nat, options: nat, w: nat)
    requires guard < 4 && options < 64 && w / 0x100 == 0x40 * (4 * op + guard) + options
    ensures w / 0x1_0000 == op && w / 0x8000 % 2 == guard / 2 && w / 0x4000 % 2 == guard % 2
    ensures w / 0x100 % 64 == options
  {
    assert w / 0x4000 == w / 0x100 / 64 == 4 * op + guard;
    assert w / 0x8000 == w / 0x4000 / 2 == 2 * op + guard / 2;
    assert w / 0x1_0000 == w / 0x8000 / 2 == op;
  }

  /** The fields of the last word. */
  lemma LastWordParts(i: Inst)
    ensures
      var w := EncodeWords(i).w3;
      && w / 0x1_0000 == OpcodeCode(i.opcode) && w / 0x8000 % 2 == GuardHigh(i) / 2 && w / 0x4000 % 2 == GuardHigh(i) % 2
      && w / 0x100 % 64 == Either(4 * Number(SourceCode(i), 4), ExtraNumber(i)) && w / 0x80 % 2 == 0
      && w / 8 % 16 == Number(TypeCode(EncodingType(i.opcode, i.dtype)), 4)
      && w % 8 == if i.guard.Some? then i.guard.value % 8 else 0
  {
    hide PredCtrl, Number, Either, OpcodeCode, ExtraNumber, ExtraBits, SourceCode, TypeCode, EncodingType, Power2;
    var t, options := Number(TypeCode(EncodingType(i.opcode, i.dtype)), 4),
                      Either(4 * Number(SourceCode(i), 4), ExtraNumber(i));
    OpcodeFits(i.opcode);
    HalfWord(PredCtrl(i));
    PackSum(OpcodeCode(i.opcode), Number(PredCtrl(i), 16));
    ControlNumber(i);
    CodesBelow(i);
    ExtraPart(i);
    SmallPowers();
    EitherBound(4 * Number(SourceCode(i), 4), ExtraNumber(i), 6);
    PartsApart(OpcodeCode(i.opcode), GuardHigh(i), options, t, if i.guard.Some? then i.guard.value % 8 else 0,
               EncodeWords(i).w3);
  }

  /* ---------- the last word ---------- */

  /** The numbers that four bits write. */
  lemma Codes(a: bv16)
    requires a <= 0xF
    ensures a == 0 ==> Number(a, 4) == 0
    ensures a == 1 ==> Number(a, 4) == 1
    ensures a == 2 ==> Number(a, 4) == 2
    ensures a == 3 ==> Number(a, 4) == 3
    ensures a == 4 ==> Number(a, 4) == 4
    ensures a == 5 ==> Number(a, 4) == 5
    ensures a == 8 ==> Number(a, 4) == 8
    ensures a == 9 ==> Number(a, 4) == 9
    ensures a == 0xA ==> Number(a, 4) == 10
    ensures a == 0xB ==> Number(a, 4) == 11
    ensures a == 0xF ==> Number(a, 4) == 15
  {
    hide Number;
    NumberOfFour(a, 4);
  }

  lemma OpcodeOnWire(i: Inst, profile: Profile, w: Words)
    requires Encode(i, profile) == Ok(w)
    ensures w.w3 / 0x1_0000 == match i.opcode
      case Binary(ADD) => 0x01 case Binary(SUB) => 0x02 case Binary(MUL) => 0x03
      case Ternary(MAD) => 0x04 case Ternary(FMA) => 0x05
      case Extended(DIV) => 0x06 case Extended(NEG) => 0x07 case Extended(ABS) => 0x08
      case Extended(MIN) => 0x09 case Extended(MAX) => 0x0A
      case Binary(AND) => 0x10 case Binary(OR) => 0x11 case Binary(XOR) => 0x12 case Extended(NOT) => 0x13
      case Binary(SHL) => 0x14 case Binary(SHR) => 0x15
      case Extended(BFX) => 0x16 case Extended(BINS) => 0x17 case Extended(POPC) => 0x18 case Extended(FLO) => 0x19
      case Extended(CMP) => 0x20 case CMPP => 0x21 case Extended(SEL) => 0x22 case Extended(PICK) => 0x23
      case LD => 0x30 case ST => 0x31 case Extended(LDC) => 0x32 case Extended(ATOM) => 0x33
      case Control(BR) => 0x40 case Control(BRX) => 0x41 case Control(CALL) => 0x43 case Control(RET) => 0x44
      case Control(HALT) => 0x45 case Extended(SYNC_CT) => 0x47 case Extended(MBAR) => 0x49
      case Extended(CVTFF) => 0x50 case Extended(CVTFI) => 0x51 case Extended(CVTIF) => 0x52
      case Extended(CVTII) => 0x53 case CPY => 0x54 case LOADI => 0x55 case LOADI64 => 0x56
      case Extended(SHUF) => 0x57 case Extended(VOTE) => 0x58 case Extended(MTCH) => 0x59
      case Extended(RCP) => 0x70 case Extended(RSQ) => 0x71 case Extended(SIN) => 0x72 case Extended(COS) => 0x73
      case Extended(EXP) => 0x74 case Extended(LOG) => 0x75 case Extended(SQRT) => 0x76 case Extended(RDTSC) => 0x80
  {
    hide EncodeWords;
    LastWordParts(i);
  }

  /** A 32-bit shift of bits is written as unsigned, immediates and branches without a type. */
  lemma TypeOnWire(i: Inst, profile: Profile, w: Words)
    requires Encode(i, profile) == Ok(w)
    ensures w.w3 / 8 % 16 == match (i.opcode, i.dtype)
      case (LOADI, _) => 15 case (LOADI64, _) => 15 case (Control(BR), _) => 15 case (Control(BRX), _) => 15
      case (Binary(SHL), B32) => 2
      case (_, B32) => 0 case (_, B64) => 1 case (_, U32) => 2 case (_, S32) => 3 case (_, U8) => 4 case (_, S8) => 5
      case (_, F32) => 8 case (_, F64) => 9 case (_, F16) => 10 case (_, BF16) => 11 case (_, NoType) => 15
  {
    hide EncodeWords, Either, Number, OpcodeCode, SourceCode, GuardHigh, HasOpcode, HasType;
    LastWordParts(i);
    CodeRanges(EncodingType(i.opcode, i.dtype), Eq, Gmem);
    Codes(TypeCode(EncodingType(i.opcode, i.dtype)));
  }

  lemma GuardOnWire(i: Inst, profile: Profile, w: Words)
    requires Encode(i, profile) == Ok(w)
    ensures w.w3 / 0x8000 % 2 == 1 <==> i.guard.Some?
    ensures w.w3 / 0x4000 % 2 == 1 <==> i.negated
    ensures w.w3 % 8 == if i.guard.Some? then i.guard.value % 8 else 0
  {
    hide EncodeWords;
    LastWordParts(i);
  }

  /** The source type of a conversion is joined with a comparison, an address space or a family. */
  lemma OptionsOnWire(i: Inst, profile: Profile, w: Words, source: nat, extra: nat)
    requires Encode(i, profile) == Ok(w)
    requires source == match (i.opcode, i.cvtSource)
      case (Extended(op), Some(t)) =>
        if op in {CVTFF, CVTFI, CVTIF, CVTII} then
          match t
          case B32 => 0 case B64 => 1 case U32 => 2 case S32 => 3 case U8 => 4 case S8 => 5
          case F32 => 8 case F64 => 9 case F16 => 10 case BF16 => 11 case NoType => 15
        else 0
      case _ => 0
    requires extra == match (i.compare, i.space)
      case (Some(c), _) =>
        0x100 * (match c case Eq => 0 case Ne => 1 case Lt => 2 case Le => 3 case Gt => 4 case Ge => 5)
      case (None, Some(s)) =>
        0x800 * (match s case Gmem => 0 case Smem => 1 case Cmem => 2 case Lmem => 3 case Pmem => 4)
      case (None, None) => 0x100 * (i.family % 8)
    ensures 0x100 * (w.w3 / 0x100 % 64) == Either(0x400 * source, extra)
    ensures source == 0 || extra == 0 ==> Either(0x400 * source, extra) == 0x400 * source + extra
  {
    hide EncodeWords, Either, Number, Power2, OpcodeCode, EncodingType, GuardHigh, Scale, HasOpcode, HasType, Low3;
    LastWordParts(i);
    assert source == Number(SourceCode(i), 4) by {
      FieldRanges(i);
      Codes(SourceCode(i));
    }
    assert extra == 0x100 * ExtraNumber(i) by {
      CodeRanges(B32, if i.compare.Some? then i.compare.value else Eq, if i.space.Some? then i.space.value else Gmem);
      if i.compare.Some? {
        Codes(CompareCode(i.compare.value));
      } else if i.space.Some? {
        Codes(SpaceCode(i.space.value));
      }
    }
    EitherWide(4 * source, ExtraNumber(i));
    if source == 0 || extra == 0 {
      EitherNothing(0x400 * source, extra);
    }
  }

  lemma EitherWide(a: nat, b: nat)
    ensures Either(0x100 * a, 0x100 * b) == 0x100 * Either(a, b)
  {
    hide Either, Scale;
    EitherScale(a, b, 8);
    ScaleBy(a);
    ScaleBy(b);
    ScaleBy(Either(a, b));
  }

  lemma EitherNothing(a: nat, b: nat)
    requires a == 0 || b == 0
    ensures Either(a, b) == a + b
  {
  }

  /** These fields are all there is in the last word. */
  lemma LastWord(i: Inst, profile: Profile, w: Words)
    requires Encode(i, profile) == Ok(w)
    ensures w.w3 == 0x1_0000 * (w.w3 / 0x1_0000) + 0x8000 * (w.w3 / 0x8000 % 2) + 0x4000 * (w.w3 / 0x4000 % 2)
                    + 0x100 * (w.w3 / 0x100 % 64) + 8 * (w.w3 / 8 % 16) + w.w3 % 8
  {
    hide EncodeWords;
    LastWordParts(i);
    FieldsMakeUp(w.w3);
  }

  lemma FieldsMakeUp(w: nat)
    requires w / 0x80 % 2 == 0
    ensures w == 0x1_0000 * (w / 0x1_0000) + 0x8000 * (w / 0x8000 % 2) + 0x4000 * (w / 0x4000 % 2)
                 + 0x100 * (w / 0x100 % 64) + 8 * (w / 8 % 16) + w % 8
  {
    Shorten(w, 8, 16);
    Shorten(w, 0x80, 2);
    Shorten(w, 0x100, 64);
    Shorten(w, 0x4000, 2);
    Shorten(w, 0x8000, 2);
  }

  lemma Shorten(w: nat, a: nat, b: nat)
    requires (a, b) in {(8, 16), (0x80, 2), (0x100, 64), (0x4000, 2), (0x8000, 2)}
    ensures w / a == b * (w / (a * b)) + w / a % b
  {
    assert w / a / b == w / (a * b);
  }

  /* ---------- the other words ---------- */

  /** The immediate or the third source, the second source or the high half of the immediate, the two register fields. */
  lemma OtherWords(i: Inst, profile: Profile, w: Words)
    requires Encode(i, profile) == Ok(w)
    ensures w.w0 == (if i.opcode in {LOADI, LOADI64, Control(BR), Control(BRX), Control(CALL)} then i.imm else i.src3)
                    % 0x1_0000_0000
    ensures w.w1 == (if i.opcode == LOADI64 then i.imm / 0x1_0000_0000 else i.src2) % 0x1_0000_0000
    ensures w.w2 == 0x1_0000 * (i.dest % 0x1_0000) + i.src1 % 0x1_0000
  {
    hide PredCtrl, Number, OpcodeCode;
  }

  /* ---------- what can be encoded ---------- */

  /** The default profile has these nineteen opcodes, the extended one has all. */
  lemma OpcodesOf(profile: Profile, op: Opcode)
    ensures HasOpcode(profile, op) <==>
              profile.TrackB?
              || op in {Binary(ADD), Binary(SUB), Binary(MUL), Ternary(MAD), Ternary(FMA), Binary(AND), Binary(OR),
                        Binary(XOR), Binary(SHL), Binary(SHR), CMPP, LD, ST, Control(BR), Control(BRX), Control(HALT),
                        CPY, LOADI, LOADI64}
  {
    match op
    case Binary(b) => assert b.ADD? || b.SUB? || b.MUL? || b.AND? || b.OR? || b.XOR? || b.SHL? || b.SHR?;
    case Ternary(t) => assert t.MAD? || t.FMA?;
    case Control(c) => assert c.BR? || c.BRX? || c.HALT? || c.CALL? || c.RET?;
    case _ =>
  }

  /** And these six types, unless the instruction is written without one. */
  lemma TypesOf(profile: Profile, op: Opcode, t: DType)
    ensures HasType(profile, EncodingType(op, t)) <==>
              || profile.TrackB? || t in {B32, B64, U32, S32, F32, NoType}
              || op in {LOADI, LOADI64, Control(BR), Control(BRX)}
  {
  }

  /** An instruction can be encoded exactly when its profile has its opcode and type and its guard is complete. */
  lemma EncodesExactly(i: Inst, profile: Profile)
    ensures Encode(i, profile).Ok? <==>
              && (i.guard.None? ==> !i.negated && i.opcode != Control(BRX))
              && (profile.C1Default? ==>
                    && i.opcode in {Binary(ADD), Binary(SUB), Binary(MUL), Ternary(MAD), Ternary(FMA), Binary(AND),
                                    Binary(OR), Binary(XOR), Binary(SHL), Binary(SHR), CMPP, LD, ST, Control(BR),
                                    Control(BRX), Control(HALT), CPY, LOADI, LOADI64}
                    && (|| i.dtype in {B32, B64, U32, S32, F32, NoType}
                        || i.opcode in {LOADI, LOADI64, Control(BR), Control(BRX)}))
  {
    hide EncodeWords, EncodingType;
    OpcodesOf(profile, i.opcode);
    TypesOf(profile, i.opcode, i.dtype);
  }

  /** The first reason, in this order, for which an instruction cannot be encoded. */
  lemma ErrorExactly(i: Inst, profile: Profile)
    requires Encode(i, profile).Err?
    ensures
      var opcode := i.opcode.Extended? || i.opcode in {Control(CALL), Control(RET)};
      Encode(i, profile).error ==
        if profile.C1Default? && opcode then UnsupportedOpcode
        else if profile.C1Default? && i.dtype in {U8, S8, F64, F16, BF16}
                && i.opcode !in {LOADI, LOADI64, Control(BR), Control(BRX)} then UnsupportedType
        else if i.opcode == Control(BRX) && i.guard.None? then BranchWithoutPredicate
        else NegatedWithoutPredicate
  {
    hide EncodeWords;
  }

  /* ---------- the bytes ---------- */

  /** A stream is written exactly when every instruction can be encoded; the error is that of the first that cannot. */
  lemma {:induction false} StreamExactly(insts: seq<Inst>, profile: Profile, k: nat)
    requires k <= |insts| && forall j | 0 <= j < k :: Encode(insts[j], profile).Ok?
    ensures k == |insts| ==> Stream(insts, profile).Ok? && |Stream(insts, profile).value| == 16 * |insts|
    ensures k < |insts| && Encode(insts[k], profile).Err? ==>
              Stream(insts, profile) == Err(Encode(insts[k], profile).error)
  {
    hide Encode, WordsBytes;
    if k > 0 {
      StreamExactly(insts[1..], profile, k - 1);
    }
  }

  /** Every instruction of a stream was encoded. */
  lemma {:induction false} AllEncode(insts: seq<Inst>, profile: Profile)
    requires Stream(insts, profile).Ok?
    ensures |Stream(insts, profile).value| == 16 * |insts|
    ensures forall j | 0 <= j < |insts| :: Encode(insts[j], profile).Ok?
  {
    hide Encode, WordsBytes;
    if insts != [] {
      AllEncode(insts[1..], profile);
      assert insts == [insts[0]] + insts[1..];
    }
  }

  /** Its four words start at byte `16 * k`. */
  lemma {:induction false} StreamAt(insts: seq<Inst>, profile: Profile, k: nat)
    requires Stream(insts, profile).Ok? && k < |insts| && Encode(insts[k], profile).Ok?
    requires |Stream(insts, profile).value| == 16 * |insts|
    ensures Stream(insts, profile).value[16 * k..16 * k + 16] == WordsBytes(Encode(insts[k], profile).value)
  {
    hide Encode, WordsBytes;
    var rest, first := Stream(insts[1..], profile).value, WordsBytes(Encode(insts[0], profile).value);
    assert Stream(insts, profile).value == first + rest;
    if k > 0 {
      StreamAt(insts[1..], profile, k - 1);
      assert (first + rest)[16 * k..16 * k + 16] == rest[16 * (k - 1)..16 * (k - 1) + 16];
    }
  }

  lemma ByteOf(w: Words, n: nat)
    requires n < 16
    ensures
      var word := match n / 4 case 0 => w.w0 case 1 => w.w1 case 2 => w.w2 case _ => w.w3;
      WordsBytes(w)[n] == match n % 4
        case 0 => word % 0x100
        case 1 => word / 0x100 % 0x100
        case 2 => word / 0x1_0000 % 0x100
        case _ => word / 0x100_0000
  {
    var q, r := n / 4, n % 4;
    assert n == 4 * q + r;
    assert WordsBytes(w)[4 * q + r]
           == WordBytes(match q case 0 => w.w0 case 1 => w.w1 case 2 => w.w2 case _ => w.w3)[r];
  }

  /** Byte `n` of the four words of instruction `k`: the words in order, the lowest byte of each first. */
  lemma StreamOnWire(insts: seq<Inst>, profile: Profile, k: nat, n: nat)
    requires Stream(insts, profile).Ok? && k < |insts| && n < 16
    ensures |Stream(insts, profile).value| == 16 * |insts| && Encode(insts[k], profile).Ok?
    ensures
      var w := Encode(insts[k], profile).value;
      var word := match n / 4 case 0 => w.w0 case 1 => w.w1 case 2 => w.w2 case _ => w.w3;
      Stream(insts, profile).value[16 * k + n] == match n % 4
        case 0 => word % 0x100
        case 1 => word / 0x100 % 0x100
        case 2 => word / 0x1_0000 % 0x100
        case _ => word / 0x100_0000
  {
    hide Encode, WordsBytes, Stream;
    AllEncode(insts, profile);
    StreamAt(insts, profile, k);
    ByteOf(Encode(insts[k], profile).value, n);
    assert Stream(insts, profile).value[16 * k + n] == Stream(insts, profile).value[16 * k..16 * k + 16][n];
  }
}
