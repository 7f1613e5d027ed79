/** Writes that the dataflow phase does not see: exactly when they leave a false fact behind. */
module UnseenWrites {
  import opened Isa
  import M = Machine
  import opened Ptx
  import opened Dataflow
  import opened ConstantPropagation
  import opened PropagationMeaning

  /** Whatever the machine computes, the facts that the dataflow phase keeps are true after the instruction. */
  ghost predicate KeepsFacts(i: Instr, c: Constants) {
    forall unit: Unit, s: State | Holds(c, s.regs) && Perform(unit, i, s).Some? ::
      Holds(Transfer(Code(i), c), Perform(unit, i, s).value.regs)
  }

  /**
   Fused operations, carry operations, loads, comparisons, conversions and f32 arithmetic: what they write is not
   fixed by the values of known registers.
   */
  predicate Open(i: Instr) {
    && i.operands != []
    && (i.base.Fma? || i.base.Setp? || (i.base.Ld? && |i.operands| == 2)
        || (i.base.Pure? && (i.cc || Uninterpreted(i.base.op, i.ty, |i.operands| - 1))))
  }

  /** A unit that computes `w` everywhere, and comparisons that are `b`. */
  function Always(w: Word, b: bool): Unit {
    Unit((op: PureOp, mods: nat, t: Ty, v: seq<Word>) => w,
         (op: PureOp, mods: nat, t: Ty, v: seq<Word>, carry: Word) => (w, w),
         (mods: nat, t: Ty, v: seq<Word>) => w,
         (mods: nat, t: Ty, v: seq<Word>) => b,
         (mods: nat, t: Ty, name: Word) => w,
         (name: nat) => 0)
  }

  /** Registers that hold what is claimed, and let the guard pass. */
  function Claimed(c: Constants, i: Instr): map<Reg, Word> {
    var held := map r | r in c :: c[r].value;
    if i.guard.Some? then held[i.guard.value := if i.negated then 0 else 1] else held
  }

  lemma ClaimedHolds(c: Constants, i: Instr, mem: Memory)
    requires NoPredicates(c) && (i.guard.Some? ==> IsPredicate(i.guard.value))
    ensures Holds(c, Claimed(c, i)) && GuardPasses(i, State(Claimed(c, i), 0, mem, []))
  {
  }

  /** An open instruction can write any word that a comparison could not rule out. */
  lemma WritesAny(i: Instr, regs: map<Reg, Word>, w: Word, b: bool) returns (s: State)
    requires Open(i) && i.operands[0].RegOp? && (w == if b then 1 else 0)
    ensures s.regs == regs && Effect(Always(w, b), i, s).Some?
    ensures Get(Effect(Always(w, b), i, s).value.regs, i.operands[0].reg) == w
  {
    var unit := Always(w, b);
    var v := Values(unit, i.operands[1..], regs);
    s := State(regs, 0, if v == [] then map[] else map[v[0] := w], []);
    if i.base.Pure? && !i.cc {
      assert PureResult(unit, i.base.op, i.mods, i.ty, v) == w;
    }
  }

  /** A write that is not seen leaves the facts true, for every machine, exactly when its register has no fact. */
  lemma UnseenExactly(i: Instr, c: Constants)
    requires Unseen(i).Some? && Open(i) && NoPredicates(c) && (i.guard.Some? ==> IsPredicate(i.guard.value))
    ensures KeepsFacts(i, c) <==> Unseen(i).value !in c
  {
    var r := Unseen(i).value;
    assert Transfer(Code(i), c) == c;
    if r in c {
      var b := c[r].value == 0;
      var w: Word := if b then 1 else 0;
      var s := WritesAny(i, Claimed(c, i), w, b);
      ClaimedHolds(c, i, s.mem);
      assert Perform(Always(w, b), i, s) == Effect(Always(w, b), i, s);
      assert !Holds(c, Perform(Always(w, b), i, s).value.regs);
    } else {
      forall unit: Unit, s: State | Holds(c, s.regs) && Perform(unit, i, s).Some?
        ensures Holds(c, Perform(unit, i, s).value.regs)
      {
        if GuardPasses(i, s) {
          WritesOnlyOne(unit, i, s);
        }
      }
    }
  }

  /* ---------- guarded moves ---------- */

  predicate GuardedMove(i: Instr, r: Reg, o: Operand) {
    && i.base == Pure(Mov) && !i.cc && i.guard.Some? && IsPredicate(i.guard.value) && i.operands == [RegOp(r), o]
    && !IsPredicate(r) && (o.RegOp? || o.Addr? ==> !IsPredicate(o.reg))
  }

  /** The operand is known to have the value that is claimed for `r`. */
  predicate SameAs(o: Operand, r: Reg, c: Constants)
    requires r in c
  {
    match o
    case RegOp(x) => x == r || (x in c && c[x].value == c[r].value)
    case Addr(x) => x == r || (x in c && c[x].value == c[r].value)
    case Imm(v) => M.Wrap(v) == c[r].value
    case FloatImm(bits) => M.Wrap(bits) == c[r].value
    case Sym(_) => false
  }

  lemma MoveEffect(unit: Unit, i: Instr, r: Reg, o: Operand, s: State)
    requires GuardedMove(i, r, o)
    ensures Effect(unit, i, s) == Some(s.(regs := s.regs[r := Value(unit, o, s.regs)]))
  {
    assert i.operands[1..] == [o];
    assert Values(unit, [o], s.regs) == [Value(unit, o, s.regs)];
  }

  /** A state with the claimed values in which the operand has another value. */
  lemma OtherValue(i: Instr, r: Reg, o: Operand, c: Constants) returns (unit: Unit, s: State)
    requires GuardedMove(i, r, o) && NoPredicates(c) && r in c && !SameAs(o, r, c)
    ensures Holds(c, s.regs) && GuardPasses(i, s) && Value(unit, o, s.regs) != c[r].value
  {
    var other: Word := if c[r].value == 0 then 1 else 0;
    unit := Always(0, false).(symbol := (name: nat) => other);
    var regs := Claimed(c, i);
    if (o.RegOp? || o.Addr?) && o.reg !in c {
      regs := regs[o.reg := other];
    }
    s := State(regs, 0, map[], []);
    ClaimedHolds(c, i, map[]);
  }

  /** A guarded move leaves the facts true exactly when its register has no fact, or moves the value of the fact. */
  lemma GuardedMoveExactly(i: Instr, r: Reg, o: Operand, c: Constants)
    requires GuardedMove(i, r, o) && NoPredicates(c)
    ensures KeepsFacts(i, c) <==> r !in c || SameAs(o, r, c)
  {
    assert Transfer(Code(i), c) == c;
    if r in c && !SameAs(o, r, c) {
      var unit, s := OtherValue(i, r, o, c);
      MoveEffect(unit, i, r, o, s);
      assert Perform(unit, i, s) == Effect(unit, i, s);
      assert !Holds(c, Perform(unit, i, s).value.regs);
    } else {
      forall unit: Unit, s: State | Holds(c, s.regs) && Perform(unit, i, s).Some?
        ensures Holds(c, Perform(unit, i, s).value.regs)
      {
        MoveEffect(unit, i, r, o, s);
      }
    }
  }
}
