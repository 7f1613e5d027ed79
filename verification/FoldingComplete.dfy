/**
 Everything that can be folded is folded: which constants are known after an instruction and what becomes of it, said
 of operands, types and the machine's results.
 */
module FoldingComplete {
  import opened Isa
  import M = Machine
  import opened Ptx
  import opened Cfg
  import opened Dataflow
  import opened ConstantPropagation

  /* ---------- what is known of an operand ---------- */

  predicate WordInteger(t: Ty) { t == Ty.U32 || t == Ty.S32 || t == Ty.B32 }

  /** A constant of type `known` may be used at type `t`. */
  predicate UsableAs(known: Ty, t: Ty) { known == t || (WordInteger(known) && WordInteger(t)) }

  /** The value of an operand at type `t`, from an immediate or a known register. */
  function Given(o: Operand, t: Ty, c: Constants): Option<Word> {
    match o
    case Imm(v) => if WordInteger(t) then Some(v % 0x1_0000_0000) else None
    case FloatImm(bits) => if t == Ty.F32 then Some(bits % 0x1_0000_0000) else None
    case RegOp(r) => if r in c && UsableAs(c[r].ty, t) then Some(c[r].value) else None
    case _ => None
  }

  predicate AllGiven(i: Instr, c: Constants) {
    forall k | 1 <= k < |i.operands| :: Given(i.operands[k], i.ty, c).Some?
  }

  /** The values of the sources. */
  function GivenWords(i: Instr, c: Constants): (w: seq<Word>)
    requires i.operands != [] && AllGiven(i, c)
    ensures |w| == |i.operands| - 1
    ensures forall k | 0 <= k < |w| :: Some(w[k]) == Given(i.operands[k + 1], i.ty, c)
  {
    seq(|i.operands| - 1, k requires 0 <= k < |i.operands| - 1 => Given(i.operands[k + 1], i.ty, c).value)
  }

  predicate WritesGeneral(i: Instr) {
    i.base.Pure? && i.operands != [] && i.operands[0].RegOp? && !i.operands[0].reg.cls.PClass?
  }

  predicate BitwisePair(i: Instr) { i.base.Pure? && (i.base.op.And? || i.base.op.Or? || i.base.op.Xor?) && |i.operands| == 3 }

  /** Moves, u32 arithmetic and bitwise operations, without guard, into a general-purpose register. */
  predicate Foldable(i: Instr) {
    && i.guard.None? && WritesGeneral(i)
    && (|| (i.base.op.Mov? && |i.operands| == 2)
        || ((i.base.op.Add? || i.base.op.Sub? || i.base.op.Mul?) && i.ty == Ty.U32 && |i.operands| == 3)
        || BitwisePair(i))
  }

  lemma ResolveGiven(o: Operand, t: Ty, c: Constants)
    ensures Resolve(o, t, c) == match Given(o, t, c) case None => None case Some(w) => Some(Const(t, w))
  {
  }

  lemma ResolveAllGiven(i: Instr, c: Constants)
    requires i.operands != []
    ensures
      var known := ResolveAll(i.operands[1..], i.ty, c);
      && (forall k | 0 <= k < |known| ::
            known[k] == match Given(i.operands[k + 1], i.ty, c) case None => None case Some(w) => Some(Const(i.ty, w)))
      && ((forall k | 0 <= k < |known| :: known[k].Some?) <==> AllGiven(i, c))
  {
    var ops := i.operands[1..];
    var known := ResolveAll(ops, i.ty, c);
    forall k | 0 <= k < |known|
      ensures known[k] == match Given(i.operands[k + 1], i.ty, c) case None => None case Some(w) => Some(Const(i.ty, w))
    {
      ResolveGiven(ops[k], i.ty, c);
      assert ops[k] == i.operands[k + 1];
    }
    if forall k | 0 <= k < |known| :: known[k].Some? {
      forall k | 1 <= k < |i.operands|
        ensures Given(i.operands[k], i.ty, c).Some?
      {
        assert ops[k - 1] == i.operands[k] && known[k - 1].Some?;
      }
    }
  }

  /* ---------- one instruction ---------- */

  /** Folding claims a constant exactly when it can. */
  lemma FoldClaimsSome(i: Instr, c: Constants)
    requires WritesGeneral(i)
    ensures Fold(i, c).1.Some? <==> Foldable(i) && AllGiven(i, c)
  {
    hide Substitute, EvaluateU32, EvaluateBits, Given, AllGiven, Resolve;
    ResolveAllGiven(i, c);
    var known := ResolveAll(i.operands[1..], i.ty, c);
    assert |known| == |i.operands| - 1;
    if Foldable(i) && AllGiven(i, c) {
      assert known[0].Some?;
    }
  }

  /** The constant is the machine's result on the known words. */
  lemma FoldClaims(unit: Unit, i: Instr, c: Constants)
    requires WritesGeneral(i)
    ensures Fold(i, c).1.Some? <==> Foldable(i) && AllGiven(i, c)
    ensures Foldable(i) && AllGiven(i, c) ==>
              Fold(i, c).1 == Some(Const(i.ty, PureResult(unit, i.base.op, i.mods, i.ty, GivenWords(i, c))))
  {
    FoldClaimsSome(i, c);
    if Foldable(i) && AllGiven(i, c) {
      hide Substitute, PureResult, EvaluateU32, EvaluateBits, Given, AllGiven, Resolve;
      ResolveAllGiven(i, c);
      var known, w := ResolveAll(i.operands[1..], i.ty, c), GivenWords(i, c);
      assert forall k | 0 <= k < |known| :: known[k] == Some(Const(i.ty, w[k]));
      assert known[0].Some?;
      FoldValue(unit, i.base.op, i.mods, i.ty, w);
    }
  }

  /** After an instruction without guard and carry its destination is known exactly when it could be folded. */
  lemma KnownAfterExactly(unit: Unit, i: Instr, c: Constants)
    requires WritesGeneral(i) && i.guard.None? && !i.cc
    ensures
      var d, after := i.operands[0].reg, Transfer(Code(i), c);
      && (d in after <==> Foldable(i) && AllGiven(i, c))
      && (d in after ==> after[d] == Const(i.ty, PureResult(unit, i.base.op, i.mods, i.ty, GivenWords(i, c))))
      && (forall r | r != d :: (r in after <==> r in c) && (r in c ==> after[r] == c[r]))
  {
    hide Fold;
    FoldClaims(unit, i, c);
  }

  /** While rewriting, the same holds of every instruction; one with a guard leaves its destination unknown. */
  lemma KnownHereExactly(unit: Unit, i: Instr, c: Constants)
    requires WritesGeneral(i)
    ensures
      var d, after := i.operands[0].reg, UpdateItem(Code(i), c);
      && (d in after <==> Foldable(i) && AllGiven(i, c))
      && (d in after ==> after[d] == Const(i.ty, PureResult(unit, i.base.op, i.mods, i.ty, GivenWords(i, c))))
      && (forall r | r != d :: (r in after <==> r in c) && (r in c ==> after[r] == c[r]))
  {
    hide Fold;
    FoldClaims(unit, i, c);
  }

  function Written(t: Ty, w: Word): Operand { if t == Ty.F32 then FloatImm(w) else Imm(w) }

  /** Instructions that are rewritten at all. */
  predicate Rewritable(i: Instr) { i.guard.None? && WritesGeneral(i) && !i.base.op.Cvt? }

  /** The operands with every known source written out. */
  predicate SourcesWritten(i: Instr, c: Constants, after: Instr) {
    && after == i.(operands := after.operands) && |after.operands| == |i.operands|
    && forall k | 0 <= k < |i.operands| ::
         after.operands[k] == match (if k == 0 then None else Given(i.operands[k], i.ty, c))
                              case None => i.operands[k]
                              case Some(w) => Written(i.ty, w)
  }

  /** Substitution writes out exactly the known sources. */
  lemma SubstituteWrites(i: Instr, c: Constants)
    requires i.operands != []
    ensures SourcesWritten(i, c, i.(operands := [i.operands[0]]
                                                + Substitute(i.operands[1..], ResolveAll(i.operands[1..], i.ty, c))))
  {
    var sources := i.operands[1..];
    var known := ResolveAll(sources, i.ty, c);
    var after := i.(operands := [i.operands[0]] + Substitute(sources, known));
    forall k | 0 <= k < |i.operands|
      ensures after.operands[k] == match (if k == 0 then None else Given(i.operands[k], i.ty, c))
                                   case None => i.operands[k]
                                   case Some(w) => Written(i.ty, w)
    {
      if k > 0 {
        ResolveGiven(sources[k - 1], i.ty, c);
      }
    }
  }

  lemma NothingWritten(i: Instr, c: Constants)
    requires forall k | 1 <= k < |i.operands| :: Given(i.operands[k], i.ty, c).None?
    ensures SourcesWritten(i, c, i)
  {
  }

  /** Which of its results folding returns. */
  lemma FoldReturns(i: Instr, c: Constants)
    ensures !Rewritable(i) ==> Fold(i, c).0 == i
    ensures Rewritable(i) && !(BitwisePair(i) && AllGiven(i, c)) ==>
              || Fold(i, c).0 == i.(operands := [i.operands[0]]
                                                + Substitute(i.operands[1..], ResolveAll(i.operands[1..], i.ty, c)))
              || (Fold(i, c).0 == i && forall k | 1 <= k < |i.operands| :: Given(i.operands[k], i.ty, c).None?)
  {
    if Rewritable(i) {
      ResolveAllGiven(i, c);
      var known := ResolveAll(i.operands[1..], i.ty, c);
      if forall k | 0 <= k < |known| :: known[k].None? {
        forall k | 1 <= k < |i.operands|
          ensures Given(i.operands[k], i.ty, c).None?
        {
          assert known[k - 1].None?;
        }
      }
    }
  }

  /** A bitwise operation on known words becomes a move of its value. */
  lemma BitwiseBecomesMove(unit: Unit, i: Instr, c: Constants)
    requires Rewritable(i) && BitwisePair(i) && AllGiven(i, c)
    ensures Fold(i, c).0 ==
              i.(base := Pure(Mov), mods := 0, cc := false,
                 operands := [i.operands[0], Written(i.ty, PureResult(unit, i.base.op, i.mods, i.ty, GivenWords(i, c)))])
  {
    ResolveAllGiven(i, c);
    var known, w := ResolveAll(i.operands[1..], i.ty, c), GivenWords(i, c);
    assert forall k | 0 <= k < |known| :: known[k] == Some(Const(i.ty, w[k]));
    assert known[0].Some?;
    FoldValue(unit, i.base.op, i.mods, i.ty, w);
  }

  /** What becomes of an instruction where `c` is known. */
  predicate Becomes(unit: Unit, i: Instr, c: Constants, after: Instr) {
    if !Rewritable(i) then after == i
    else if BitwisePair(i) && AllGiven(i, c) then
      after == i.(base := Pure(Mov), mods := 0, cc := false,
                  operands := [i.operands[0],
                               Written(i.ty, PureResult(unit, i.base.op, i.mods, i.ty, GivenWords(i, c)))])
    else SourcesWritten(i, c, after)
  }

  lemma RewrittenExactly(unit: Unit, i: Instr, c: Constants)
    ensures Becomes(unit, i, c, Fold(i, c).0)
  {
    hide Fold, SourcesWritten, Substitute, PureResult;
    FoldReturns(i, c);
    if Rewritable(i) {
      if BitwisePair(i) && AllGiven(i, c) {
        BitwiseBecomesMove(unit, i, c);
      } else {
        SubstituteWrites(i, c);
        if forall k | 1 <= k < |i.operands| :: Given(i.operands[k], i.ty, c).None? {
          NothingWritten(i, c);
        }
      }
    }
  }

  /* ---------- programs ---------- */

  /** What the pass returns in the place of each item. */
  lemma ResultExactly(unit: Unit, p: Program, preds: Preds, exits: Exits, q: Program, k: nat)
    requires Rewritten(p, preds, exits, q) && k < |p|
    ensures p[k].Label? ==> q[k] == p[k]
    ensures p[k].Code? ==> q[k].Code? && Becomes(unit, p[k].inst, FactsAt(p, preds, exits, k), q[k].inst)
  {
    hide Fold, Becomes, FactsAt;
    assert RewritesTo(p, preds, exits, k, q[k]);
    if p[k].Code? {
      RewrittenExactly(unit, p[k].inst, FactsAt(p, preds, exits, k));
    }
  }

  /** What is known after an item inside a block. */
  lemma KnownNextExactly(unit: Unit, p: Program, preds: Preds, exits: Exits, k: nat)
    requires k + 1 < |p| && p[k].Code? && !Leader(p, k + 1)
    ensures
      var i, before, after := p[k].inst, FactsAt(p, preds, exits, k), FactsAt(p, preds, exits, k + 1);
      if Destination(i).None? || Destination(i).value.cls.PClass? then after == before
      else
        var d := Destination(i).value;
        && (d in after <==> Foldable(i) && AllGiven(i, before))
        && (d in after ==> after[d] == Const(i.ty, PureResult(unit, i.base.op, i.mods, i.ty, GivenWords(i, before))))
        && (forall r | r != d :: (r in after <==> r in before) && (r in before ==> after[r] == before[r]))
  {
    hide Fold, FactsAt, Foldable, AllGiven, PureResult;
    FactsAtNext(p, preds, exits, k + 1);
    if WritesGeneral(p[k].inst) {
      KnownHereExactly(unit, p[k].inst, FactsAt(p, preds, exits, k));
    } else {
      NothingClaimed(p[k].inst, FactsAt(p, preds, exits, k));
    }
  }

  lemma NothingClaimed(i: Instr, c: Constants)
    requires !WritesGeneral(i)
    ensures Fold(i, c).1.None? && !Foldable(i)
  {
  }

  /** Item `k` writes `r` and is the last before item `n` that does. */
  function LastWriter(p: Program, n: nat, r: Reg): (w: Option<nat>)
    requires n <= |p|
    ensures w.Some? ==> w.value < n && p[w.value].Code?
  {
    if n == 0 then None
    else if p[n - 1].Code? && Destination(p[n - 1].inst) == Some(r) then Some(n - 1)
    else LastWriter(p, n - 1, r)
  }

  /** An immediate of the type of the instruction, or a register written before at a type that can be used. */
  predicate Constant(p: Program, k: nat, o: Operand, t: Ty)
    requires k <= |p|
  {
    match o
    case Imm(_) => WordInteger(t)
    case FloatImm(_) => t == Ty.F32
    case RegOp(r) =>
      var w := LastWriter(p, k, r);
      w.Some? && UsableAs(p[w.value].inst.ty, t)
    case _ => false
  }

  /** The first `n` items compute constants from constants. */
  predicate ClosedPrefix(p: Program, n: nat) {
    n <= |p| && forall k | 0 <= k < n :: ClosedItem(p, k)
  }

  predicate ClosedItem(p: Program, k: nat)
    requires k < |p|
  {
    && p[k].Code? && Foldable(p[k].inst) && !p[k].inst.cc
    && forall j | 1 <= j < |p[k].inst.operands| :: Constant(p, k, p[k].inst.operands[j], p[k].inst.ty)
  }

  /** Everything written is known, at the type of the instruction that wrote it. */
  ghost predicate AllKnown(p: Program, k: nat, c: Constants)
    requires k <= |p|
  {
    forall r | LastWriter(p, k, r).Some? :: r in c && c[r].ty == p[LastWriter(p, k, r).value].inst.ty
  }

  lemma ClosedGiven(p: Program, k: nat, c: Constants)
    requires k < |p| && ClosedItem(p, k) && AllKnown(p, k, c)
    ensures AllGiven(p[k].inst, c)
  {
    var i := p[k].inst;
    forall j | 1 <= j < |i.operands|
      ensures Given(i.operands[j], i.ty, c).Some?
    {
      assert Constant(p, k, i.operands[j], i.ty);
    }
  }

  lemma ClosedNext(unit: Unit, p: Program, k: nat, c: Constants)
    requires k < |p| && ClosedItem(p, k) && AllKnown(p, k, c)
    ensures AllKnown(p, k + 1, UpdateItem(p[k], c))
  {
    hide UpdateItem, Foldable, Constant;
    ClosedGiven(p, k, c);
    ClosedDestination(p, k);
    KnownHereExactly(unit, p[k].inst, c);
  }

  lemma ClosedDestination(p: Program, k: nat)
    requires k < |p| && ClosedItem(p, k)
    ensures WritesGeneral(p[k].inst) && Foldable(p[k].inst)
    ensures Destination(p[k].inst) == Some(p[k].inst.operands[0].reg)
  {
  }

  /** Along the items everything written is known, whatever is known at their start. */
  lemma {:induction false} ClosedKnown(unit: Unit, p: Program, n: nat, k: nat, c: Constants)
    requires ClosedPrefix(p, n) && k <= n
    ensures AllKnown(p, k, TransferRange(ApplyFlow(p), 0, k, c))
  {
    hide ClosedItem, UpdateItem, AllKnown;
    if k > 0 {
      ClosedKnown(unit, p, n, k - 1, c);
      ClosedNext(unit, p, k - 1, TransferRange(ApplyFlow(p), 0, k - 1, c));
    } else {
      NothingWrittenYet(p, c);
    }
  }

  lemma NothingWrittenYet(p: Program, c: Constants)
    ensures AllKnown(p, 0, c)
  {
  }

  lemma {:induction false} ClosedBlock(p: Program, n: nat, k: nat)
    requires ClosedPrefix(p, n) && k < n
    ensures BlockOf(p, k) == 0
  {
    if k > 0 {
      ClosedBlock(p, n, k - 1);
      assert ClosedItem(p, k) && ClosedItem(p, k - 1);
      assert !Leader(p, k);
    }
  }

  predicate IsLiteral(o: Operand) { o.Imm? || o.FloatImm? }

  /** In the result of the pass every source of such a program is a literal. */
  lemma ClosedFolds(unit: Unit, p: Program, preds: Preds, exits: Exits, q: Program, n: nat, k: nat)
    requires Rewritten(p, preds, exits, q) && ClosedPrefix(p, n) && k < n
    ensures q[k].Code? && forall j | 1 <= j < |q[k].inst.operands| :: IsLiteral(q[k].inst.operands[j])
    ensures p[k].Code? && AllGiven(p[k].inst, FactsAt(p, preds, exits, k))
  {
    assert ClosedItem(p, k);
    var i, c := p[k].inst, FactsAt(p, preds, exits, k);
    ClosedBlock(p, n, k);
    ClosedKnown(unit, p, n, k, EntryFacts(preds, exits, 0));
    ClosedGiven(p, k, c);
    ClosedDestination(p, k);
    assert RewritesTo(p, preds, exits, k, q[k]);
    RewrittenExactly(unit, i, c);
  }

  /* ---------- against the machine ---------- */

  lemma GivenIsValue(unit: Unit, o: Operand, t: Ty, c: Constants, regs: map<Reg, Word>)
    requires Holds(c, regs) && Given(o, t, c).Some?
    ensures Value(unit, o, regs) == Given(o, t, c).value
  {
  }

  lemma GivenAreValues(unit: Unit, i: Instr, c: Constants, s: State)
    requires Holds(c, s.regs) && i.operands != [] && AllGiven(i, c)
    ensures Values(unit, i.operands[1..], s.regs) == GivenWords(i, c)
  {
    forall k | 0 <= k < |i.operands| - 1
      ensures Value(unit, i.operands[1..][k], s.regs) == GivenWords(i, c)[k]
    {
      GivenIsValue(unit, i.operands[k + 1], i.ty, c, s.regs);
    }
  }

  /** A closed item keeps the facts true and goes to the next. */
  lemma ClosedStep(unit: Unit, p: Program, k: nat, c: Constants, s: State)
    requires k < |p| && ClosedItem(p, k) && AllKnown(p, k, c) && Holds(c, s.regs)
    ensures Step(unit, p, k, s).At? && Step(unit, p, k, s).pc == k + 1
    ensures Holds(UpdateItem(p[k], c), Step(unit, p, k, s).s.regs)
  {
    hide UpdateItem, Constant, PureResult, AllKnown;
    var i := p[k].inst;
    ClosedGiven(p, k, c);
    ClosedDestination(p, k);
    KnownHereExactly(unit, i, c);
    GivenAreValues(unit, i, c, s);
    PureEffect(unit, i, s);
  }

  /** The run goes through the items in order, and the known constants are true along it. */
  lemma {:induction false} ClosedRun(unit: Unit, p: Program, n: nat, k: nat, s: State)
    requires ClosedPrefix(p, n) && k <= n
    ensures
      var o := Run(Steps(unit, p), At(0, s), k);
      o.At? && o.pc == k && Holds(TransferRange(ApplyFlow(p), 0, k, map[]), o.s.regs)
  {
    hide ClosedItem, UpdateItem, Holds, AllKnown;
    if k > 0 {
      ClosedRun(unit, p, n, k - 1, s);
      ClosedKnown(unit, p, n, k - 1, map[]);
      var o := Run(Steps(unit, p), At(0, s), k - 1);
      ClosedStep(unit, p, k - 1, TransferRange(ApplyFlow(p), 0, k - 1, map[]), o.s);
      RunMore(Steps(unit, p), At(0, s), k - 1, k - 1, o.s);
    } else {
      NoFactsHold(s);
    }
  }

  lemma NoFactsHold(s: State)
    ensures Holds(map[], s.regs)
  {
  }

  lemma NothingEnters(preds: Preds, exits: Exits)
    requires 0 in preds && preds[0] == {}
    ensures EntryFacts(preds, exits, 0) == map[]
  {
  }

  /**
   What the pass must return for such a program: each source is the literal of the value that the source has when the
   run is there, and a bitwise operation is a move of the value that it computes there.
   */
  lemma ClosedResult(unit: Unit, p: Program, preds: Preds, exits: Exits, q: Program, n: nat, k: nat, s: State)
    requires Rewritten(p, preds, exits, q) && ClosedPrefix(p, n) && k < n && 0 in preds && preds[0] == {}
    ensures p[k].Code? && p[k].inst.operands != []
    ensures
      var i, o := p[k].inst, Run(Steps(unit, p), At(0, s), k);
      && o.At? && o.pc == k
      && var v := Values(unit, i.operands[1..], o.s.regs);
         q[k] == if BitwisePair(i)
                 then Code(i.(base := Pure(Mov), mods := 0,
                              operands := [i.operands[0], Written(i.ty, PureResult(unit, i.base.op, i.mods, i.ty, v))]))
                 else Code(i.(operands := [i.operands[0]] + seq(|v|, j requires 0 <= j < |v| => Written(i.ty, v[j]))))
  {
    hide PureResult;
    assert ClosedItem(p, k);
    var i, c, o := p[k].inst, FactsAt(p, preds, exits, k), Run(Steps(unit, p), At(0, s), k);
    ClosedBlock(p, n, k);
    NothingEnters(preds, exits);
    ClosedRun(unit, p, n, k, s);
    ClosedFolds(unit, p, preds, exits, q, n, k);
    GivenAreValues(unit, i, c, o.s);
    assert RewritesTo(p, preds, exits, k, q[k]);
    RewrittenExactly(unit, i, c);
    AllWritten(i, c, q[k].inst, GivenWords(i, c));
  }

  lemma AllWritten(i: Instr, c: Constants, after: Instr, v: seq<Word>)
    requires i.operands != [] && AllGiven(i, c) && v == GivenWords(i, c)
    ensures SourcesWritten(i, c, after) ==>
              after == i.(operands := [i.operands[0]] + seq(|v|, j requires 0 <= j < |v| => Written(i.ty, v[j])))
  {
    if SourcesWritten(i, c, after) {
      var ops := [i.operands[0]] + seq(|v|, j requires 0 <= j < |v| => Written(i.ty, v[j]));
      forall k | 0 <= k < |ops|
        ensures after.operands[k] == ops[k]
      {
      }
    }
  }

  /* ---------- an example ---------- */

  const R1 := Reg(RClass, 1)
  const R2 := Reg(RClass, 2)
  const R3 := Reg(RClass, 3)

  function U32Instr(op: PureOp, operands: seq<Operand>): Item {
    Code(Instr(Pure(op), 0, false, Ty.U32, operands, None, false))
  }

  const Return := Code(Instr(Ret, 0, false, OtherTy(0), [], None, false))

  /** `mov.u32 r1, 5; add.u32 r2, r1, 7; sub.u32 r3, r2, 1; ret` */
  const Example: Program :=
    [U32Instr(Mov, [RegOp(R1), Imm(5)]), U32Instr(Add, [RegOp(R2), RegOp(R1), Imm(7)]),
     U32Instr(Sub, [RegOp(R3), RegOp(R2), Imm(1)]), Return]

  lemma ExampleClosed()
    ensures ClosedPrefix(Example, 3)
  {
    assert LastWriter(Example, 1, R1) == Some(0);
    assert LastWriter(Example, 2, R2) == Some(1);
    assert ClosedItem(Example, 0) && ClosedItem(Example, 1) && ClosedItem(Example, 2);
  }

  const Known1: Constants := map[R1 := Const(Ty.U32, 5)]
  const Known2: Constants := map[R1 := Const(Ty.U32, 5), R2 := Const(Ty.U32, 12)]

  lemma ExampleUpdates()
    ensures UpdateItem(Example[0], map[]) == Known1 && UpdateItem(Example[1], Known1) == Known2
  {
    var add := Example[1].inst;
    var known := ResolveAll(add.operands[1..], add.ty, Known1);
    assert known == [Some(Const(Ty.U32, 5)), Some(Const(Ty.U32, 7))];
    assert known[0].Some? && known[1].Some?;
    assert EvaluateU32(Add, 5, 7) == 12;
    assert Fold(add, Known1).1 == Some(Const(Ty.U32, 12));
    assert Known1[R2 := Const(Ty.U32, 12)] == Known2;
    var move := Example[0].inst;
    var moved := ResolveAll(move.operands[1..], move.ty, map[]);
    assert moved == [Some(Const(Ty.U32, 5))] && moved[0].Some?;
  }

  lemma RewritesFirst()
    ensures RewriteItem(Example[0], map[]) == U32Instr(Mov, [RegOp(R1), Imm(5)])
  {
    var move := Example[0].inst;
    var known := ResolveAll(move.operands[1..], move.ty, map[]);
    assert known == [Some(Const(Ty.U32, 5))] && known[0].Some?;
    assert Substitute(move.operands[1..], known) == [Imm(5)];
  }

  lemma RewritesSecond()
    ensures RewriteItem(Example[1], Known1) == U32Instr(Add, [RegOp(R2), Imm(5), Imm(7)])
  {
    var add := Example[1].inst;
    var known := ResolveAll(add.operands[1..], add.ty, Known1);
    assert known == [Some(Const(Ty.U32, 5)), Some(Const(Ty.U32, 7))] && known[0].Some? && known[1].Some?;
    assert Substitute(add.operands[1..], known) == [Imm(5), Imm(7)];
  }

  lemma RewritesThird()
    ensures RewriteItem(Example[2], Known2) == U32Instr(Sub, [RegOp(R3), Imm(12), Imm(1)])
  {
    var sub := Example[2].inst;
    var known := ResolveAll(sub.operands[1..], sub.ty, Known2);
    assert known == [Some(Const(Ty.U32, 12)), Some(Const(Ty.U32, 1))] && known[0].Some? && known[1].Some?;
    assert Substitute(sub.operands[1..], known) == [Imm(12), Imm(1)];
  }

  lemma RewritesReturn(c: Constants)
    ensures RewriteItem(Return, c) == Return
  {
  }

  lemma ExampleFacts(preds: Preds, exits: Exits)
    requires 0 in preds && preds[0] == {}
    ensures FactsAt(Example, preds, exits, 0) == map[]
    ensures FactsAt(Example, preds, exits, 1) == Known1
    ensures FactsAt(Example, preds, exits, 2) == Known2
  {
    hide UpdateItem;
    ExampleClosed();
    ClosedBlock(Example, 3, 1);
    ClosedBlock(Example, 3, 2);
    NothingEnters(preds, exits);
    ExampleUpdates();
    assert TransferRange(ApplyFlow(Example), 0, 1, map[]) == ApplyFlow(Example)(0, map[]);
    assert TransferRange(ApplyFlow(Example), 0, 2, map[]) == ApplyFlow(Example)(1, Known1);
  }

  /** The pass must fold it. */
  lemma ExampleFolds(preds: Preds, exits: Exits, q: Program)
    requires Rewritten(Example, preds, exits, q) && 0 in preds && preds[0] == {}
    ensures q == [U32Instr(Mov, [RegOp(R1), Imm(5)]), U32Instr(Add, [RegOp(R2), Imm(5), Imm(7)]),
                  U32Instr(Sub, [RegOp(R3), Imm(12), Imm(1)]), Return]
  {
    hide RewriteItem, FactsAt;
    ExampleFacts(preds, exits);
    RewritesFirst();
    RewritesSecond();
    RewritesThird();
    RewritesReturn(FactsAt(Example, preds, exits, 3));
    forall k | 0 <= k < 4
      ensures RewritesTo(Example, preds, exits, k, q[k])
    {
    }
  }
}
