/** Global constant propagation: folding, dataflow over the blocks, and rewriting. */
module ConstantPropagation {
  import opened Isa
  import M = Machine
  import opened Ptx
  import opened Cfg
  import opened Graphs
  import opened Dataflow

  /* ---------- folding one instruction ---------- */

  predicate TypeMatches(known: Ty, requested: Ty) {
    if requested.F32? then known.F32?
    else if IsInt32(requested) then IsInt32(known)
    else known == requested
  }

  /** `_resolve_constant` */
  function Resolve(o: Operand, t: Ty, c: Constants): Option<Const> {
    match o
    case RegOp(r) => if r in c && TypeMatches(c[r].ty, t) then Some(Const(t, c[r].value)) else None
    case Imm(v) => if IsInt32(t) then Some(Const(t, M.Wrap(v))) else None
    case FloatImm(bits) => if t.F32? then Some(Const(t, M.Wrap(bits))) else None
    case _ => None
  }

  /** `_format_constant` */
  function Literal(k: Const): Operand {
    if k.ty.F32? then FloatImm(k.value) else Imm(k.value)
  }

  function ResolveAll(operands: seq<Operand>, t: Ty, c: Constants): (r: seq<Option<Const>>)
    ensures |r| == |operands| && forall k | 0 <= k < |r| :: r[k] == Resolve(operands[k], t, c)
  {
    seq(|operands|, k requires 0 <= k < |operands| => Resolve(operands[k], t, c))
  }

  function Substitute(operands: seq<Operand>, known: seq<Option<Const>>): (r: seq<Operand>)
    requires |known| == |operands|
    ensures |r| == |operands|
    ensures forall k | 0 <= k < |r| :: r[k] == if known[k].Some? then Literal(known[k].value) else operands[k]
  {
    seq(|operands|, k requires 0 <= k < |operands| =>
      if known[k].Some? then Literal(known[k].value) else operands[k])
  }

  function EvaluateU32(op: PureOp, a: Word, b: Word): Word
    requires op.Add? || op.Sub? || op.Mul?
  {
    var x: int, y: int := a, b;
    match op
    case Add => M.Wrap(x + y)
    case Sub => M.Wrap(x - y)
    case _ => M.Wrap(x * y)
  }

  function EvaluateBits(op: PureOp, a: Word, b: Word): Word
    requires op.And? || op.Or? || op.Xor?
  {
    match op
    case And => M.BitAnd(a, b)
    case Or => M.BitOr(a, b)
    case _ => M.BitXor(a, b)
  }

  /** `_fold_with_constants`: the rewritten instruction and the constant it now writes, if known. */
  function Fold(i: Instr, c: Constants): (Instr, Option<Const>) {
    if i.guard.Some? || !i.base.Pure? || i.base.op.Cvt? || Destination(i).None? || IsPredicate(Destination(i).value)
    then (i, None)
    else
      var sources := i.operands[1..];
      var known := ResolveAll(sources, i.ty, c);
      if forall k | 0 <= k < |known| :: known[k].None? then (i, None)
      else
        var op, folded := i.base.op, i.(operands := [i.operands[0]] + Substitute(sources, known));
        if exists k | 0 <= k < |known| :: known[k].None? then (folded, None)
        else if op.Mov? && |known| == 1 then (folded, known[0])
        else if (op.Add? || op.Sub? || op.Mul?) && |known| == 2 && i.ty.U32? then
          (folded, Some(Const(i.ty, EvaluateU32(op, known[0].value.value, known[1].value.value))))
        else if (op.And? || op.Or? || op.Xor?) && |known| == 2 then
          var k := Const(i.ty, EvaluateBits(op, known[0].value.value, known[1].value.value));
          (folded.(base := Pure(Mov), mods := 0, cc := false, operands := [i.operands[0], Literal(k)]), Some(k))
        else (folded, None)
  }

  lemma ResolveSound(unit: Unit, o: Operand, t: Ty, c: Constants, regs: map<Reg, Word>)
    requires Holds(c, regs)
    ensures Resolve(o, t, c).Some? ==>
              Value(unit, o, regs) == Resolve(o, t, c).value.value
              && Value(unit, Literal(Resolve(o, t, c).value), regs) == Value(unit, o, regs)
  {
  }

  lemma SubstituteSound(unit: Unit, operands: seq<Operand>, t: Ty, c: Constants, regs: map<Reg, Word>)
    requires Holds(c, regs)
    ensures Values(unit, Substitute(operands, ResolveAll(operands, t, c)), regs) == Values(unit, operands, regs)
    ensures forall k | 0 <= k < |operands| && Resolve(operands[k], t, c).Some? ::
              Values(unit, operands, regs)[k] == Resolve(operands[k], t, c).value.value
  {
    forall k | 0 <= k < |operands|
      ensures Value(unit, Substitute(operands, ResolveAll(operands, t, c))[k], regs) == Value(unit, operands[k], regs)
      ensures Resolve(operands[k], t, c).Some? ==>
                Value(unit, operands[k], regs) == Resolve(operands[k], t, c).value.value
    {
      ResolveSound(unit, operands[k], t, c, regs);
    }
  }

  lemma SameOperandValues(unit: Unit, i: Instr, ops: seq<Operand>, s: State)
    requires i.base.Pure? && i.operands != []
    requires Values(unit, ops, s.regs) == Values(unit, i.operands[1..], s.regs)
    ensures Effect(unit, i.(operands := [i.operands[0]] + ops), s) == Effect(unit, i, s)
  {
    assert ([i.operands[0]] + ops)[1..] == ops;
  }

  /** The state after an unmodified pure instruction. */
  lemma PureEffect(unit: Unit, i: Instr, s: State)
    requires i.base.Pure? && i.operands != [] && !i.cc
    ensures
      var v := Values(unit, i.operands[1..], s.regs);
      Effect(unit, i, s) == Some(SetReg(s, i.operands[0], PureResult(unit, i.base.op, i.mods, i.ty, v)))
  {
  }

  lemma MovLiteral(unit: Unit, o: Operand, k: Const, t: Ty, s: State)
    ensures Effect(unit, Instr(Pure(Mov), 0, false, t, [o, Literal(k)], None, false), s) == Some(SetReg(s, o, k.value))
  {
    var i := Instr(Pure(Mov), 0, false, t, [o, Literal(k)], None, false);
    assert i.operands[1..] == [Literal(k)];
    assert Values(unit, i.operands[1..], s.regs) == [k.value];
    PureEffect(unit, i, s);
  }

  /** What `Fold` claims about the result agrees with the machine. */
  lemma FoldValue(unit: Unit, op: PureOp, mods: nat, t: Ty, v: seq<Word>)
    ensures op.Mov? && |v| == 1 ==> PureResult(unit, op, mods, t, v) == v[0]
    ensures (op.Add? || op.Sub? || op.Mul?) && |v| == 2 && t.U32? ==>
              PureResult(unit, op, mods, t, v) == EvaluateU32(op, v[0], v[1])
    ensures (op.And? || op.Or? || op.Xor?) && |v| == 2 ==>
              PureResult(unit, op, mods, t, v) == EvaluateBits(op, v[0], v[1])
  {
  }

  /**
   Folding changes neither the effect of an instruction nor, where it claims one, its result; what a carry
   instruction writes must not be claimed.
   */
  lemma FoldSound(unit: Unit, i: Instr, c: Constants, s: State)
    requires Holds(c, s.regs) && (i.cc ==> Fold(i, c).1.None?)
    ensures Effect(unit, Fold(i, c).0, s) == Effect(unit, i, s)
    ensures Fold(i, c).0.guard == i.guard && Fold(i, c).0.negated == i.negated
    ensures i.base.Pure? == Fold(i, c).0.base.Pure? && (!i.base.Pure? ==> Fold(i, c).0 == i)
    ensures Fold(i, c).1.Some? ==>
              Destination(i).Some? && Effect(unit, i, s) == Some(SetReg(s, i.operands[0], Fold(i, c).1.value.value))
  {
    hide Values, Substitute, PureResult, Holds;
    if i.base.Pure? && i.operands != [] {
      var sources := i.operands[1..];
      var known := ResolveAll(sources, i.ty, c);
      var v := Values(unit, sources, s.regs);
      SubstituteSound(unit, sources, i.ty, c, s.regs);
      SameOperandValues(unit, i, Substitute(sources, known), s);
      if Fold(i, c).1.Some? {
        PureEffect(unit, i, s);
        FoldValue(unit, i.base.op, i.mods, i.ty, v);
        MovLiteral(unit, i.operands[0], Fold(i, c).1.value, i.ty, s);
      }
    }
  }

  /* ---------- dataflow ---------- */

  /** One instruction of the dataflow phase: guarded and carry instructions are skipped. */
  function Transfer(item: Item, c: Constants): Constants {
    if item.Label? || item.inst.guard.Some? || item.inst.cc then c else Update(item.inst, c)
  }

  /** The destination becomes known, or is forgotten. */
  function Update(i: Instr, c: Constants): Constants {
    var d := Destination(i);
    if d.None? || IsPredicate(d.value) then c
    else
      match Fold(i, c).1
      case Some(k) => c[d.value := k]
      case None => c - {d.value}
  }

  function FlowOf(p: Program): Flow {
    (k: nat, c: Constants) => if k < |p| then Transfer(p[k], c) else c
  }

  method TransferBlock(p: Program, a: nat, b: nat, incoming: Constants) returns (c: Constants)
    requires a <= b <= |p|
    ensures c == TransferRange(FlowOf(p), a, b, incoming)
  {
    hide Update;
    c := incoming;
    for k := a to b
      invariant c == TransferRange(FlowOf(p), a, k, incoming)
    {
      if p[k].Code? && p[k].inst.guard.None? && !p[k].inst.cc {
        c := Update(p[k].inst, c);
      }
    }
  }

  /* ---------- the iteration ---------- */

  /** What `_block_entry_constants` returns. */
  ghost function EntryFacts(preds: Preds, exits: Exits, b: nat): (c: Constants)
    ensures Incoming(preds, exits, b, c)
  {
    IncomingExistsFor(preds, exits, b);
    var c :| Incoming(preds, exits, b, c);
    c
  }

  lemma IncomingExistsFor(preds: Preds, exits: Exits, b: nat)
    ensures exists c :: Incoming(preds, exits, b, c)
  {
    var c := IncomingExists(preds, exits, b);
  }

  /** The exits after one more visit to the block starting at item `b`, if one does. */
  ghost function VisitBlock(p: Program, preds: Preds, exits: Exits, b: nat): Exits {
    if b < |p| && BlockStart(p, b) then
      exits[b := TransferRange(FlowOf(p), b, BlockEnd(p, b), EntryFacts(preds, exits, b))]
    else exits
  }

  /** One round, up to item `k`: the blocks in program order, each seeing the updates before it. */
  ghost function Round(visit: (Exits, nat) -> Exits, exits: Exits, k: nat): Exits {
    if k == 0 then exits else visit(Round(visit, exits, k - 1), k - 1)
  }

  ghost function Iterate(visit: (Exits, nat) -> Exits, exits: Exits, k: nat, n: nat): Exits {
    if n == 0 then exits else Round(visit, Iterate(visit, exits, k, n - 1), k)
  }

  ghost function VisitOf(p: Program, preds: Preds): (Exits, nat) -> Exits {
    (exits: Exits, b: nat) => VisitBlock(p, preds, exits, b)
  }

  function NoFacts(p: Program): Exits { map b | b in Leaders(p) :: map[] }

  /** The exits after `n` rounds. */
  ghost function Rounds(p: Program, preds: Preds, n: nat): Exits {
    Iterate(VisitOf(p, preds), NoFacts(p), |p|, n)
  }

  const MaxRounds: nat := 20

  method SweepBlocks(p: Program, preds: Preds, before: Exits) returns (exits: Exits, changed: bool)
    requires before.Keys == Leaders(p)
    ensures exits == Round(VisitOf(p, preds), before, |p|) && exits.Keys == Leaders(p)
    ensures changed <==> exits != before
  {
    hide TransferRange, EntryFacts, Incoming, BlockEnd;
    exits, changed := before, false;
    for k := 0 to |p|
      invariant exits == Round(VisitOf(p, preds), before, k) && exits.Keys == Leaders(p)
      invariant forall b: nat | b >= k && b in before :: exits[b] == before[b]
      invariant changed <==> exits != before
    {
      if Leader(p, k) {
        assert BlockStart(p, k);
        var incoming := EntryConstants(preds, exits, k);
        IncomingUnique(preds, exits, k, incoming, EntryFacts(preds, exits, k));
        var local := TransferBlock(p, k, BlockEnd(p, k), incoming);
        exits, changed := Record(exits, k, local, before, changed);
      }
    }
  }

  /** Stores what was computed for a block that still has its old facts. */
  method Record(exits: Exits, b: nat, local: Constants, ghost before: Exits, changed: bool)
    returns (after: Exits, changed': bool)
    requires b in before && before.Keys == exits.Keys && exits[b] == before[b] && (changed <==> exits != before)
    ensures after == exits[b := local] && (changed' <==> after != before)
  {
    after, changed' := exits[b := local], changed || local != exits[b];
    if local == exits[b] {
      assert after == exits;
    } else {
      assert after[b] != before[b];
    }
  }

  /** Round `m + 1` changes the exits. */
  ghost predicate Moves(p: Program, preds: Preds, m: nat) { Rounds(p, preds, m + 1) != Rounds(p, preds, m) }

  /** The iteration stops after the first round that changes nothing, or at the cap. */
  ghost predicate StopsAfter(p: Program, preds: Preds, rounds: nat, converged: bool) {
    && 0 < rounds <= MaxRounds && (converged || rounds == MaxRounds)
    && (forall m: nat | m < rounds - 1 :: Moves(p, preds, m))
    && (converged <==> !Moves(p, preds, rounds - 1))
  }

  /** A round that changes nothing is followed by others that change nothing. */
  lemma {:induction false} RoundsStay(p: Program, preds: Preds, n: nat, m: nat)
    requires n <= m && !Moves(p, preds, n)
    ensures Rounds(p, preds, m) == Rounds(p, preds, n)
    decreases m
  {
    if n < m {
      RoundsStay(p, preds, n, m - 1);
    }
  }

  /** Where the iteration stops, and what it reports, is determined; the exits are those after 20 rounds. */
  lemma StopsOnce(p: Program, preds: Preds, rounds: nat, converged: bool)
    requires StopsAfter(p, preds, rounds, converged)
    ensures Rounds(p, preds, rounds) == Rounds(p, preds, MaxRounds)
    ensures converged <==> !Moves(p, preds, MaxRounds - 1)
    ensures forall other, verdict | StopsAfter(p, preds, other, verdict) :: other == rounds && verdict == converged
  {
    if converged {
      RoundsStay(p, preds, rounds - 1, MaxRounds);
      RoundsStay(p, preds, rounds - 1, rounds);
      RoundsStay(p, preds, rounds - 1, MaxRounds - 1);
    }
  }

  method Analyse(p: Program, preds: Preds) returns (exits: Exits, rounds: nat, converged: bool)
    ensures exits == Rounds(p, preds, rounds) && StopsAfter(p, preds, rounds, converged)
  {
    exits, rounds := NoFacts(p), 0;
    var changed := true;
    while changed && rounds < MaxRounds
      invariant exits == Rounds(p, preds, rounds) && exits.Keys == Leaders(p) && rounds <= MaxRounds
      invariant rounds == 0 ==> changed
      invariant forall m: nat | m < rounds - 1 || (changed && m < rounds) :: Moves(p, preds, m)
      invariant rounds > 0 && !changed ==> !Moves(p, preds, rounds - 1)
    {
      ghost var before := exits;
      exits, changed := SweepBlocks(p, preds, exits);
      rounds := rounds + 1;
    }
    converged := !changed;
  }

  /* ---------- rewriting ---------- */

  /** The apply phase looks at every instruction, guarded or not. */
  function ApplyFlow(p: Program): Flow {
    (k: nat, c: Constants) => if k < |p| then UpdateItem(p[k], c) else c
  }

  function UpdateItem(item: Item, c: Constants): Constants {
    if item.Code? then Update(item.inst, c) else c
  }

  /** The constants known just before an item. */
  ghost function FactsAt(p: Program, preds: Preds, exits: Exits, i: nat): Constants
    requires i < |p|
  {
    TransferRange(ApplyFlow(p), BlockOf(p, i), i, EntryFacts(preds, exits, BlockOf(p, i)))
  }

  /** The constants known just after an item. */
  ghost function After(p: Program, preds: Preds, exits: Exits, i: nat): Constants
    requires i < |p|
  {
    ApplyFlow(p)(i, FactsAt(p, preds, exits, i))
  }

  function RewriteItem(item: Item, c: Constants): Item {
    if item.Label? then item else Code(Fold(item.inst, c).0)
  }

  /** Item `i` is rewritten to `item` with the constants known before it. */
  ghost predicate RewritesTo(p: Program, preds: Preds, exits: Exits, i: nat, item: Item) {
    i < |p| && item == RewriteItem(p[i], FactsAt(p, preds, exits, i))
  }

  ghost predicate Rewritten(p: Program, preds: Preds, exits: Exits, q: Program) {
    |q| == |p| && forall i: nat | i < |q| :: RewritesTo(p, preds, exits, i, q[i])
  }

  lemma FactsAtNext(p: Program, preds: Preds, exits: Exits, i: nat)
    requires i < |p| && !Leader(p, i)
    ensures FactsAt(p, preds, exits, i) == After(p, preds, exits, i - 1)
  {
    assert BlockOf(p, i) == BlockOf(p, i - 1);
  }

  /** At the start of a block the facts are reset. */
  method RewriteAt(p: Program, preds: Preds, exits: Exits, i: nat, local: Constants)
    returns (item: Item, after: Constants)
    requires i < |p|
    requires i > 0 ==> local == After(p, preds, exits, i - 1)
    ensures RewritesTo(p, preds, exits, i, item)
    ensures after == After(p, preds, exits, i)
  {
    var here := local;
    if Leader(p, i) {
      here := EntryConstants(preds, exits, i);
      IncomingUnique(preds, exits, i, here, EntryFacts(preds, exits, i));
    } else {
      FactsAtNext(p, preds, exits, i);
    }
    item, after := RewriteItem(p[i], here), UpdateItem(p[i], here);
  }

  method Apply(p: Program, preds: Preds, exits: Exits) returns (q: Program)
    ensures Rewritten(p, preds, exits, q)
  {
    q := [];
    var i, local: Constants := 0, map[];
    while i < |p|
      invariant i <= |p| && |q| == i
      invariant forall k: nat | k < i :: RewritesTo(p, preds, exits, k, q[k])
      invariant i > 0 ==> local == After(p, preds, exits, i - 1)
    {
      var item, after := RewriteAt(p, preds, exits, i, local);
      q, local, i := q + [item], after, i + 1;
    }
  }

  /** The exits the apply phase works with. */
  ghost function FinalExits(p: Program, preds: Preds): Exits { Rounds(p, preds, MaxRounds) }

  /** The pass, with the number of rounds and the verdict it reports. */
  method PropagateConstants(p: Program, preds: Preds) returns (q: Program, rounds: nat, converged: bool)
    ensures Rewritten(p, preds, FinalExits(p, preds), q)
    ensures StopsAfter(p, preds, rounds, converged) && 0 < rounds <= 20 && (converged || rounds == 20)
  {
    var exits: Exits;
    exits, rounds, converged := Analyse(p, preds);
    StopsOnce(p, preds, rounds, converged);
    q := Apply(p, preds, exits);
  }
}
