/** Every run of a program is matched, scope by scope, by a run of the optimised program. */
module LocalCseRuns {
  import opened Isa
  import opened Ptx
  import opened Agreement
  import opened Sequences
  import opened Simulation
  import opened LocalCse
  import opened LocalCseMeaning
  import opened LocalCseProgram

  /* ---------- positions of scopes ---------- */

  function Offset(scopes: seq<Scope>, j: nat): nat
    requires j <= |scopes|
  {
    |Flatten(scopes[..j])|
  }

  lemma OffsetNext(scopes: seq<Scope>, j: nat)
    requires j < |scopes|
    ensures Offset(scopes, j + 1) == Offset(scopes, j) + |ScopeItems(scopes[j])|
  {
    assert scopes[..j + 1] == scopes[..j] + [scopes[j]];
    FlattenAppend(scopes[..j], scopes[j]);
  }

  predicate Grows(f: nat -> nat, k: nat) { f(k) <= f(k + 1) }

  lemma {:induction false} Monotone(f: nat -> nat, n: nat, i: nat, j: nat)
    requires i <= j <= n && forall k: nat | k < n :: Grows(f, k)
    ensures f(i) <= f(j)
    decreases j
  {
    if i < j {
      Monotone(f, n, i, j - 1);
      assert Grows(f, j - 1);
    }
  }

  lemma OffsetMonotone(scopes: seq<Scope>, i: nat, j: nat)
    requires i <= j <= |scopes|
    ensures Offset(scopes, i) <= Offset(scopes, j)
    ensures i < j && scopes[i].Boundary? ==> Offset(scopes, i) < Offset(scopes, j)
  {
    var f := (k: nat) => if k <= |scopes| then Offset(scopes, k) else 0;
    forall k: nat | k < |scopes|
      ensures Grows(f, k)
    {
      OffsetNext(scopes, k);
    }
    Monotone(f, |scopes|, i, j);
    if i < j {
      OffsetNext(scopes, i);
      Monotone(f, |scopes|, i + 1, j);
    }
  }

  lemma FrontOffset(scopes: seq<Scope>, j: nat)
    requires j < |scopes|
    ensures Offset(scopes, j) == Offset(scopes[..|scopes| - 1], j)
  {
    assert scopes[..j] == scopes[..|scopes| - 1][..j];
  }

  /** The program up to each scope, and the items of each. */
  function PrefixOf(scopes: seq<Scope>): nat -> Program { (i: nat) => if i <= |scopes| then Flatten(scopes[..i]) else [] }

  function PieceOf(scopes: seq<Scope>): nat -> Program {
    (i: nat) => if i < |scopes| then ScopeItems(scopes[i]) else []
  }

  lemma PrefixesGrow(scopes: seq<Scope>)
    ensures forall i: nat | i < |scopes| :: Grown(PrefixOf(scopes), PieceOf(scopes), i)
  {
    forall i: nat | i < |scopes|
      ensures Grown(PrefixOf(scopes), PieceOf(scopes), i)
    {
      assert scopes[..i + 1] == scopes[..i] + [scopes[i]];
      FlattenAppend(scopes[..i], scopes[i]);
    }
  }

  /** Item `k` of scope `j` in the flattened program. */
  lemma ItemAt(scopes: seq<Scope>, j: nat, k: nat)
    requires j < |scopes| && k < |ScopeItems(scopes[j])|
    ensures Offset(scopes, j) + k < |Flatten(scopes)|
    ensures Flatten(scopes)[Offset(scopes, j) + k] == ScopeItems(scopes[j])[k]
  {
    hide Flatten, ScopeItems;
    PrefixesGrow(scopes);
    assert scopes[..|scopes|] == scopes;
    PieceIn(PrefixOf(scopes), PieceOf(scopes), |scopes|, j, k, Flatten(scopes), Offset(scopes, j), ScopeItems(scopes[j]));
  }

  /** The scope that an item belongs to. */
  lemma {:induction false} Locate(scopes: seq<Scope>, at: nat) returns (j: nat)
    requires at < |Flatten(scopes)|
    ensures j < |scopes| && Offset(scopes, j) <= at < Offset(scopes, j) + |ScopeItems(scopes[j])|
    decreases |scopes|
  {
    var front := scopes[..|scopes| - 1];
    if at < |Flatten(front)| {
      j := Locate(front, at);
      FrontOffset(scopes, j);
    } else {
      j := |front|;
    }
  }

  lemma EndOffset(scopes: seq<Scope>)
    ensures Offset(scopes, |scopes|) == |Flatten(scopes)|
  {
    assert scopes[..|scopes|] == scopes;
  }

  /* ---------- labels ---------- */

  /** The scopes that are labels are the same. */
  predicate SameBoundaries(scopes: seq<Scope>, outs: seq<Scope>) {
    && |outs| == |scopes|
    && forall j | 0 <= j < |scopes| :: (scopes[j].Boundary? || outs[j].Boundary?) ==> outs[j] == scopes[j]
  }

  lemma LabelScope(scopes: seq<Scope>, name: nat) returns (j: nat)
    requires FindLabel(Flatten(scopes), name).Some?
    ensures j < |scopes| && scopes[j] == Boundary(Label(name)) && Offset(scopes, j) == FindLabel(Flatten(scopes), name).value
  {
    j := ScopeOfLabel(scopes, Flatten(scopes), name, FindLabel(Flatten(scopes), name).value);
  }

  lemma ScopeAt(scopes: seq<Scope>, p: Program, at: nat) returns (j: nat, k: nat)
    requires p == Flatten(scopes) && at < |p|
    ensures j < |scopes| && k < |ScopeItems(scopes[j])|
    ensures at == Offset(scopes, j) + k && p[at] == ScopeItems(scopes[j])[k]
  {
    j := Locate(scopes, at);
    k := at - Offset(scopes, j);
    ItemAt(scopes, j, k);
  }

  lemma ScopeOfLabel(scopes: seq<Scope>, p: Program, name: nat, at: nat) returns (j: nat)
    requires p == Flatten(scopes) && at < |p| && p[at] == Label(name)
    ensures j < |scopes| && scopes[j] == Boundary(Label(name)) && Offset(scopes, j) == at
  {
    var k: nat;
    j, k := ScopeAt(scopes, p, at);
    LabelIsBoundary(scopes[j], k, name);
  }

  lemma LabelIsBoundary(scope: Scope, k: nat, name: nat)
    requires k < |ScopeItems(scope)| && ScopeItems(scope)[k] == Label(name)
    ensures scope == Boundary(Label(name)) && k == 0
  {
  }

  lemma LabelFound(scopes: seq<Scope>, name: nat, j: nat)
    requires j < |scopes| && scopes[j] == Boundary(Label(name))
    ensures FindLabel(Flatten(scopes), name).Some? && FindLabel(Flatten(scopes), name).value <= Offset(scopes, j)
  {
    ItemAt(scopes, j, 0);
  }

  /** A label is in the same scope of both programs. */
  lemma LabelMoves(scopes: seq<Scope>, outs: seq<Scope>, name: nat) returns (j: nat)
    requires SameBoundaries(scopes, outs)
    ensures FindLabel(Flatten(outs), name).Some? == FindLabel(Flatten(scopes), name).Some?
    ensures FindLabel(Flatten(scopes), name).Some? ==>
              j < |scopes| && FindLabel(Flatten(scopes), name) == Some(Offset(scopes, j))
              && FindLabel(Flatten(outs), name) == Some(Offset(outs, j))
  {
    j := 0;
    if FindLabel(Flatten(scopes), name).Some? {
      j := LabelScope(scopes, name);
      LabelFound(outs, name, j);
      var i := LabelScope(outs, name);
      LabelFound(scopes, name, i);
      if i < j {
        OffsetMonotone(scopes, i, j);
      } else {
        OffsetMonotone(outs, j, i);
      }
    } else if FindLabel(Flatten(outs), name).Some? {
      var i := LabelScope(outs, name);
      LabelFound(scopes, name, i);
    }
  }

  /* ---------- running through a body ---------- */

  predicate CodeAt(p: Program, at: nat, insts: seq<Instr>) {
    at + |insts| <= |p| && forall k | 0 <= k < |insts| :: p[at + k] == Code(insts[k])
  }

  lemma BodyStep(unit: Unit, p: Program, at: nat, i: Instr, s: State)
    requires Keyed(i) && at < |p| && p[at] == Code(i)
    ensures Run(Steps(unit, p), At(at, s), 1) == At(at + 1, s.(regs := Apply(unit, i, s.regs)))
  {
    KeyedEffect(unit, i, s);
    OneStep(unit, p, at, s);
  }

  lemma ExecLast(unit: Unit, insts: seq<Instr>, regs: Regs)
    requires Straight(insts) && insts != []
    ensures
      var front := insts[..|insts| - 1];
      Straight(front) && Keyed(insts[|front|])
      && Exec(unit, insts, regs) == Apply(unit, insts[|front|], Exec(unit, front, regs))
  {
  }

  lemma {:induction false} RunBody(unit: Unit, p: Program, at: nat, insts: seq<Instr>, s: State)
    requires Straight(insts) && CodeAt(p, at, insts)
    ensures Run(Steps(unit, p), At(at, s), |insts|) == At(at + |insts|, s.(regs := Exec(unit, insts, s.regs)))
  {
    hide Step, Apply, Keyed;
    if insts != [] {
      var front, last := insts[..|insts| - 1], insts[|insts| - 1];
      ExecLast(unit, insts, s.regs);
      RunBody(unit, p, at, front, s);
      RunAppend(Steps(unit, p), At(at, s), |front|, 1);
      BodyStep(unit, p, at + |front|, last, s.(regs := Exec(unit, front, s.regs)));
    }
  }

  lemma OneStep(unit: Unit, p: Program, pc: nat, s: State)
    ensures Run(Steps(unit, p), At(pc, s), 1) == Step(unit, p, pc, s)
  {
    assert Run(Steps(unit, p), Step(unit, p, pc, s), 0) == Step(unit, p, pc, s);
  }

  lemma BodyItems(scopes: seq<Scope>, p: Program, j: nat)
    requires j < |scopes| && scopes[j].Body? && p == Flatten(scopes)
    ensures CodeAt(p, Offset(scopes, j), scopes[j].insts) && Offset(scopes, j) + |scopes[j].insts| == Offset(scopes, j + 1)
  {
    var insts := scopes[j].insts;
    OffsetNext(scopes, j);
    OffsetMonotone(scopes, j + 1, |scopes|);
    EndOffset(scopes);
    forall k | 0 <= k < |insts|
      ensures p[Offset(scopes, j) + k] == Code(insts[k])
    {
      ItemAt(scopes, j, k);
    }
  }

  lemma RunScope(unit: Unit, scopes: seq<Scope>, p: Program, j: nat, s: State)
    requires j < |scopes| && scopes[j].Body? && Straight(scopes[j].insts) && p == Flatten(scopes)
    ensures Run(Steps(unit, p), At(Offset(scopes, j), s), |scopes[j].insts|)
            == At(Offset(scopes, j + 1), s.(regs := Exec(unit, scopes[j].insts, s.regs)))
  {
    BodyItems(scopes, p, j);
    RunBody(unit, p, Offset(scopes, j), scopes[j].insts, s);
  }

  /* ---------- matching scopes ---------- */

  /** The removed destinations of all scopes. */
  ghost predicate Removed(removed: seq<set<Reg>>, r: Reg) { exists j: nat :: j < |removed| && r in removed[j] }

  /**
   Conditions on the program: a register that a scope writes, and that no other scope reads, is not read by the
   instruction that writes it, nor before it is written in the scope.
   */
  ghost predicate SideConditions(scopes: seq<Scope>)
    requires AllScoped(scopes)
  {
    forall j: nat | j < |scopes| && scopes[j].Body? :: BodyConditions(scopes, j)
  }

  ghost predicate BodyConditions(scopes: seq<Scope>, j: nat)
    requires j < |scopes| && AllScoped(scopes) && scopes[j].Body?
  {
    assert WellScoped(scopes[j]);
    var insts := scopes[j].insts;
    forall k | 0 <= k < |insts| && !ReadOutside(scopes, j, Dest(insts[k])) ::
      !Reads(insts[k], Dest(insts[k])) && !Exposed(insts, Dest(insts[k]))
  }

  /** The conditions say of what the pass does: it records no stale expression, and removes nothing that is exposed. */
  lemma ConditionsSuffice(scopes: seq<Scope>, j: nat, insts: seq<Instr>, outside: set<Reg>, out: Scope,
                          removed: set<Reg>)
    requires j < |scopes| && AllScoped(scopes) && scopes[j] == Body(insts) && BodyConditions(scopes, j)
    requires Straight(insts) && IsOutside(scopes, j, outside) && BodyOptimized(insts, outside, out, removed)
    ensures NoSelfRead(insts, outside) && Unexposed(removed, insts)
  {
    ScopeAccounted(insts, outside);
    forall k | 0 <= k < |insts|
      ensures Dest(insts[k]) in outside || !Reads(insts[k], Dest(insts[k]))
    {
      assert Dest(insts[k]) in outside <==> ReadOutside(scopes, j, Dest(insts[k]));
    }
    forall d | d in removed
      ensures !Exposed(insts, d)
    {
      var k :| 0 <= k < |insts| && Dest(insts[k]) == d;
      assert d in outside <==> ReadOutside(scopes, j, d);
    }
  }

  /** Removed destinations of a scope are read in no other scope. */
  lemma RemovedReadInside(scopes: seq<Scope>, outs: seq<Scope>, removed: seq<set<Reg>>, i: nat, j: nat, r: Reg)
    requires AllOptimized(scopes, outs, removed) && i < |scopes| && j < |scopes| && i != j && r in removed[i]
    ensures !ScopeReads(scopes[j], r)
  {
    assert Optimized(scopes, i, outs[i], removed[i]) && WellScoped(scopes[i]);
    if scopes[i].Body? {
      var insts := scopes[i].insts;
      var outside: set<Reg> :| IsOutside(scopes, i, outside) && BodyOptimized(insts, outside, outs[i], removed[i]);
      ScopeAccounted(insts, outside);
      assert r !in outside;
      assert !ReadOutside(scopes, i, r);
    }
  }

  lemma {:induction false} ExposedIsRead(insts: seq<Instr>, r: Reg)
    requires Straight(insts) && Exposed(insts, r)
    ensures ReadCount(CodeItems(insts), r) > 0
  {
    MentionedRegs(Sources(insts[0]), r);
    CountPositive(CodeItems(insts), r);
    if Reads(insts[0], r) {
      assert ItemReads(CodeItems(insts)[0], r);
    } else {
      ExposedIsRead(insts[1..], r);
      CountPositive(CodeItems(insts[1..]), r);
      var k :| 0 <= k < |CodeItems(insts[1..])| && ItemReads(CodeItems(insts[1..])[k], r);
      assert ItemReads(CodeItems(insts)[k + 1], r);
    }
  }

  /** A removed destination is not read in a scope before the scope writes it. */
  lemma RemovedUnexposed(scopes: seq<Scope>, outs: seq<Scope>, removed: seq<set<Reg>>, j: nat, r: Reg)
    requires AllOptimized(scopes, outs, removed) && SideConditions(scopes)
    requires j < |scopes| && scopes[j].Body? && Removed(removed, r)
    ensures WellScoped(scopes[j]) && !Exposed(scopes[j].insts, r)
  {
    assert WellScoped(scopes[j]);
    var i: nat :| i < |removed| && r in removed[i];
    if i == j {
      var insts := scopes[j].insts;
      assert Optimized(scopes, j, outs[j], removed[j]) && BodyConditions(scopes, j);
      var outside: set<Reg> :| IsOutside(scopes, j, outside) && BodyOptimized(insts, outside, outs[j], removed[j]);
      ConditionsSuffice(scopes, j, insts, outside, outs[j], removed[j]);
    } else {
      RemovedReadInside(scopes, outs, removed, i, j, r);
      if Exposed(scopes[j].insts, r) {
        ExposedIsRead(scopes[j].insts, r);
      }
    }
  }

  /** Everything but the removed destinations agrees. */
  ghost predicate Agreeing(removed: seq<set<Reg>>, s: State, t: State) {
    SameOn(r => !Removed(removed, r), s, t)
  }

  /** Both programs are at the start of the same scope, or have ended. */
  ghost predicate Matched(scopes: seq<Scope>, outs: seq<Scope>, removed: seq<set<Reg>>, o: Outcome, q: Outcome)
    requires |outs| == |scopes|
  {
    match o
    case Stuck => q.Stuck?
    case Stop(s) => q.Stop? && Agreeing(removed, s, q.final)
    case At(pc, s) => q.At? && Agreeing(removed, s, q.s) && exists j: nat :: Aligned(scopes, outs, j, pc, q.pc)
  }

  ghost predicate Aligned(scopes: seq<Scope>, outs: seq<Scope>, j: nat, pc: nat, other: nat)
    requires |outs| == |scopes|
  {
    j <= |scopes| && pc == Offset(scopes, j) && other == Offset(outs, j)
  }

  lemma BoundariesStay(scopes: seq<Scope>, outs: seq<Scope>, removed: seq<set<Reg>>)
    requires AllOptimized(scopes, outs, removed)
    ensures SameBoundaries(scopes, outs)
  {
    forall j | 0 <= j < |scopes|
      ensures (scopes[j].Boundary? || outs[j].Boundary?) ==> outs[j] == scopes[j]
    {
      assert Optimized(scopes, j, outs[j], removed[j]);
    }
  }

  lemma RegsAgree(removed: seq<set<Reg>>, unknown: set<Reg>, v: Regs, w: Regs, s: State, t: State)
    requires s.carry == t.carry && s.mem == t.mem && s.trace == t.trace
    requires AgreeExcept(unknown, v, w) && forall r: Reg | r in unknown :: Removed(removed, r)
    ensures Agreeing(removed, s.(regs := v), t.(regs := w))
  {
  }

  /** The removed destinations as a finite set. */
  lemma RemovedSet(removed: seq<set<Reg>>) returns (all: set<Reg>)
    ensures forall r: Reg :: r in all <==> Removed(removed, r)
  {
    all := set j, r | 0 <= j < |removed| && r in removed[j] :: r;
  }

  /** A body and its optimised form lead to matching states. */
  lemma BodyMatched(unit: Unit, scopes: seq<Scope>, outs: seq<Scope>, removed: seq<set<Reg>>, j: nat, s: State,
                    t: State)
    requires AllOptimized(scopes, outs, removed) && SideConditions(scopes)
    requires j < |scopes| && scopes[j].Body? && Agreeing(removed, s, t)
    ensures WellScoped(scopes[j]) && outs[j].Body? && Straight(outs[j].insts)
    ensures Agreeing(removed, s.(regs := Exec(unit, scopes[j].insts, s.regs)), t.(regs := Exec(unit, outs[j].insts, t.regs)))
  {
    assert WellScoped(scopes[j]) && Optimized(scopes, j, outs[j], removed[j]) && BodyConditions(scopes, j);
    var insts := scopes[j].insts;
    var outside: set<Reg> :| IsOutside(scopes, j, outside) && BodyOptimized(insts, outside, outs[j], removed[j]);
    ConditionsSuffice(scopes, j, insts, outside, outs[j], removed[j]);
    var all := RemovedSet(removed);
    forall r | r in all
      ensures !Exposed(insts, r)
    {
      RemovedUnexposed(scopes, outs, removed, j, r);
    }
    var c := CseOf(insts, outside, |insts|);
    ScopePreserves(unit, insts, outside, all, s.regs, t.regs, c);
    assert forall r | r in removed[j] :: Removed(removed, r);
    RegsAgree(removed, all, Exec(unit, insts, s.regs), Exec(unit, c.optimized, t.regs), s, t);
  }

  /** A boundary reads no removed destination. */
  lemma BoundaryReads(scopes: seq<Scope>, outs: seq<Scope>, removed: seq<set<Reg>>, j: nat, r: Reg)
    requires AllOptimized(scopes, outs, removed) && j < |scopes| && scopes[j].Boundary?
    requires scopes[j].item.Code? && r in ReadRegs(scopes[j].item.inst)
    ensures !Removed(removed, r)
  {
    assert ItemReads(scopes[j].item, r);
    assert ReadCount([scopes[j].item][..0], r) == 0;
    assert ScopeReads(scopes[j], r);
    assert Optimized(scopes, j, outs[j], removed[j]);
    if i: nat :| i < |removed| && r in removed[i] {
      RemovedReadInside(scopes, outs, removed, i, j, r);
    }
  }

  /** A boundary item at matching positions, stepping to the next item or to a label. */
  lemma BoundaryStep(unit: Unit, p: Program, q: Program, pc: nat, other: nat, removed: seq<set<Reg>>, s: State,
                     t: State)
    requires pc < |p| && other < |q| && p[pc] == q[other] && Agreeing(removed, s, t)
    requires p[pc].Code? ==> forall r | r in ReadRegs(p[pc].inst) :: !Removed(removed, r)
    requires p[pc].Code? ==> Target(p, p[pc].inst).Some? == Target(q, p[pc].inst).Some?
    ensures
      var o, k := Step(unit, p, pc, s), Step(unit, q, other, t);
      match o
      case Stuck => k.Stuck?
      case Stop(final) => k.Stop? && Agreeing(removed, final, k.final)
      case At(next, u) =>
        && k.At? && Agreeing(removed, u, k.s)
        && ((next == pc + 1 && k.pc == other + 1)
            || (p[pc].Code? && Target(p, p[pc].inst) == Some(next) && Target(q, p[pc].inst) == Some(k.pc)))
  {
    if p[pc].Code? {
      EffectSame(unit, r => !Removed(removed, r), p[pc].inst, s, t);
    }
  }

  lemma TargetMoves(scopes: seq<Scope>, outs: seq<Scope>, p: Program, q: Program, i: Instr) returns (l: nat)
    requires SameBoundaries(scopes, outs) && p == Flatten(scopes) && q == Flatten(outs)
    ensures Target(p, i).Some? == Target(q, i).Some?
    ensures Target(p, i).Some? ==> Aligned(scopes, outs, l, Target(p, i).value, Target(q, i).value)
  {
    l := 0;
    if |i.operands| == 1 && i.operands[0].Sym? {
      l := LabelMoves(scopes, outs, i.operands[0].name);
    }
  }

  lemma BoundaryItems(scope: Scope)
    requires scope.Boundary?
    ensures |ScopeItems(scope)| == 1 && ScopeItems(scope)[0] == scope.item
  {
  }

  lemma BoundaryAt(scopes: seq<Scope>, p: Program, j: nat)
    requires p == Flatten(scopes) && j < |scopes| && scopes[j].Boundary?
    ensures Offset(scopes, j) < |p| && p[Offset(scopes, j)] == scopes[j].item
    ensures Offset(scopes, j + 1) == Offset(scopes, j) + 1
  {
    hide Flatten, Offset, ScopeItems;
    BoundaryItems(scopes[j]);
    ItemAt(scopes, j, 0);
    OffsetNext(scopes, j);
  }

  lemma BoundaryMatched(unit: Unit, scopes: seq<Scope>, outs: seq<Scope>, removed: seq<set<Reg>>, p: Program,
                        q: Program,
                        j: nat, s: State, t: State)
    requires AllOptimized(scopes, outs, removed) && p == Flatten(scopes) && q == Flatten(outs)
    requires j < |scopes| && scopes[j].Boundary? && Agreeing(removed, s, t)
    ensures Matched(scopes, outs, removed, Step(unit, p, Offset(scopes, j), s), Step(unit, q, Offset(outs, j), t))
  {
    BoundariesStay(scopes, outs, removed);
    BoundaryAt(scopes, p, j);
    BoundaryAt(outs, q, j);
    var item := scopes[j].item;
    var l: nat := 0;
    if item.Code? {
      forall r | r in ReadRegs(item.inst)
        ensures !Removed(removed, r)
      {
        BoundaryReads(scopes, outs, removed, j, r);
      }
      l := TargetMoves(scopes, outs, p, q, item.inst);
    }
    BoundaryStep(unit, p, q, Offset(scopes, j), Offset(outs, j), removed, s, t);
    JoinStep(scopes, outs, removed, j, l, Step(unit, p, Offset(scopes, j), s), Step(unit, q, Offset(outs, j), t));
  }

  /** Steps to the next scope, or to the same scope `l`, match. */
  lemma JoinStep(scopes: seq<Scope>, outs: seq<Scope>, removed: seq<set<Reg>>, j: nat, l: nat, o: Outcome, k: Outcome)
    requires |outs| == |scopes| && j < |scopes|
    requires match o
             case Stuck => k.Stuck?
             case Stop(final) => k.Stop? && Agreeing(removed, final, k.final)
             case At(next, u) =>
               && k.At? && Agreeing(removed, u, k.s)
               && (Aligned(scopes, outs, j + 1, next, k.pc) || Aligned(scopes, outs, l, next, k.pc))
    ensures Matched(scopes, outs, removed, o, k)
  {
  }

  /** The first instruction of a scope is never removed. */
  lemma {:induction false} SomethingStays(insts: seq<Instr>, outside: set<Reg>, k: nat)
    requires Straight(insts) && 0 < k <= |insts|
    ensures CseOf(insts, outside, k).optimized != []
  {
    if k > 1 {
      SomethingStays(insts, outside, k - 1);
    } else {
      assert CseOf(insts, outside, 0) == Start();
    }
  }

  lemma BodyNotEmpty(scopes: seq<Scope>, outs: seq<Scope>, removed: seq<set<Reg>>, j: nat)
    requires AllOptimized(scopes, outs, removed) && j < |scopes| && scopes[j].Body?
    ensures outs[j].Body? && outs[j].insts != [] && scopes[j].insts != []
  {
    assert WellScoped(scopes[j]) && Optimized(scopes, j, outs[j], removed[j]);
    var insts := scopes[j].insts;
    var outside: set<Reg> :| IsOutside(scopes, j, outside) && BodyOptimized(insts, outside, outs[j], removed[j]);
    SomethingStays(insts, outside, |insts|);
  }

  /** From the start of a scope, both programs reach matching points in at least one step each. */
  lemma ScopeMatched(unit: Unit, scopes: seq<Scope>, outs: seq<Scope>, removed: seq<set<Reg>>, p: Program, q: Program,
                     j: nat, s: State, t: State) returns (m: nat, k: nat)
    requires AllOptimized(scopes, outs, removed) && SideConditions(scopes)
    requires p == Flatten(scopes) && q == Flatten(outs) && j <= |scopes| && Agreeing(removed, s, t)
    ensures m > 0 && k > 0
    ensures Matched(scopes, outs, removed, Run(Steps(unit, p), At(Offset(scopes, j), s), m),
                    Run(Steps(unit, q), At(Offset(outs, j), t), k))
  {
    m, k := 1, 1;
    OneStep(unit, p, Offset(scopes, j), s);
    OneStep(unit, q, Offset(outs, j), t);
    if j == |scopes| {
      EndOffset(scopes);
      EndOffset(outs);
    } else if scopes[j].Boundary? {
      BoundaryMatched(unit, scopes, outs, removed, p, q, j, s, t);
    } else {
      m, k := BodyRun(unit, scopes, outs, removed, p, q, j, s, t);
    }
  }

  lemma BodyRun(unit: Unit, scopes: seq<Scope>, outs: seq<Scope>, removed: seq<set<Reg>>, p: Program, q: Program,
                j: nat, s: State, t: State) returns (m: nat, k: nat)
    requires AllOptimized(scopes, outs, removed) && SideConditions(scopes)
    requires p == Flatten(scopes) && q == Flatten(outs) && j < |scopes| && scopes[j].Body? && Agreeing(removed, s, t)
    ensures m > 0 && k > 0
    ensures Matched(scopes, outs, removed, Run(Steps(unit, p), At(Offset(scopes, j), s), m),
                    Run(Steps(unit, q), At(Offset(outs, j), t), k))
  {
    BodyNotEmpty(scopes, outs, removed, j);
    BodyMatched(unit, scopes, outs, removed, j, s, t);
    m, k := |scopes[j].insts|, |outs[j].insts|;
    RunScope(unit, scopes, p, j, s);
    RunScope(unit, outs, q, j, t);
    assert Aligned(scopes, outs, j + 1, Offset(scopes, j + 1), Offset(outs, j + 1));
  }

  ghost function Relating(scopes: seq<Scope>, outs: seq<Scope>, removed: seq<set<Reg>>): Relation
    requires |outs| == |scopes|
  {
    (o: Outcome, u: Outcome) => Matched(scopes, outs, removed, o, u)
  }

  lemma KeepsMatching(unit: Unit, scopes: seq<Scope>, outs: seq<Scope>, removed: seq<set<Reg>>, p: Program, q: Program)
    requires AllOptimized(scopes, outs, removed) && SideConditions(scopes)
    requires p == Flatten(scopes) && q == Flatten(outs)
    ensures KeepsRejoining(Steps(unit, p), Steps(unit, q), Relating(scopes, outs, removed))
  {
    var step, other, related := Steps(unit, p), Steps(unit, q), Relating(scopes, outs, removed);
    forall o: Outcome, u: Outcome | o.At? && related(o, u)
      ensures exists m: nat, k: nat :: Rejoined(step, other, related, o, u, m, k)
    {
      var j: nat :| Aligned(scopes, outs, j, o.pc, u.pc);
      var m, k := ScopeMatched(unit, scopes, outs, removed, p, q, j, o.s, u.s);
      assert Rejoined(step, other, related, o, u, m, k);
    }
  }

  /** Under the side conditions the optimised program ends as the original does, in both directions. */
  lemma EliminationPreserves(unit: Unit, scopes: seq<Scope>, outs: seq<Scope>, removed: seq<set<Reg>>, s: State,
                             mem: Memory, trace: seq<Event>)
    requires AllOptimized(scopes, outs, removed) && SideConditions(scopes)
    ensures Ends(Steps(unit, Flatten(scopes)), At(0, s), mem, trace) <==> Ends(Steps(unit, Flatten(outs)), At(0, s), mem, trace)
  {
    var p, q := Flatten(scopes), Flatten(outs);
    KeepsMatching(unit, scopes, outs, removed, p, q);
    assert Aligned(scopes, outs, 0, 0, 0);
    EndAlike(Steps(unit, p), Steps(unit, q), Relating(scopes, outs, removed), At(0, s), At(0, s), mem, trace);
  }
}
