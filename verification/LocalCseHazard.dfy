/**
 Two programs that the pass changes: a scope in which an instruction reads its own destination, and a loop in which
 a removed destination is read before it is written.
 */
module LocalCseHazard {
  import opened Isa
  import M = Machine
  import opened Ptx
  import opened LocalCse
  import opened LocalCseMeaning
  import opened LocalCseProgram
  import opened LocalCseRuns

  /* ---------- instructions of the two programs ---------- */

  function R(id: nat): Reg { Reg(RClass, id) }

  const Address := Reg(RdClass, 1)

  function AddOne(d: Reg, a: Reg): Instr { Instr(Pure(Add), 0, false, Ty.U32, [RegOp(d), RegOp(a), Imm(1)], None, false) }

  function Copy(d: Reg, a: Reg): Instr { Instr(Pure(Mov), 0, false, Ty.U32, [RegOp(d), RegOp(a)], None, false) }

  const StoreR3 := Instr(St, 0, false, Ty.U32, [Addr(Address), RegOp(R(3))], None, false)
  const Back := Instr(Bra, 0, false, OtherTy(0), [Sym(0)], None, false)

  function AddKey(a: Reg): Key { Key(Add, 0, Ty.U32, [RegOp(a), Imm(1)]) }

  lemma RewriteAdd(d: Reg, a: Reg, aliases: Aliases)
    requires a !in aliases && !IsPredicate(d)
    ensures Keyed(AddOne(d, a)) && RewriteSources(AddOne(d, a), aliases) == AddOne(d, a)
    ensures KeyOf(AddOne(d, a)) == Some(AddKey(a))
  {
    var i := AddOne(d, a);
    assert Sources(i) == [RegOp(a), Imm(1)];
    assert RewriteOperands(Sources(i), aliases) == Sources(i);
    assert [i.operands[0]] + Sources(i) == i.operands;
  }

  lemma RewriteCopy(d: Reg, a: Reg, t: Reg)
    requires a != t && !IsPredicate(d)
    ensures Keyed(Copy(d, a)) && RewriteSources(Copy(d, a), map[a := t]) == Copy(d, t)
    ensures KeyOf(Copy(d, t)) == Some(Key(Mov, 0, Ty.U32, [RegOp(t)]))
  {
    var i := Copy(d, a);
    assert Sources(i) == [RegOp(a)];
    var aliases: Aliases := map[a := t];
    assert t !in aliases && Resolve(t, aliases, {} + {a}) == t;
    assert Resolve(a, aliases, {}) == t;
    assert RewriteOperands(Sources(i), map[a := t]) == [RegOp(t)];
    assert [i.operands[0]] + [RegOp(t)] == Copy(d, t).operands;
    assert Copy(d, t).operands[1..] == [RegOp(t)];
  }

  lemma KeepCopy(d: Reg, a: Reg)
    requires !IsPredicate(d)
    ensures Keyed(Copy(d, a)) && Dest(Copy(d, a)) == d && RewriteSources(Copy(d, a), map[]) == Copy(d, a)
  {
    var i := Copy(d, a);
    assert Sources(i) == [RegOp(a)];
    assert Resolve(a, map[], {}) == a;
    assert RewriteOperands(Sources(i), map[]) == [RegOp(a)];
    assert [i.operands[0]] + [RegOp(a)] == i.operands;
  }

  lemma RunAdd(unit: Unit, d: Reg, a: Reg, regs: Regs)
    requires !IsPredicate(d)
    ensures Keyed(AddOne(d, a)) && Apply(unit, AddOne(d, a), regs) == regs[d := M.Wrap(Get(regs, a) as int + 1)]
  {
    RewriteAdd(d, a, map[]);
    assert Values(unit, [RegOp(a), Imm(1)], regs) == [Get(regs, a), 1];
  }

  lemma RunCopy(unit: Unit, d: Reg, a: Reg, regs: Regs)
    requires !IsPredicate(d)
    ensures Keyed(Copy(d, a)) && Apply(unit, Copy(d, a), regs) == regs[d := Get(regs, a)]
  {
    assert Copy(d, a).operands[1..] == [RegOp(a)];
    assert Values(unit, [RegOp(a)], regs) == [Get(regs, a)];
  }

  lemma RunTwo(unit: Unit, a: Instr, b: Instr, regs: Regs)
    requires Keyed(a) && Keyed(b)
    ensures Straight([a, b]) && Exec(unit, [a, b], regs) == Apply(unit, b, Apply(unit, a, regs))
  {
    var one, two := [a], [a, b];
    assert one[..0] == [] && two[..1] == one;
    assert Exec(unit, one, regs) == Apply(unit, a, regs);
  }

  lemma RunThree(unit: Unit, a: Instr, b: Instr, c: Instr, regs: Regs)
    requires Keyed(a) && Keyed(b) && Keyed(c)
    ensures Straight([a, b, c]) && Exec(unit, [a, b, c], regs) == Apply(unit, c, Apply(unit, b, Apply(unit, a, regs)))
  {
    RunTwo(unit, a, b, regs);
    ExecNext(unit, [a, b], c, regs);
    assert [a, b] + [c] == [a, b, c];
  }

  /* ---------- a loop around a scope ---------- */

  /** `L: body; st [address], r3; bra L` */
  function Looped(body: seq<Instr>): seq<Scope> {
    [Boundary(Label(0)), Body(body), Boundary(Code(StoreR3)), Boundary(Code(Back))]
  }

  lemma FlattenLooped(body: seq<Instr>)
    ensures Flatten(Looped(body)) == [Label(0)] + CodeItems(body) + [Code(StoreR3), Code(Back)]
  {
    var scopes := Looped(body);
    var one, two, three := scopes[..1], scopes[..2], scopes[..3];
    assert one[..0] == [] && two[..1] == one && three[..2] == two && scopes[..3] == three;
    assert Flatten(one) == [] + [Label(0)];
    assert Flatten(two) == Flatten(one) + CodeItems(body);
    assert Flatten(three) == Flatten(two) + [Code(StoreR3)];
    assert Flatten(scopes) == Flatten(three) + [Code(Back)];
  }

  lemma LoopItems(p: Program, body: seq<Instr>)
    requires p == Flatten(Looped(body))
    ensures |p| == |body| + 3 && p[0] == Label(0) && CodeAt(p, 1, body)
    ensures p[|body| + 1] == Code(StoreR3) && p[|body| + 2] == Code(Back)
  {
    FlattenLooped(body);
    forall k | 0 <= k < |body|
      ensures p[1 + k] == Code(body[k])
    {
      assert p[1 + k] == CodeItems(body)[k];
    }
  }

  /** The state after one iteration. */
  function Iterated(unit: Unit, body: seq<Instr>, s: State): State
    requires Straight(body)
  {
    var regs := Exec(unit, body, s.regs);
    var a, w := Get(regs, Address), Get(regs, R(3));
    State(regs, s.carry, s.mem[a := w], s.trace + [StoreEvent(a, w)] + [BranchEvent(true)])
  }

  lemma StoreEffect(unit: Unit, s: State)
    ensures
      var a, w := Get(s.regs, Address), Get(s.regs, R(3));
      Effect(unit, StoreR3, s) == Some(s.(mem := s.mem[a := w], trace := s.trace + [StoreEvent(a, w)]))
  {
    assert StoreR3.operands[1..] == [RegOp(R(3))];
    assert Values(unit, [RegOp(R(3))], s.regs) == [Get(s.regs, R(3))];
  }

  /** One iteration of the loop. */
  lemma LoopOnce(unit: Unit, p: Program, body: seq<Instr>, s: State)
    requires Straight(body) && p == Flatten(Looped(body))
    ensures Run(Steps(unit, p), At(0, s), |body| + 3) == At(0, Iterated(unit, body, s))
  {
    var step, n := Steps(unit, p), |body|;
    LoopItems(p, body);
    RunMore(step, At(0, s), 0, 0, s);
    RunBody(unit, p, 1, body, s);
    RunAppend(step, At(0, s), 1, n);
    var s1 := s.(regs := Exec(unit, body, s.regs));
    StoreEffect(unit, s1);
    var s2 := Effect(unit, StoreR3, s1).value;
    PlainStep(unit, p, n + 1, s1, s2);
    RunMore(step, At(0, s), n + 1, n + 1, s1);
    BackStep(unit, p, n + 2, s2);
    RunMore(step, At(0, s), n + 2, n + 2, s2);
  }

  lemma BackStep(unit: Unit, p: Program, pc: nat, s: State)
    requires pc < |p| && p[pc] == Code(Back) && p[0] == Label(0)
    ensures Step(unit, p, pc, s) == At(0, Log(s, BranchEvent(true)))
  {
    assert FindLabel(p, 0) == Some(0);
  }

  /** Two iterations of the loop. */
  lemma LoopTwice(unit: Unit, p: Program, body: seq<Instr>, s: State)
    requires Straight(body) && p == Flatten(Looped(body))
    ensures Run(Steps(unit, p), At(0, s), 2 * (|body| + 3)) == At(0, Iterated(unit, body, Iterated(unit, body, s)))
  {
    LoopOnce(unit, p, body, s);
    LoopOnce(unit, p, body, Iterated(unit, body, s));
    RunAppend(Steps(unit, p), At(0, s), |body| + 3, |body| + 3);
  }

  /** Only the body reads anything but the address and R3. */
  lemma ReadsOutsideBody(body: seq<Instr>, r: Reg)
    requires r != Address && r != R(3)
    ensures !ReadOutside(Looped(body), 1, r)
  {
    var scopes := Looped(body);
    BoundaryCount(Label(0), r);
    BoundaryCount(Code(Back), r);
    StoreReads(r);
    BoundaryCount(Code(StoreR3), r);
    assert !ScopeReads(scopes[0], r) && !ScopeReads(scopes[2], r) && !ScopeReads(scopes[3], r);
  }

  lemma StoreReads(r: Reg)
    ensures r in ReadRegs(StoreR3) <==> r == Address || r == R(3)
  {
    var ops := StoreR3.operands;
    assert ops[1..] == [RegOp(R(3))] && ops[1..][1..] == [];
    assert AllRegs(ops[1..]) == {R(3)};
    assert AllRegs(ops) == {Address} + AllRegs(ops[1..]);
  }

  lemma BoundaryCount(item: Item, r: Reg)
    ensures ScopeReads(Boundary(item), r) <==> ItemReads(item, r)
  {
    assert [item][..0] == [];
    assert ReadCount([item], r) == ReadCount([], r) + (if ItemReads(item, r) then 1 else 0);
  }

  lemma R3ReadOutside(body: seq<Instr>)
    ensures ReadOutside(Looped(body), 1, R(3))
  {
    StoreReads(R(3));
    BoundaryCount(Code(StoreR3), R(3));
    assert Looped(body)[2] == Boundary(Code(StoreR3)) && ScopeReads(Looped(body)[2], R(3));
  }

  /** The pass turns the loop around `body` into the loop around `optimized`. */
  lemma LoopOptimized(body: seq<Instr>, optimized: seq<Instr>, outside: set<Reg>)
    requires Straight(body) && body != [] && IsOutside(Looped(body), 1, outside)
    requires CseOf(body, outside, |body|).optimized == optimized
    ensures
      var gone := set d | d in CseOf(body, outside, |body|).removed;
      IsOptimized(Flatten(Looped(body)), Flatten(Looped(optimized)), Looped(body), Looped(optimized), [{}, gone, {}, {}])
  {
    hide CseOf, Flatten, ReadOutside;
    var scopes, outs := Looped(body), Looped(optimized);
    var gone := set d | d in CseOf(body, outside, |body|).removed;
    assert AllScoped(scopes) && Maximal(scopes);
    assert BodyOptimized(body, outside, outs[1], gone);
    forall j: nat | j < |scopes|
      ensures Optimized(scopes, j, outs[j], [{}, gone, {}, {}][j])
    {
    }
  }

  /* ---------- an instruction that reads its own destination ---------- */

  /** R1 is incremented in place, so the second addition is not the same expression. */
  const Incrementing: seq<Instr> := [AddOne(R(1), R(1)), AddOne(R(2), R(1)), Copy(R(3), R(2))]

  const Incremented: seq<Instr> := [AddOne(R(1), R(1)), Copy(R(3), R(1))]

  lemma AllStraight()
    ensures Straight(Incrementing) && Straight(Incremented) && Straight(Stale) && Straight(Fresher)
  {
    RewriteAdd(R(1), R(1), map[]);
    RewriteAdd(R(2), R(1), map[]);
    RewriteAdd(R(1), R(4), map[]);
    RewriteAdd(R(2), R(4), map[]);
    RewriteCopy(R(3), R(2), R(1));
    RewriteCopy(R(3), R(1), R(2));
  }

  lemma FirstKept(outside: set<Reg>, c: Cse)
    requires Straight(Incrementing) && R(1) !in outside && c == Advance(Start(), Incrementing, 0, outside)
    ensures c == Cse(map[AddKey(R(1)) := R(1)], map[], [AddOne(R(1), R(1))], [])
  {
    RewriteAdd(R(1), R(1), map[]);
  }

  lemma SecondRemoved(outside: set<Reg>, c: Cse, after: Cse)
    requires Straight(Incrementing) && R(2) !in outside && after == Advance(c, Incrementing, 1, outside)
    requires c == Cse(map[AddKey(R(1)) := R(1)], map[], [AddOne(R(1), R(1))], [])
    ensures after.aliases == map[R(2) := R(1)] && after.optimized == c.optimized
  {
    RewriteAdd(R(2), R(1), map[]);
    RewriteCopy(R(3), R(2), R(1));
    var future := Incrementing[2..];
    assert future == [Copy(R(3), R(2))] && future[1..] == [];
    assert !ReadAfterRedefinition(R(2), R(1), future, false);
  }

  lemma Optimizes(outside: set<Reg>)
    requires R(1) !in outside && R(2) !in outside
    ensures Straight(Incrementing) && CseOf(Incrementing, outside, 3).optimized == Incremented
  {
    AllStraight();
    RewriteCopy(R(3), R(2), R(1));
    var c1, c2 := CseOf(Incrementing, outside, 1), CseOf(Incrementing, outside, 2);
    assert CseOf(Incrementing, outside, 0) == Start();
    FirstKept(outside, c1);
    SecondRemoved(outside, c1, c2);
  }

  lemma WrapTwice(x: Word)
    ensures M.Wrap(M.Wrap(x as int + 1) as int + 1) == M.Wrap(x as int + 2)
  {
  }

  lemma IncrementingRuns(unit: Unit, regs: Regs, one: Word, two: Word)
    requires one == M.Wrap(Get(regs, R(1)) as int + 1) && two == M.Wrap(one as int + 1)
    ensures Straight(Incrementing)
    ensures Exec(unit, Incrementing, regs) == regs[R(1) := one][R(2) := two][R(3) := two]
  {
    var first, second := regs[R(1) := one], regs[R(1) := one][R(2) := two];
    RunAdd(unit, R(1), R(1), regs);
    RunAdd(unit, R(2), R(1), first);
    RunCopy(unit, R(3), R(2), second);
    RunThree(unit, AddOne(R(1), R(1)), AddOne(R(2), R(1)), Copy(R(3), R(2)), regs);
  }

  lemma OriginalR3(unit: Unit, regs: Regs)
    ensures Straight(Incrementing) && Get(Exec(unit, Incrementing, regs), R(3)) == M.Wrap(Get(regs, R(1)) as int + 2)
    ensures Get(Exec(unit, Incrementing, regs), Address) == Get(regs, Address)
  {
    var one: Word := M.Wrap(Get(regs, R(1)) as int + 1);
    WrapTwice(Get(regs, R(1)));
    IncrementingRuns(unit, regs, one, M.Wrap(one as int + 1));
  }

  lemma OptimizedR3(unit: Unit, regs: Regs)
    ensures Straight(Incremented) && Get(Exec(unit, Incremented, regs), R(3)) == M.Wrap(Get(regs, R(1)) as int + 1)
    ensures Get(Exec(unit, Incremented, regs), Address) == Get(regs, Address)
  {
    var one: Word := M.Wrap(Get(regs, R(1)) as int + 1);
    RunAdd(unit, R(1), R(1), regs);
    RunCopy(unit, R(3), R(1), regs[R(1) := one]);
    RunTwo(unit, AddOne(R(1), R(1)), Copy(R(3), R(1)), regs);
  }

  lemma IncrementingResult(p: Program, q: Program, scopes: seq<Scope>, outs: seq<Scope>, removed: seq<set<Reg>>)
    requires p == Flatten(Looped(Incrementing)) && IsOptimized(p, q, scopes, outs, removed)
    ensures q == Flatten(Looped(Incremented))
  {
    var outside := OutsideOf(Incrementing);
    ReadsOutsideBody(Incrementing, R(1));
    ReadsOutsideBody(Incrementing, R(2));
    Optimizes(outside);
    LoopOptimized(Incrementing, Incremented, outside);
    var gone := set d | d in CseOf(Incrementing, outside, 3).removed;
    ResultUnique(p, q, scopes, outs, removed, Flatten(Looped(Incremented)), Looped(Incrementing), Looped(Incremented),
                 [{}, gone, {}, {}]);
  }

  /** The original stores two more than R1, the result of the pass one more. */
  lemma SelfReadChangesMeaning(unit: Unit, p: Program, q: Program, scopes: seq<Scope>, outs: seq<Scope>,
                               removed: seq<set<Reg>>, s: State)
    requires p == Flatten(Looped(Incrementing)) && IsOptimized(p, q, scopes, outs, removed)
    ensures
      var a, r := Get(s.regs, Address), Get(s.regs, R(1)) as int;
      var o, k := Run(Steps(unit, p), At(0, s), 6), Run(Steps(unit, q), At(0, s), 5);
      && o.At? && o.pc == 0 && o.s.mem == s.mem[a := M.Wrap(r + 2)]
      && k.At? && k.pc == 0 && k.s.mem == s.mem[a := M.Wrap(r + 1)]
  {
    IncrementingResult(p, q, scopes, outs, removed);
    AllStraight();
    LoopOnce(unit, p, Incrementing, s);
    LoopOnce(unit, q, Incremented, s);
    OriginalR3(unit, s.regs);
    OptimizedR3(unit, s.regs);
  }

  /** The registers that the loop reads outside its body. */
  lemma OutsideOf(body: seq<Instr>) returns (outside: set<Reg>)
    ensures IsOutside(Looped(body), 1, outside)
  {
    outside := set r | r in {Address, R(3)} && ReadOutside(Looped(body), 1, r);
    forall r: Reg
      ensures r in outside <==> ReadOutside(Looped(body), 1, r)
    {
      if r != Address && r != R(3) {
        ReadsOutsideBody(body, r);
      }
    }
  }

  /* ---------- a removed destination that is read before it is written ---------- */

  /** R2 is stored before it is computed, so the value stored is that of the iteration before. */
  const Stale: seq<Instr> := [Copy(R(3), R(2)), AddOne(R(1), R(4)), AddOne(R(2), R(4))]

  const Fresher: seq<Instr> := [Copy(R(3), R(2)), AddOne(R(1), R(4))]

  lemma StaleFirst(outside: set<Reg>, c: Cse)
    requires Straight(Stale) && R(3) in outside && c == Advance(Start(), Stale, 0, outside)
    ensures c == Cse(map[], map[], [Copy(R(3), R(2))], [])
  {
    KeepCopy(R(3), R(2));
  }

  lemma StaleSecond(outside: set<Reg>, c: Cse, after: Cse)
    requires Straight(Stale) && R(1) !in outside && after == Advance(c, Stale, 1, outside)
    requires c == Cse(map[], map[], [Copy(R(3), R(2))], [])
    ensures after == Cse(map[AddKey(R(4)) := R(1)], map[], Fresher, [])
  {
    RewriteAdd(R(1), R(4), map[]);
  }

  lemma StaleThird(outside: set<Reg>, c: Cse, after: Cse)
    requires Straight(Stale) && R(2) !in outside && after == Advance(c, Stale, 2, outside)
    requires c == Cse(map[AddKey(R(4)) := R(1)], map[], Fresher, [])
    ensures after.optimized == Fresher && after.removed == [R(2)]
  {
    RewriteAdd(R(2), R(4), map[]);
    assert Stale[3..] == [];
    assert !ReadAfterRedefinition(R(2), R(1), [], false);
    assert !UsesRegister(AddKey(R(4)).sources, R(2));
  }

  lemma RemovesStale(outside: set<Reg>)
    requires R(1) !in outside && R(2) !in outside && R(3) in outside
    ensures Straight(Stale) && CseOf(Stale, outside, 3).optimized == Fresher && CseOf(Stale, outside, 3).removed == [R(2)]
  {
    AllStraight();
    var c1, c2 := CseOf(Stale, outside, 1), CseOf(Stale, outside, 2);
    assert CseOf(Stale, outside, 0) == Start();
    StaleFirst(outside, c1);
    StaleSecond(outside, c1, c2);
    StaleThird(outside, c2, CseOf(Stale, outside, 3));
  }

  lemma StaleRuns(unit: Unit, regs: Regs)
    ensures Straight(Stale)
    ensures
      var one: Word := M.Wrap(Get(regs, R(4)) as int + 1);
      Exec(unit, Stale, regs) == regs[R(3) := Get(regs, R(2))][R(1) := one][R(2) := one]
  {
    var one: Word := M.Wrap(Get(regs, R(4)) as int + 1);
    var first := regs[R(3) := Get(regs, R(2))];
    RunCopy(unit, R(3), R(2), regs);
    RunAdd(unit, R(1), R(4), first);
    RunAdd(unit, R(2), R(4), first[R(1) := one]);
    RunThree(unit, Copy(R(3), R(2)), AddOne(R(1), R(4)), AddOne(R(2), R(4)), regs);
  }

  lemma FresherRuns(unit: Unit, regs: Regs)
    ensures Straight(Fresher)
    ensures
      var one: Word := M.Wrap(Get(regs, R(4)) as int + 1);
      Exec(unit, Fresher, regs) == regs[R(3) := Get(regs, R(2))][R(1) := one]
  {
    RunCopy(unit, R(3), R(2), regs);
    RunAdd(unit, R(1), R(4), regs[R(3) := Get(regs, R(2))]);
    RunTwo(unit, Copy(R(3), R(2)), AddOne(R(1), R(4)), regs);
  }

  lemma StaleResult(p: Program, q: Program, scopes: seq<Scope>, outs: seq<Scope>, removed: seq<set<Reg>>)
    requires p == Flatten(Looped(Stale)) && IsOptimized(p, q, scopes, outs, removed)
    ensures q == Flatten(Looped(Fresher))
  {
    var outside := OutsideOf(Stale);
    ReadsOutsideBody(Stale, R(1));
    ReadsOutsideBody(Stale, R(2));
    R3ReadOutside(Stale);
    RemovesStale(outside);
    LoopOptimized(Stale, Fresher, outside);
    var gone := set d | d in CseOf(Stale, outside, 3).removed;
    ResultUnique(p, q, scopes, outs, removed, Flatten(Looped(Fresher)), Looped(Stale), Looped(Fresher), [{}, gone, {}, {}]);
  }

  /** What the second iteration stores. */
  lemma StaleTwice(unit: Unit, p: Program, s: State)
    requires p == Flatten(Looped(Stale))
    ensures
      var a, o := Get(s.regs, Address), Run(Steps(unit, p), At(0, s), 12);
      o.At? && o.pc == 0 && a in o.s.mem && o.s.mem[a] == M.Wrap(Get(s.regs, R(4)) as int + 1)
  {
    AllStraight();
    LoopTwice(unit, p, Stale, s);
    StaleRuns(unit, s.regs);
    var s1 := Iterated(unit, Stale, s);
    StaleRuns(unit, s1.regs);
    assert Get(s1.regs, Address) == Get(s.regs, Address) && Get(s1.regs, R(2)) == M.Wrap(Get(s.regs, R(4)) as int + 1);
  }

  lemma FresherTwice(unit: Unit, p: Program, s: State)
    requires p == Flatten(Looped(Fresher))
    ensures
      var a, o := Get(s.regs, Address), Run(Steps(unit, p), At(0, s), 10);
      o.At? && o.pc == 0 && a in o.s.mem && o.s.mem[a] == Get(s.regs, R(2))
  {
    AllStraight();
    LoopTwice(unit, p, Fresher, s);
    FresherRuns(unit, s.regs);
    var s1 := Iterated(unit, Fresher, s);
    FresherRuns(unit, s1.regs);
    assert Get(s1.regs, Address) == Get(s.regs, Address) && Get(s1.regs, R(2)) == Get(s.regs, R(2));
  }

  /** In the second iteration the original stores one more than R4, the result of the pass the initial R2. */
  lemma ExposedChangesMeaning(unit: Unit, p: Program, q: Program, scopes: seq<Scope>, outs: seq<Scope>,
                              removed: seq<set<Reg>>, s: State)
    requires p == Flatten(Looped(Stale)) && IsOptimized(p, q, scopes, outs, removed)
    ensures
      var a, r := Get(s.regs, Address), Get(s.regs, R(4)) as int;
      var o, k := Run(Steps(unit, p), At(0, s), 12), Run(Steps(unit, q), At(0, s), 10);
      && o.At? && o.pc == 0 && a in o.s.mem && o.s.mem[a] == M.Wrap(r + 1)
      && k.At? && k.pc == 0 && a in k.s.mem && k.s.mem[a] == Get(s.regs, R(2))
  {
    StaleResult(p, q, scopes, outs, removed);
    StaleTwice(unit, p, s);
    FresherTwice(unit, q, s);
  }
}
