/** After an optimised scope, every register but the removed destinations holds its original value. */
module LocalCseMeaning {
  import opened Isa
  import opened Ptx
  import opened LocalCse
  import opened Sequences

  type Regs = map<Reg, Word>

  function Result(unit: Unit, key: Key, regs: Regs): Word {
    PureResult(unit, key.op, key.mods, key.ty, Values(unit, key.sources, regs))
  }

  function Apply(unit: Unit, i: Instr, regs: Regs): Regs
    requires Keyed(i)
  {
    regs[Dest(i) := Result(unit, KeyOf(i).value, regs)]
  }

  function Exec(unit: Unit, insts: seq<Instr>, regs: Regs): Regs
    requires Straight(insts)
  {
    if insts == [] then regs
    else Apply(unit, insts[|insts| - 1], Exec(unit, insts[..|insts| - 1], regs))
  }

  /** On the machine, an instruction of a scope does what `Apply` says, and nothing else. */
  lemma KeyedEffect(unit: Unit, i: Instr, s: State)
    requires Keyed(i)
    ensures Effect(unit, i, s) == Some(s.(regs := Apply(unit, i, s.regs))) && GuardPasses(i, s)
  {
  }

  /* ---------- side conditions ---------- */

  /** No instruction reads its own destination, unless that is read outside, where no expression is recorded for it. */
  predicate NoSelfRead(insts: seq<Instr>, outside: set<Reg>)
    requires Straight(insts)
  {
    forall k | 0 <= k < |insts| :: Dest(insts[k]) in outside || !Reads(insts[k], Dest(insts[k]))
  }

  predicate ReadIn(insts: seq<Instr>, r: Reg)
    requires Straight(insts)
  {
    exists k :: 0 <= k < |insts| && Reads(insts[k], r)
  }

  /** `r` is read before it is written. */
  predicate Exposed(insts: seq<Instr>, r: Reg)
    requires Straight(insts)
  {
    insts != [] && (Reads(insts[0], r) || (Dest(insts[0]) != r && Exposed(insts[1..], r)))
  }

  /* ---------- what holds between the two executions ---------- */

  /** The registers agree, except the unknown ones and those that have an alias. */
  ghost predicate Agree(c: Cse, unknown: set<Reg>, v: Regs, w: Regs) {
    forall r: Reg | r !in c.aliases && r !in unknown :: Get(v, r) == Get(w, r)
  }

  /** The value of `a` is in its alias. */
  predicate Fresh(c: Cse, unknown: set<Reg>, v: Regs, w: Regs, a: Reg)
    requires a in c.aliases
  {
    var t := c.aliases[a];
    t !in c.aliases && t !in unknown && Get(v, a) == Get(w, t)
  }

  predicate AliasKept(c: Cse, unknown: set<Reg>, v: Regs, w: Regs, a: Reg, rest: seq<Instr>)
    requires a in c.aliases && Straight(rest)
  {
    || (Fresh(c, unknown, v, w, a) && !ReadAfterRedefinition(a, c.aliases[a], rest, false))
    || !ReadIn(rest, a)
  }

  ghost predicate AliasesKept(c: Cse, unknown: set<Reg>, v: Regs, w: Regs, rest: seq<Instr>)
    requires Straight(rest)
  {
    forall a | a in c.aliases :: AliasKept(c, unknown, v, w, a, rest)
  }

  predicate Holds(unit: Unit, c: Cse, unknown: set<Reg>, w: Regs, key: Key)
    requires key in c.exprs
  {
    var d := c.exprs[key];
    d !in c.aliases && d !in unknown && Get(w, d) == Result(unit, key, w)
  }

  ghost predicate ExprsHold(unit: Unit, c: Cse, unknown: set<Reg>, w: Regs) {
    forall key | key in c.exprs :: Holds(unit, c, unknown, w, key)
  }

  ghost predicate Unexposed(unknown: set<Reg>, rest: seq<Instr>)
    requires Straight(rest)
  {
    forall u | u in unknown :: !Exposed(rest, u)
  }

  ghost predicate Related(unit: Unit, c: Cse, unknown: set<Reg>, v: Regs, w: Regs, rest: seq<Instr>)
    requires Straight(rest)
  {
    && Agree(c, unknown, v, w) && AliasesKept(c, unknown, v, w, rest)
    && ExprsHold(unit, c, unknown, w) && Unexposed(unknown, rest)
  }

  /* ---------- one instruction ---------- */

  /** A register that the next instruction reads has its value in the register it is rewritten to. */
  lemma ReadValue(unit: Unit, c: Cse, unknown: set<Reg>, v: Regs, w: Regs, rest: seq<Instr>, r: Reg)
    requires Straight(rest) && rest != [] && Related(unit, c, unknown, v, w, rest) && Reads(rest[0], r)
    ensures Get(v, r) == Get(w, Resolve(r, c.aliases, {}))
    ensures
      || Resolve(r, c.aliases, {}) == r
      || (r in c.aliases && Resolve(r, c.aliases, {}) == c.aliases[r] && !ReadAfterRedefinition(r, c.aliases[r], rest, false))
  {
    if r in c.aliases {
      assert AliasKept(c, unknown, v, w, r, rest);
    }
  }

  lemma RewrittenResult(unit: Unit, c: Cse, unknown: set<Reg>, v: Regs, w: Regs, rest: seq<Instr>)
    requires Straight(rest) && rest != [] && Related(unit, c, unknown, v, w, rest)
    ensures
      var i := RewriteSources(rest[0], c.aliases);
      Keyed(i) && Dest(i) == Dest(rest[0]) && Result(unit, KeyOf(i).value, w) == Result(unit, KeyOf(rest[0]).value, v)
  {
    var i := RewriteSources(rest[0], c.aliases);
    RewrittenKeyed(rest[0], c.aliases);
    var sources := Sources(rest[0]);
    forall k | 0 <= k < |sources|
      ensures Value(unit, RewriteOperand(sources[k], c.aliases), w) == Value(unit, sources[k], v)
    {
      if sources[k].RegOp? || sources[k].Addr? {
        assert Mentions(sources[k], sources[k].reg);
        ReadValue(unit, c, unknown, v, w, rest, sources[k].reg);
      }
    }
    assert Values(unit, Sources(i), w) == Values(unit, sources, v);
  }

  /** Rewriting does not make an instruction read its own destination. */
  lemma RewrittenNoSelfRead(unit: Unit, c: Cse, unknown: set<Reg>, v: Regs, w: Regs, rest: seq<Instr>)
    requires Straight(rest) && rest != [] && Related(unit, c, unknown, v, w, rest) && !Reads(rest[0], Dest(rest[0]))
    ensures !UsesRegister(RewriteOperands(Sources(rest[0]), c.aliases), Dest(rest[0]))
  {
    var d, sources := Dest(rest[0]), Sources(rest[0]);
    var rewritten := RewriteOperands(sources, c.aliases);
    forall k | 0 <= k < |rewritten|
      ensures !Mentions(rewritten[k], d)
    {
      if sources[k].RegOp? || sources[k].Addr? {
        assert Mentions(sources[k], sources[k].reg);
        ReadValue(unit, c, unknown, v, w, rest, sources[k].reg);
      }
    }
  }

  lemma ReadInRest(rest: seq<Instr>, r: Reg)
    requires Straight(rest) && rest != []
    ensures ReadIn(rest, r) <==> Reads(rest[0], r) || ReadIn(rest[1..], r)
  {
    if ReadIn(rest[1..], r) {
      var k :| 0 <= k < |rest[1..]| && Reads(rest[1..][k], r);
      assert Reads(rest[k + 1], r);
    }
    if ReadIn(rest, r) {
      var k :| 0 <= k < |rest| && Reads(rest[k], r);
      assert k > 0 ==> Reads(rest[1..][k - 1], r);
    }
  }

  lemma {:induction false} RedefinedReads(a: Reg, t: Reg, rest: seq<Instr>)
    requires Straight(rest)
    ensures ReadAfterRedefinition(a, t, rest, true) <==> ReadIn(rest, a)
  {
    if rest != [] {
      ReadInRest(rest, a);
      RedefinedReads(a, t, rest[1..]);
    }
  }

  /** Writing `d` to both: an alias of another register stays good, or its name is read no more. */
  lemma AliasStep(unit: Unit, c: Cse, unknown: set<Reg>, v: Regs, w: Regs, rest: seq<Instr>, a: Reg)
    requires Straight(rest) && rest != [] && a in c.aliases && AliasKept(c, unknown, v, w, a, rest)
    ensures
      var d := Dest(rest[0]);
      || !ReadIn(rest[1..], a)
      || (Fresh(c, unknown, v, w, a) && c.aliases[a] != d && !ReadAfterRedefinition(a, c.aliases[a], rest[1..], false))
  {
    ReadInRest(rest, a);
    RedefinedReads(a, c.aliases[a], rest[1..]);
  }

  lemma ResultUnchanged(unit: Unit, key: Key, w: Regs, d: Reg, x: Word)
    requires !UsesRegister(key.sources, d)
    ensures Result(unit, key, w[d := x]) == Result(unit, key, w)
  {
    forall k | 0 <= k < |key.sources|
      ensures Value(unit, key.sources[k], w[d := x]) == Value(unit, key.sources[k], w)
    {
      assert !Mentions(key.sources[k], d);
    }
    assert Values(unit, key.sources, w[d := x]) == Values(unit, key.sources, w);
  }

  /** The expressions that survive a definition of `d` still hold, whether or not `d` is written. */
  lemma ExprsSurvive(unit: Unit, c: Cse, unknown: set<Reg>, w: Regs, d: Reg, x: Word)
    requires ExprsHold(unit, c, unknown, w)
    ensures ExprsHold(unit, Invalidate(c, d), unknown - {d}, w[d := x])
    ensures ExprsHold(unit, Invalidate(c, d), unknown - {d}, w)
    ensures forall key | key in Invalidate(c, d).exprs :: Invalidate(c, d).exprs[key] != d
  {
    var after := Invalidate(c, d);
    forall key | key in after.exprs
      ensures Holds(unit, after, unknown - {d}, w[d := x], key) && Holds(unit, after, unknown - {d}, w, key)
    {
      assert Holds(unit, c, unknown, w, key);
      ResultUnchanged(unit, key, w, d, x);
    }
  }

  lemma UnexposedStep(unknown: set<Reg>, rest: seq<Instr>)
    requires Straight(rest) && rest != [] && Unexposed(unknown, rest)
    ensures Unexposed(unknown - {Dest(rest[0])}, rest[1..])
  {
    forall u | u in unknown - {Dest(rest[0])}
      ensures !Exposed(rest[1..], u)
    {
      assert !Exposed(rest, u);
    }
  }

  /** The instruction stays: both executions write the same value to its destination. */
  lemma KeptStep(unit: Unit, c: Cse, unknown: set<Reg>, v: Regs, w: Regs, rest: seq<Instr>, x: Word, after: Cse)
    requires Straight(rest) && rest != [] && Related(unit, c, unknown, v, w, rest)
    requires var d := Dest(rest[0]);
             && after.aliases == Invalidate(c, d).aliases
             && ExprsHold(unit, after, unknown - {d}, w[d := x])
    ensures var d := Dest(rest[0]); Related(unit, after, unknown - {d}, v[d := x], w[d := x], rest[1..])
  {
    var d := Dest(rest[0]);
    UnexposedStep(unknown, rest);
    forall a | a in after.aliases
      ensures AliasKept(after, unknown - {d}, v[d := x], w[d := x], a, rest[1..])
    {
      assert AliasKept(c, unknown, v, w, a, rest);
      AliasStep(unit, c, unknown, v, w, rest, a);
    }
  }

  /** The instruction goes: its destination becomes an alias of a register that holds the value. */
  lemma {:induction false} RemovedStep(unit: Unit, c: Cse, unknown: set<Reg>, v: Regs, w: Regs, rest: seq<Instr>,
                                       x: Word, t: Reg, after: Cse)
    requires Straight(rest) && rest != [] && Related(unit, c, unknown, v, w, rest)
    requires var d := Dest(rest[0]); var invalidated := Invalidate(c, d);
             && t != d && t !in c.aliases && t !in unknown && Get(w, t) == x
             && !ReadAfterRedefinition(d, t, rest[1..], false)
             && after.aliases == invalidated.aliases[d := t] && after.exprs == invalidated.exprs
    ensures var d := Dest(rest[0]); Related(unit, after, unknown - {d}, v[d := x], w, rest[1..])
  {
    var d := Dest(rest[0]);
    UnexposedStep(unknown, rest);
    ExprsSurvive(unit, c, unknown, w, d, x);
    forall key | key in after.exprs
      ensures Holds(unit, after, unknown - {d}, w, key)
    {
      assert Holds(unit, Invalidate(c, d), unknown - {d}, w, key);
    }
    forall a | a in after.aliases
      ensures AliasKept(after, unknown - {d}, v[d := x], w, a, rest[1..])
    {
      if a != d {
        assert AliasKept(c, unknown, v, w, a, rest);
        AliasStep(unit, c, unknown, v, w, rest, a);
      }
    }
  }

  /* ---------- the whole scope ---------- */

  /** What each execution has reached after the first `k` instructions. */
  ghost predicate RelatedAt(unit: Unit, insts: seq<Instr>, outside: set<Reg>, unknown: set<Reg>, v0: Regs, w0: Regs,
                            k: nat)
    requires Straight(insts) && k <= |insts|
  {
    var c := CseOf(insts, outside, k);
    && Straight(c.optimized)
    && Related(unit, c, UnknownAfter(insts, unknown, k), Exec(unit, insts[..k], v0), Exec(unit, c.optimized, w0), insts[k..])
  }

  /** The unknown registers that have not been written yet. */
  function UnknownAfter(insts: seq<Instr>, unknown: set<Reg>, k: nat): set<Reg>
    requires Straight(insts) && k <= |insts|
  {
    if k == 0 then unknown else UnknownAfter(insts, unknown, k - 1) - {Dest(insts[k - 1])}
  }

  lemma ExecNext(unit: Unit, insts: seq<Instr>, i: Instr, regs: Regs)
    requires Straight(insts) && Keyed(i)
    ensures Straight(insts + [i]) && Exec(unit, insts + [i], regs) == Apply(unit, i, Exec(unit, insts, regs))
  {
    assert (insts + [i])[..|insts|] == insts;
  }

  /** The new expression of a kept instruction, if it is recorded, holds, as it does not read its own destination. */
  lemma NewExprHolds(unit: Unit, c: Cse, unknown: set<Reg>, w: Regs, i: Instr, after: Cse)
    requires Keyed(i) && ExprsHold(unit, c, unknown, w)
    requires after.aliases == Invalidate(c, Dest(i)).aliases
    requires
      || after.exprs == Invalidate(c, Dest(i)).exprs
      || (after.exprs == Invalidate(c, Dest(i)).exprs[KeyOf(i).value := Dest(i)] && !UsesRegister(Sources(i), Dest(i)))
    ensures ExprsHold(unit, after, unknown - {Dest(i)}, Apply(unit, i, w))
  {
    var d, key, x := Dest(i), KeyOf(i).value, Result(unit, KeyOf(i).value, w);
    ExprsSurvive(unit, c, unknown, w, d, x);
    if !UsesRegister(Sources(i), d) {
      ResultUnchanged(unit, key, w, d, x);
    }
    forall k | k in after.exprs
      ensures Holds(unit, after, unknown - {d}, Apply(unit, i, w), k)
    {
      assert k in Invalidate(c, d).exprs ==> Holds(unit, Invalidate(c, d), unknown - {d}, w[d := x], k);
    }
  }

  /** One step of the pass relates one more instruction. */
  lemma {:induction false} StepRelated(unit: Unit, c: Cse, unknown: set<Reg>, v: Regs, w: Regs, rest: seq<Instr>,
                                       outside: set<Reg>)
    requires Straight(rest) && rest != [] && Related(unit, c, unknown, v, w, rest)
    requires Dest(rest[0]) in outside || !Reads(rest[0], Dest(rest[0]))
    ensures
      var i := RewriteSources(rest[0], c.aliases);
      Keyed(i) && Straight(rest[1..]) &&
      var after := Place(Invalidate(c, Dest(i)), i, outside, rest[1..]);
      var d := Dest(rest[0]);
      || (after.optimized == c.optimized + [i] && after.removed == c.removed
          && Related(unit, after, unknown - {d}, Apply(unit, rest[0], v), Apply(unit, i, w), rest[1..]))
      || (after.optimized == c.optimized && after.removed == c.removed + [d] && d !in outside
          && Related(unit, after, unknown - {d}, Apply(unit, rest[0], v), w, rest[1..]))
  {
    var i, d := RewriteSources(rest[0], c.aliases), Dest(rest[0]);
    RewrittenKeyed(rest[0], c.aliases);
    RewrittenResult(unit, c, unknown, v, w, rest);
    if d !in outside {
      RewrittenNoSelfRead(unit, c, unknown, v, w, rest);
    }
    var invalidated, key := Invalidate(c, d), KeyOf(i).value;
    var after := Place(invalidated, i, outside, rest[1..]);
    var x := Result(unit, key, w);
    if after.optimized == c.optimized {
      var t := invalidated.exprs[key];
      ExprsSurvive(unit, c, unknown, w, d, x);
      assert Holds(unit, c, unknown, w, key);
      assert Resolve(t, invalidated.aliases, {}) == t;
      RemovedStep(unit, c, unknown, v, w, rest, x, t, after);
    } else {
      NewExprHolds(unit, c, unknown, w, i, after);
      KeptStep(unit, c, unknown, v, w, rest, x, after);
    }
  }

  /** Aliases are removed destinations, and those are read in no other scope. */
  ghost predicate RemovedAccounted(c: Cse, insts: seq<Instr>, outside: set<Reg>)
    requires Straight(insts)
  {
    && (forall a | a in c.aliases :: a in c.removed)
    && (forall d | d in c.removed :: d !in outside && exists k :: 0 <= k < |insts| && Dest(insts[k]) == d)
  }

  ghost predicate AgreeExcept(unknown: set<Reg>, v: Regs, w: Regs) {
    forall r: Reg | r !in unknown :: Get(v, r) == Get(w, r)
  }

  lemma AccountedNext(c: Cse, insts: seq<Instr>, outside: set<Reg>, k: nat)
    requires Straight(insts) && k < |insts| && RemovedAccounted(c, insts, outside)
    ensures RemovedAccounted(Advance(c, insts, k, outside), insts, outside)
  {
    RewrittenKeyed(insts[k], c.aliases);
    var w := RewriteSources(insts[k], c.aliases);
    var invalidated := Invalidate(c, Dest(w));
    PlaceAccounted(invalidated, w, insts, outside, insts[k + 1..], k);
  }

  lemma PlaceAccounted(c: Cse, w: Instr, insts: seq<Instr>, outside: set<Reg>, future: seq<Instr>, k: nat)
    requires Straight(insts) && Straight(future) && RemovedAccounted(c, insts, outside)
    requires Keyed(w) && k < |insts| && Dest(insts[k]) == Dest(w)
    ensures RemovedAccounted(Place(c, w, outside, future), insts, outside)
  {
    var after := Place(c, w, outside, future);
    assert after.removed == c.removed || after.removed == c.removed + [Dest(w)];
    assert forall d | d in c.removed :: d in after.removed;
  }

  lemma AccountedSteps(insts: seq<Instr>, outside: set<Reg>, state: nat -> Cse, k: nat)
    requires Straight(insts) && state(0) == Start()
    requires forall i: nat | i < |insts| :: state(i + 1) == Advance(state(i), insts, i, outside)
    requires k <= |insts|
    ensures RemovedAccounted(state(k), insts, outside)
  {
    var accounted := (i: nat) => i <= |insts| && RemovedAccounted(state(i), insts, outside);
    forall i: nat | i < |insts| && accounted(i)
      ensures accounted(i + 1)
    {
      AccountedNext(state(i), insts, outside, i);
    }
    Induction(accounted, k);
  }

  lemma ScopeAccounted(insts: seq<Instr>, outside: set<Reg>)
    requires Straight(insts)
    ensures RemovedAccounted(CseOf(insts, outside, |insts|), insts, outside)
  {
    AccountedSteps(insts, outside, (k: nat) => if k <= |insts| then CseOf(insts, outside, k) else Start(), |insts|);
  }

  /** The state after one more instruction of the scope. */
  lemma CseNext(insts: seq<Instr>, outside: set<Reg>, k: nat, c: Cse, i: Instr)
    requires Straight(insts) && k < |insts| && c == CseOf(insts, outside, k) && i == RewriteSources(insts[k], c.aliases)
    ensures Keyed(i) && CseOf(insts, outside, k + 1) == Place(Invalidate(c, Dest(i)), i, outside, insts[k + 1..])
  {
    RewrittenKeyed(insts[k], c.aliases);
  }

  lemma SplitsAt<T>(s: seq<T>, k: nat)
    requires k < |s|
    ensures s[k..] != [] && s[k..][0] == s[k] && s[k..][1..] == s[k + 1..] && s[..k + 1] == s[..k] + [s[k]]
  {
  }

  /** The instructions so far, the one at `k`, and what they leave. */
  lemma ExecAt(unit: Unit, insts: seq<Instr>, k: nat, regs: Regs)
    requires Straight(insts) && k < |insts|
    ensures Exec(unit, insts[..k + 1], regs) == Apply(unit, insts[k], Exec(unit, insts[..k], regs))
  {
    SplitsAt(insts, k);
    ExecNext(unit, insts[..k], insts[k], regs);
  }

  lemma RelatedNext(unit: Unit, insts: seq<Instr>, outside: set<Reg>, unknown: set<Reg>, v0: Regs, w0: Regs, k: nat)
    requires Straight(insts) && k < |insts| && NoSelfRead(insts, outside)
    requires RelatedAt(unit, insts, outside, unknown, v0, w0, k)
    ensures RelatedAt(unit, insts, outside, unknown, v0, w0, k + 1)
  {
    var c := CseOf(insts, outside, k);
    var i := RewriteSources(insts[k], c.aliases);
    SplitsAt(insts, k);
    StepRelated(unit, c, UnknownAfter(insts, unknown, k), Exec(unit, insts[..k], v0), Exec(unit, c.optimized, w0), insts[k..],
                outside);
    CseNext(insts, outside, k, c, i);
    ExecAt(unit, insts, k, v0);
    ExecNext(unit, c.optimized, i, w0);
  }

  ghost function RelatedUpTo(unit: Unit, insts: seq<Instr>, outside: set<Reg>, unknown: set<Reg>, v0: Regs, w0: Regs):
    nat -> bool
    requires Straight(insts)
  {
    (k: nat) => k <= |insts| && RelatedAt(unit, insts, outside, unknown, v0, w0, k)
  }

  lemma RelatedFirst(unit: Unit, insts: seq<Instr>, outside: set<Reg>, unknown: set<Reg>, v0: Regs, w0: Regs)
    requires Straight(insts) && AgreeExcept(unknown, v0, w0) && Unexposed(unknown, insts)
    ensures RelatedAt(unit, insts, outside, unknown, v0, w0, 0)
  {
    assert insts[0..] == insts && insts[..0] == [];
  }

  lemma RelatedStep(unit: Unit, insts: seq<Instr>, outside: set<Reg>, unknown: set<Reg>, v0: Regs, w0: Regs,
                    related: nat -> bool, k: nat)
    requires Straight(insts) && NoSelfRead(insts, outside)
    requires related == RelatedUpTo(unit, insts, outside, unknown, v0, w0) && k < |insts| && related(k)
    ensures related(k + 1)
  {
    RelatedNext(unit, insts, outside, unknown, v0, w0, k);
  }

  lemma ScopeRelated(unit: Unit, insts: seq<Instr>, outside: set<Reg>, unknown: set<Reg>, v0: Regs, w0: Regs,
                     related: nat -> bool)
    requires Straight(insts) && NoSelfRead(insts, outside) && related == RelatedUpTo(unit, insts, outside, unknown, v0, w0)
    requires AgreeExcept(unknown, v0, w0) && Unexposed(unknown, insts)
    ensures related(|insts|)
  {
    RelatedFirst(unit, insts, outside, unknown, v0, w0);
    forall k: nat | k < |insts| && related(k)
      ensures related(k + 1)
    {
      RelatedStep(unit, insts, outside, unknown, v0, w0, related, k);
    }
    Induction(related, |insts|);
  }

  lemma {:induction false} UnknownShrinks(insts: seq<Instr>, unknown: set<Reg>, k: nat)
    requires Straight(insts) && k <= |insts|
    ensures UnknownAfter(insts, unknown, k) <= unknown
  {
    if k > 0 {
      UnknownShrinks(insts, unknown, k - 1);
    }
  }

  /**
   After an optimised scope every register except the removed destinations holds its original value; registers
   that may have differed before the scope must not be read in it before they are written.
   */
  lemma ScopePreserves(unit: Unit, insts: seq<Instr>, outside: set<Reg>, unknown: set<Reg>, v0: Regs, w0: Regs, c: Cse)
    requires Straight(insts) && NoSelfRead(insts, outside) && c == CseOf(insts, outside, |insts|)
    requires AgreeExcept(unknown, v0, w0) && Unexposed(unknown, insts)
    ensures Straight(c.optimized)
    ensures AgreeExcept(unknown + (set d | d in c.removed), Exec(unit, insts, v0), Exec(unit, c.optimized, w0))
    ensures forall d | d in c.removed :: d !in outside
  {
    ScopeRelated(unit, insts, outside, unknown, v0, w0, RelatedUpTo(unit, insts, outside, unknown, v0, w0));
    ScopeAccounted(insts, outside);
    UnknownShrinks(insts, unknown, |insts|);
    assert insts[..|insts|] == insts;
  }
}
