/** Exactly which instructions of a scope are removed, and what the others read, said of positions in the scope. */
module LocalCseComplete {
  import opened Isa
  import opened Ptx
  import opened LocalCse

  /* ---------- which instructions take part ---------- */

  /** Pure, without guard and carry, with as many operands as its operation has, into a general-purpose register. */
  lemma KeyedExactly(i: Instr)
    ensures Keyed(i) <==>
              && i.guard.None? && i.base.Pure? && !i.cc
              && |i.operands| == (match i.base.op
                                  case Mov => 2 case Cvt => 2 case Mad => 4
                                  case Add => 3 case Sub => 3 case Mul => 3
                                  case And => 3 case Or => 3 case Xor => 3 case Shl => 3 case Shr => 3)
              && i.operands[0].RegOp? && !i.operands[0].reg.cls.PClass?
  {
  }

  predicate SameExpression(i: Instr, j: Instr) {
    && i.base == j.base && i.mods == j.mods && i.ty == j.ty && |i.operands| == |j.operands|
    && forall k | 1 <= k < |i.operands| :: i.operands[k] == j.operands[k]
  }

  lemma SameKey(i: Instr, j: Instr)
    requires Keyed(i) && Keyed(j)
    ensures KeyOf(i) == KeyOf(j) <==> SameExpression(i, j)
  {
    if SameExpression(i, j) {
      assert i.operands[1..] == j.operands[1..];
    }
    if KeyOf(i) == KeyOf(j) {
      forall k | 1 <= k < |i.operands|
        ensures i.operands[k] == j.operands[k]
      {
        assert i.operands[1..][k - 1] == j.operands[1..][k - 1];
      }
    }
  }

  /* ---------- positions in a scope ---------- */

  /** Instruction `k` as the pass has rewritten it. */
  function Current(insts: seq<Instr>, outside: set<Reg>, k: nat): (w: Instr)
    requires Straight(insts) && k < |insts|
    ensures Keyed(w) && Dest(w) == Dest(insts[k])
  {
    RewrittenKeyed(insts[k], CseOf(insts, outside, k).aliases);
    RewriteSources(insts[k], CseOf(insts, outside, k).aliases)
  }

  /** Nothing is emitted for instruction `k`. */
  predicate Gone(insts: seq<Instr>, outside: set<Reg>, k: nat)
    requires Straight(insts) && k < |insts|
  {
    CseOf(insts, outside, k + 1).optimized == CseOf(insts, outside, k).optimized
  }

  /** Instruction `k` stays and its result may replace later ones. */
  predicate Offers(insts: seq<Instr>, outside: set<Reg>, k: nat)
    requires Straight(insts) && k < |insts|
  {
    !Gone(insts, outside, k) && Dest(insts[k]) !in outside
  }

  /** Instruction `m` changes the result of instruction `j` or one of its operands, or offers the same expression. */
  predicate Disturbs(insts: seq<Instr>, outside: set<Reg>, j: nat, m: nat)
    requires Straight(insts) && j < |insts| && m < |insts|
  {
    || Dest(insts[m]) == Dest(insts[j])
    || UsesRegister(Sources(Current(insts, outside, j)), Dest(insts[m]))
    || (Offers(insts, outside, m) && KeyOf(Current(insts, outside, m)) == KeyOf(Current(insts, outside, j)))
  }

  /** Before instruction `n` the result of instruction `j` is still there. */
  predicate StillThere(insts: seq<Instr>, outside: set<Reg>, j: nat, n: nat)
    requires Straight(insts) && n <= |insts|
  {
    && j < n && Offers(insts, outside, j)
    && forall m | j < m < n :: !Disturbs(insts, outside, j, m)
  }

  /** Its result, of the expression `key`, is in `x`. */
  predicate Provides(insts: seq<Instr>, outside: set<Reg>, j: nat, n: nat, key: Key, x: Reg)
    requires Straight(insts) && n <= |insts|
  {
    StillThere(insts, outside, j, n) && KeyOf(Current(insts, outside, j)) == Some(key) && Dest(insts[j]) == x
  }

  /** What is recorded is what is still there, and no recorded result has an alias. */
  ghost predicate RecordsRight(insts: seq<Instr>, outside: set<Reg>, n: nat)
    requires Straight(insts) && n <= |insts|
  {
    var c := CseOf(insts, outside, n);
    && (forall key | key in c.exprs ::
          c.exprs[key] !in c.aliases && exists j: nat :: Provides(insts, outside, j, n, key, c.exprs[key]))
    && (forall key, j: nat, x | Provides(insts, outside, j, n, key, x) :: key in c.exprs && c.exprs[key] == x)
  }

  predicate Removes(left: Cse, w: Instr, outside: set<Reg>, future: seq<Instr>)
    requires Keyed(w) && Straight(future)
  {
    && Dest(w) !in outside && KeyOf(w).value in left.exprs
    && !ReadAfterRedefinition(Dest(w), left.exprs[KeyOf(w).value], future, false)
  }

  lemma PlaceEffect(c: Cse, w: Instr, outside: set<Reg>, future: seq<Instr>)
    requires Keyed(w) && Straight(future)
    requires KeyOf(w).value in c.exprs ==> c.exprs[KeyOf(w).value] !in c.aliases
    ensures
      var d, key, after := Dest(w), KeyOf(w).value, Place(c, w, outside, future);
      if Removes(c, w, outside, future) then
        after.optimized == c.optimized && after.exprs == c.exprs && after.aliases == c.aliases[d := c.exprs[key]]
      else
        && after.optimized == c.optimized + [w] && after.aliases == c.aliases
        && after.exprs == if d in outside then c.exprs else c.exprs[key := d]
  {
  }

  /** One instruction: whether it is emitted, and what it leaves recorded. */
  lemma AdvanceEffect(insts: seq<Instr>, outside: set<Reg>, k: nat)
    requires Straight(insts) && k < |insts| && RecordsRight(insts, outside, k)
    ensures
      var c, w := CseOf(insts, outside, k), Current(insts, outside, k);
      var d, key, left, after := Dest(w), KeyOf(w).value, Invalidate(c, Dest(w)), CseOf(insts, outside, k + 1);
      && (Gone(insts, outside, k) <==> Removes(left, w, outside, insts[k + 1..]))
      && after.exprs == (if Offers(insts, outside, k) then left.exprs[key := d] else left.exprs)
      && (if Gone(insts, outside, k) then
            key in left.exprs && after.aliases == left.aliases[d := left.exprs[key]] && after.optimized == c.optimized
          else after.aliases == left.aliases && after.optimized == c.optimized + [w])
  {
    hide Place;
    var c, w := CseOf(insts, outside, k), Current(insts, outside, k);
    assert c.optimized + [w] != c.optimized by {
      assert |c.optimized + [w]| == |c.optimized| + 1;
    }
    PlaceEffect(Invalidate(c, Dest(w)), w, outside, insts[k + 1..]);
    AdvanceIsPlace(insts, outside, k);
  }

  lemma AdvanceIsPlace(insts: seq<Instr>, outside: set<Reg>, k: nat)
    requires Straight(insts) && k < |insts|
    ensures
      var c, w := CseOf(insts, outside, k), Current(insts, outside, k);
      CseOf(insts, outside, k + 1) == Place(Invalidate(c, Dest(w)), w, outside, insts[k + 1..])
  {
    hide Place;
  }

  /** What was there before an instruction is there after it unless the instruction disturbs it. */
  lemma KeptThrough(insts: seq<Instr>, outside: set<Reg>, k: nat, key: Key, j: nat, x: Reg)
    requires Straight(insts) && k < |insts| && j < k
    ensures Provides(insts, outside, j, k + 1, key, x) <==>
              && Provides(insts, outside, j, k, key, x)
              && Dest(insts[k]) != x && !UsesRegister(key.sources, Dest(insts[k]))
              && !(Offers(insts, outside, k) && KeyOf(Current(insts, outside, k)) == Some(key))
  {
    hide CseOf, Current, Gone, Offers;
    if Offers(insts, outside, j) && KeyOf(Current(insts, outside, j)) == Some(key) && Dest(insts[j]) == x {
      assert Disturbs(insts, outside, j, k) <==>
               || Dest(insts[k]) == x || UsesRegister(key.sources, Dest(insts[k]))
               || (Offers(insts, outside, k) && KeyOf(Current(insts, outside, k)) == Some(key));
    }
  }

  lemma NewThere(insts: seq<Instr>, outside: set<Reg>, k: nat, key: Key, x: Reg)
    requires Straight(insts) && k < |insts|
    ensures Provides(insts, outside, k, k + 1, key, x) <==>
              Offers(insts, outside, k) && KeyOf(Current(insts, outside, k)) == Some(key) && Dest(insts[k]) == x
  {
  }

  lemma ThereBefore(insts: seq<Instr>, outside: set<Reg>, n: nat, key: Key, j: nat, x: Reg)
    requires Straight(insts) && n <= |insts| && Provides(insts, outside, j, n, key, x)
    ensures j < n
  {
  }

  lemma {:induction false} Recorded(insts: seq<Instr>, outside: set<Reg>, n: nat)
    requires Straight(insts) && n <= |insts|
    ensures RecordsRight(insts, outside, n)
  {
    if n > 0 {
      Recorded(insts, outside, n - 1);
      RecordedNext(insts, outside, n - 1);
    }
  }

  lemma RecordedNext(insts: seq<Instr>, outside: set<Reg>, k: nat)
    requires Straight(insts) && k < |insts| && RecordsRight(insts, outside, k)
    ensures RecordsRight(insts, outside, k + 1)
  {
    hide CseOf, Gone, Removes, Provides, UsesRegister, RewriteSources;
    var n := k + 1;
    var c, after := CseOf(insts, outside, k), CseOf(insts, outside, n);
    AdvanceEffect(insts, outside, k);
    forall key | key in after.exprs
      ensures after.exprs[key] !in after.aliases
      ensures exists j: nat :: Provides(insts, outside, j, n, key, after.exprs[key])
    {
      var x := after.exprs[key];
      NewThere(insts, outside, k, key, x);
      if Offers(insts, outside, k) && KeyOf(Current(insts, outside, k)) == Some(key) {
        assert Provides(insts, outside, k, n, key, x);
      } else {
        var j: nat :| Provides(insts, outside, j, k, key, x);
        ThereBefore(insts, outside, k, key, j, x);
        KeptThrough(insts, outside, k, key, j, x);
      }
    }
    forall key, j: nat, x | Provides(insts, outside, j, n, key, x)
      ensures key in after.exprs && after.exprs[key] == x
    {
      ThereBefore(insts, outside, n, key, j, x);
      if j < k {
        KeptThrough(insts, outside, k, key, j, x);
      } else {
        NewThere(insts, outside, k, key, x);
      }
    }
  }

  /* ---------- which instructions are removed ---------- */

  /** After position `k` register `t` is written and, there or later, `r` is read. */
  predicate ReadLater(insts: seq<Instr>, k: nat, r: Reg, t: Reg)
    requires Straight(insts)
  {
    exists m, n :: k < m <= n < |insts| && Dest(insts[m]) == t && Reads(insts[n], r)
  }

  predicate ReadAtOrAfter(insts: seq<Instr>, k: nat, r: Reg)
    requires Straight(insts)
  {
    exists n :: k <= n < |insts| && Reads(insts[n], r)
  }

  lemma {:induction false} ReadExactly(insts: seq<Instr>, k: nat, r: Reg, t: Reg, redefined: bool)
    requires Straight(insts) && k < |insts|
    ensures ReadAfterRedefinition(r, t, insts[k + 1..], redefined) <==>
              ReadLater(insts, k, r, t) || (redefined && ReadAtOrAfter(insts, k + 1, r))
    decreases |insts| - k
  {
    if k + 1 < |insts| {
      var now := redefined || Dest(insts[k + 1]) == t;
      assert insts[k + 1..][1..] == insts[k + 2..] && insts[k + 1..][0] == insts[k + 1];
      ReadExactly(insts, k + 1, r, t, now);
      LaterStep(insts, k, r, t);
    }
  }

  lemma LaterStep(insts: seq<Instr>, k: nat, r: Reg, t: Reg)
    requires Straight(insts) && k + 1 < |insts|
    ensures ReadLater(insts, k, r, t) <==>
              || (Dest(insts[k + 1]) == t && ReadAtOrAfter(insts, k + 1, r)) || ReadLater(insts, k + 1, r, t)
    ensures ReadAtOrAfter(insts, k + 1, r) <==> Reads(insts[k + 1], r) || ReadAtOrAfter(insts, k + 2, r)
  {
    hide Reads, Keyed;
    if ReadLater(insts, k, r, t) {
      var m, n :| k < m <= n < |insts| && Dest(insts[m]) == t && Reads(insts[n], r);
      assert m == k + 1 || k + 1 < m;
    }
    if ReadLater(insts, k + 1, r, t) {
      var m, n :| k + 1 < m <= n < |insts| && Dest(insts[m]) == t && Reads(insts[n], r);
    }
  }

  /** Instruction `j` has computed what `k` computes, and its result is there wherever the result of `k` is read. */
  predicate Replaces(insts: seq<Instr>, outside: set<Reg>, j: nat, k: nat)
    requires Straight(insts) && k < |insts|
  {
    && StillThere(insts, outside, j, k)
    && SameExpression(Current(insts, outside, j), Current(insts, outside, k))
    && Dest(insts[k]) != Dest(insts[j]) && !UsesRegister(Sources(Current(insts, outside, j)), Dest(insts[k]))
    && !ReadLater(insts, k, Dest(insts[k]), Dest(insts[j]))
  }

  lemma ProvidesSame(insts: seq<Instr>, outside: set<Reg>, j: nat, k: nat, x: Reg)
    requires Straight(insts) && k < |insts|
    ensures Provides(insts, outside, j, k, KeyOf(Current(insts, outside, k)).value, x) <==>
              StillThere(insts, outside, j, k) && SameExpression(Current(insts, outside, j), Current(insts, outside, k))
              && Dest(insts[j]) == x
  {
    hide Current, SameExpression;
    if StillThere(insts, outside, j, k) {
      SameKey(Current(insts, outside, j), Current(insts, outside, k));
    }
  }

  /** An instruction is removed exactly when it is not read outside and an earlier one replaces it. */
  lemma GoneExactly(insts: seq<Instr>, outside: set<Reg>, k: nat)
    requires Straight(insts) && k < |insts|
    ensures Gone(insts, outside, k) <==>
              Dest(insts[k]) !in outside && exists j: nat :: Replaces(insts, outside, j, k)
  {
    hide CseOf, Current, Gone, StillThere, SameExpression, Reads, Provides;
    var c, w := CseOf(insts, outside, k), Current(insts, outside, k);
    var d, key := Dest(w), KeyOf(w).value;
    Recorded(insts, outside, k);
    AdvanceEffect(insts, outside, k);
    if Gone(insts, outside, k) {
      var x := c.exprs[key];
      var j: nat :| Provides(insts, outside, j, k, key, x);
      ProvidesSame(insts, outside, j, k, x);
      SourcesOf(insts, outside, j, k);
      ReadExactly(insts, k, d, x, false);
      assert Replaces(insts, outside, j, k);
    }
    if j: nat :| d !in outside && Replaces(insts, outside, j, k) {
      SourcesOf(insts, outside, j, k);
      ProvidesSame(insts, outside, j, k, Dest(insts[j]));
      ReadExactly(insts, k, d, Dest(insts[j]), false);
    }
  }

  lemma SourcesOf(insts: seq<Instr>, outside: set<Reg>, j: nat, k: nat)
    requires Straight(insts) && k < |insts| && StillThere(insts, outside, j, k)
    requires SameExpression(Current(insts, outside, j), Current(insts, outside, k))
    ensures j < k && Sources(Current(insts, outside, j)) == KeyOf(Current(insts, outside, k)).value.sources
  {
    SameKey(Current(insts, outside, j), Current(insts, outside, k));
  }

  /* ---------- what is emitted ---------- */

  /** Instruction `m` was removed in favour of the result in `x`, and its destination has not been written since. */
  predicate StandsFor(insts: seq<Instr>, outside: set<Reg>, m: nat, n: nat, r: Reg, x: Reg)
    requires Straight(insts) && n <= |insts|
  {
    && m < n && Dest(insts[m]) == r && (forall q | m < q < n :: Dest(insts[q]) != r)
    && Gone(insts, outside, m) && exists j :: 0 <= j < m && Replaces(insts, outside, j, m) && Dest(insts[j]) == x
  }

  /** Aliases are the removed instructions whose destinations have not been written since. */
  ghost predicate AliasesRight(insts: seq<Instr>, outside: set<Reg>, n: nat)
    requires Straight(insts) && n <= |insts|
  {
    var aliases := CseOf(insts, outside, n).aliases;
    && (forall r | r in aliases :: exists m: nat :: StandsFor(insts, outside, m, n, r, aliases[r]))
    && (forall r, m: nat, x | StandsFor(insts, outside, m, n, r, x) :: r in aliases && aliases[r] == x)
  }

  /** The result that replaces a removed instruction. */
  lemma GoneInto(insts: seq<Instr>, outside: set<Reg>, k: nat, x: Reg)
    requires Straight(insts) && k < |insts| && Gone(insts, outside, k)
    ensures
      var aliases, d := CseOf(insts, outside, k + 1).aliases, Dest(insts[k]);
      d in aliases
      && (aliases[d] == x <==> exists j :: 0 <= j < k && Replaces(insts, outside, j, k) && Dest(insts[j]) == x)
  {
    hide CseOf, Current, Gone, StillThere, SameExpression, Reads, Provides;
    var c, w := CseOf(insts, outside, k), Current(insts, outside, k);
    var key := KeyOf(w).value;
    Recorded(insts, outside, k);
    AdvanceEffect(insts, outside, k);
    var t := c.exprs[key];
    var j: nat :| Provides(insts, outside, j, k, key, t);
    ProvidesSame(insts, outside, j, k, t);
    SourcesOf(insts, outside, j, k);
    ReadExactly(insts, k, Dest(w), t, false);
    assert Replaces(insts, outside, j, k);
    if i :| 0 <= i < k && Replaces(insts, outside, i, k) && Dest(insts[i]) == x {
      ProvidesSame(insts, outside, i, k, x);
    }
  }

  lemma StandsNext(insts: seq<Instr>, outside: set<Reg>, m: nat, k: nat, r: Reg, x: Reg)
    requires Straight(insts) && k < |insts| && m < k
    ensures StandsFor(insts, outside, m, k + 1, r, x) <==>
              StandsFor(insts, outside, m, k, r, x) && Dest(insts[k]) != r
  {
    hide Gone, Replaces;
  }

  lemma StandsNew(insts: seq<Instr>, outside: set<Reg>, k: nat, r: Reg, x: Reg)
    requires Straight(insts) && k < |insts|
    ensures StandsFor(insts, outside, k, k + 1, r, x) <==>
              Dest(insts[k]) == r && Gone(insts, outside, k) && CseOf(insts, outside, k + 1).aliases[r] == x
  {
    hide CseOf, Gone, Replaces;
    if Gone(insts, outside, k) {
      GoneInto(insts, outside, k, x);
    }
  }

  lemma {:induction false} AliasesRecorded(insts: seq<Instr>, outside: set<Reg>, n: nat)
    requires Straight(insts) && n <= |insts|
    ensures AliasesRight(insts, outside, n)
  {
    if n > 0 {
      AliasesRecorded(insts, outside, n - 1);
      AliasesNext(insts, outside, n - 1);
    }
  }

  lemma AliasesNext(insts: seq<Instr>, outside: set<Reg>, k: nat)
    requires Straight(insts) && k < |insts| && AliasesRight(insts, outside, k)
    ensures AliasesRight(insts, outside, k + 1)
  {
    hide CseOf, Current, Gone, StandsFor, RecordsRight, Removes;
    var n := k + 1;
    var c, after, d := CseOf(insts, outside, k), CseOf(insts, outside, n), Dest(insts[k]);
    Recorded(insts, outside, k);
    AdvanceEffect(insts, outside, k);
    forall r | r in after.aliases
      ensures exists m: nat :: StandsFor(insts, outside, m, n, r, after.aliases[r])
    {
      var x := after.aliases[r];
      if r == d {
        StandsNew(insts, outside, k, r, x);
        assert StandsFor(insts, outside, k, n, r, x);
      } else {
        var m: nat :| StandsFor(insts, outside, m, k, r, x);
        StandsBefore(insts, outside, m, k, r, x);
        StandsNext(insts, outside, m, k, r, x);
      }
    }
    forall r, m: nat, x | StandsFor(insts, outside, m, n, r, x)
      ensures r in after.aliases && after.aliases[r] == x
    {
      StandsBefore(insts, outside, m, n, r, x);
      if m < k {
        StandsNext(insts, outside, m, k, r, x);
      } else {
        StandsNew(insts, outside, k, r, x);
      }
    }
  }

  lemma StandsBefore(insts: seq<Instr>, outside: set<Reg>, m: nat, n: nat, r: Reg, x: Reg)
    requires Straight(insts) && n <= |insts| && StandsFor(insts, outside, m, n, r, x)
    ensures m < n && Dest(insts[m]) == r && Gone(insts, outside, m)
  {
  }

  /** What a register that instruction `k` reads becomes. */
  ghost predicate ReadsInstead(insts: seq<Instr>, outside: set<Reg>, k: nat, r: Reg, x: Reg)
    requires Straight(insts) && k < |insts|
  {
    if exists m: nat, t :: StandsFor(insts, outside, m, k, r, t) then exists m: nat :: StandsFor(insts, outside, m, k, r, x)
    else x == r
  }

  /** The target of an alias that is read has no alias. */
  lemma TargetStays(insts: seq<Instr>, outside: set<Reg>, k: nat, r: Reg, m: nat, x: Reg)
    requires Straight(insts) && k < |insts| && Reads(insts[k], r) && StandsFor(insts, outside, m, k, r, x)
    ensures x !in CseOf(insts, outside, k).aliases
  {
    hide CseOf, Gone, StandsFor, Replaces;
    var j := ReplacedBy(insts, outside, m, k, r, x);
    AliasesRecorded(insts, outside, k);
    if x in CseOf(insts, outside, k).aliases {
      var y := CseOf(insts, outside, k).aliases[x];
      var q: nat :| StandsFor(insts, outside, q, k, x, y);
      StandsBefore(insts, outside, q, k, x, y);
      if q < m {
        StandsEarlier(insts, outside, q, m, k, x, y);
        AliasesRecorded(insts, outside, m);
        UnaliasedTarget(insts, outside, j, m);
      }
      assert false;
    }
  }

  lemma ReplacedBy(insts: seq<Instr>, outside: set<Reg>, m: nat, k: nat, r: Reg, x: Reg) returns (j: nat)
    requires Straight(insts) && k < |insts| && Reads(insts[k], r) && StandsFor(insts, outside, m, k, r, x)
    ensures j < m < k && Replaces(insts, outside, j, m) && Dest(insts[j]) == x && Dest(insts[m]) != x
    ensures forall q | m < q < k :: Dest(insts[q]) != x
  {
    hide CseOf, Gone, StillThere, SameExpression, Reads;
    j :| 0 <= j < m && Replaces(insts, outside, j, m) && Dest(insts[j]) == x;
    assert !ReadLater(insts, m, r, x);
  }

  lemma StandsEarlier(insts: seq<Instr>, outside: set<Reg>, q: nat, m: nat, k: nat, x: Reg, y: Reg)
    requires Straight(insts) && q < m <= k <= |insts| && StandsFor(insts, outside, q, k, x, y)
    ensures StandsFor(insts, outside, q, m, x, y)
  {
    hide Gone, Replaces;
  }

  lemma UnaliasedTarget(insts: seq<Instr>, outside: set<Reg>, j: nat, m: nat)
    requires Straight(insts) && j < m < |insts| && Replaces(insts, outside, j, m)
    ensures Dest(insts[j]) !in CseOf(insts, outside, m).aliases
  {
    hide CseOf, Gone, Current;
    Recorded(insts, outside, m);
    ProvidesSame(insts, outside, j, m, Dest(insts[j]));
    var key := KeyOf(Current(insts, outside, m)).value;
    assert Provides(insts, outside, j, m, key, Dest(insts[j]));
  }

  /** Every instruction reads, in the place of a removed result that has not been written since, what replaces it. */
  lemma CurrentExactly(insts: seq<Instr>, outside: set<Reg>, k: nat, i: nat)
    requires Straight(insts) && k < |insts| && i < |insts[k].operands|
    ensures
      var before, after := insts[k], Current(insts, outside, k);
      && after == before.(operands := after.operands) && |after.operands| == |before.operands|
      && match before.operands[i]
         case RegOp(r) =>
           if i == 0 then after.operands[i] == RegOp(r)
           else after.operands[i].RegOp? && ReadsInstead(insts, outside, k, r, after.operands[i].reg)
         case Addr(r) => after.operands[i].Addr? && ReadsInstead(insts, outside, k, r, after.operands[i].reg)
         case o => after.operands[i] == o
  {
    hide CseOf, Gone, StandsFor;
    var o, aliases := insts[k].operands[i], CseOf(insts, outside, k).aliases;
    AliasesRecorded(insts, outside, k);
    if i > 0 && (o.RegOp? || o.Addr?) {
      var r := o.reg;
      assert Sources(insts[k])[i - 1] == o && Reads(insts[k], r);
      if r in aliases {
        var m: nat :| StandsFor(insts, outside, m, k, r, aliases[r]);
        TargetStays(insts, outside, k, r, m, aliases[r]);
        assert Resolve(r, aliases, {}) == aliases[r];
      }
    }
  }

  /** The instructions emitted: those that are not removed, rewritten, in order. */
  lemma EmittedExactly(insts: seq<Instr>, outside: set<Reg>, k: nat)
    requires Straight(insts) && k < |insts|
    ensures CseOf(insts, outside, 0).optimized == []
    ensures CseOf(insts, outside, k + 1).optimized ==
              CseOf(insts, outside, k).optimized
              + if exists j: nat :: Dest(insts[k]) !in outside && Replaces(insts, outside, j, k) then []
                else [Current(insts, outside, k)]
  {
    hide Current, Removes;
    Recorded(insts, outside, k);
    AdvanceEffect(insts, outside, k);
    GoneExactly(insts, outside, k);
  }
}
