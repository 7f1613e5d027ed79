/** Facts only grow: more facts in, more facts out, and each visit to a block adds to its exit. */
module PropagationOrder {
  import opened Isa
  import opened Ptx
  import opened Cfg
  import opened Dataflow
  import opened ConstantPropagation

  /** All that `c` claims is claimed by `d`. */
  predicate Within(c: Constants, d: Constants) { forall r | r in c :: Has(d, r, c[r]) }

  predicate ExitsWithin(e: Exits, f: Exits) { e.Keys == f.Keys && forall b | b in e :: Within(e[b], f[b]) }

  lemma ExitsTransitive(e: Exits, f: Exits, g: Exits)
    requires ExitsWithin(e, f) && ExitsWithin(f, g)
    ensures ExitsWithin(e, g)
  {
    forall b | b in e
      ensures Within(e[b], g[b])
    {
      assert Within(e[b], f[b]) && Within(f[b], g[b]);
    }
  }

  /* ---------- along a block ---------- */

  lemma ResolveGrows(o: Operand, t: Ty, c: Constants, d: Constants)
    requires Within(c, d)
    ensures Resolve(o, t, c).Some? ==> Resolve(o, t, d) == Resolve(o, t, c)
  {
    if o.RegOp? && o.reg in c {
      assert Has(d, o.reg, c[o.reg]);
    }
  }

  /** A result that fewer facts determine is determined by more. */
  lemma FoldGrows(i: Instr, c: Constants, d: Constants)
    requires Within(c, d)
    ensures Fold(i, c).1.Some? ==> Fold(i, d).1 == Fold(i, c).1
  {
    if Fold(i, c).1.Some? {
      var sources := i.operands[1..];
      var known, more := ResolveAll(sources, i.ty, c), ResolveAll(sources, i.ty, d);
      forall k | 0 <= k < |sources|
        ensures known[k].Some? ==> more[k] == known[k]
      {
        ResolveGrows(sources[k], i.ty, c, d);
      }
      assert forall k | 0 <= k < |known| :: known[k].Some?;
      assert more == known;
    }
  }

  lemma UpdateGrows(i: Instr, c: Constants, d: Constants)
    requires Within(c, d)
    ensures Within(Update(i, c), Update(i, d))
  {
    FoldGrows(i, c, d);
    forall r | r in Update(i, c)
      ensures Has(Update(i, d), r, Update(i, c)[r])
    {
      assert r in c ==> Has(d, r, c[r]);
    }
  }

  lemma TransferGrows(item: Item, c: Constants, d: Constants)
    requires Within(c, d)
    ensures Within(Transfer(item, c), Transfer(item, d))
  {
    if item.Code? {
      UpdateGrows(item.inst, c, d);
    }
  }

  ghost predicate Monotone(flow: Flow) {
    forall k: nat, c: Constants, d: Constants {:trigger flow(k, c), flow(k, d)} | Within(c, d) :: Within(flow(k, c), flow(k, d))
  }

  lemma {:induction false} RangeGrows(flow: Flow, a: nat, b: nat, c: Constants, d: Constants)
    requires Monotone(flow) && Within(c, d)
    ensures Within(TransferRange(flow, a, b, c), TransferRange(flow, a, b, d))
    decreases b
  {
    if a < b {
      RangeGrows(flow, a, b - 1, c, d);
    }
  }

  lemma FlowMonotone(p: Program)
    ensures Monotone(FlowOf(p))
  {
    forall k: nat, c: Constants, d: Constants | Within(c, d)
      ensures Within(FlowOf(p)(k, c), FlowOf(p)(k, d))
    {
      if k < |p| {
        TransferGrows(p[k], c, d);
      }
    }
  }

  /* ---------- between blocks ---------- */

  lemma EntryGrows(preds: Preds, e: Exits, f: Exits, b: nat)
    requires ExitsWithin(e, f)
    ensures Within(EntryFacts(preds, e, b), EntryFacts(preds, f, b))
  {
    var c, d := EntryFacts(preds, e, b), EntryFacts(preds, f, b);
    var from := PredecessorsWithFacts(preds, e, b);
    assert from == PredecessorsWithFacts(preds, f, b);
    if from != {} {
      forall r | r in c
        ensures Has(d, r, c[r])
      {
        assert Has(c, r, c[r]);
        assert AllHave(e, from, r, c[r]);
        forall q | q in from
          ensures Has(f[q], r, c[r])
        {
          assert Has(e[q], r, c[r]) && Within(e[q], f[q]);
        }
        assert AllHave(f, from, r, c[r]);
      }
    }
  }

  /** What a visit would store for the block starting at item `b`. */
  ghost function NextExit(p: Program, preds: Preds, exits: Exits, b: nat): Constants
    requires b < |p|
  {
    TransferRange(FlowOf(p), b, BlockEnd(p, b), EntryFacts(preds, exits, b))
  }

  lemma NextExitGrows(p: Program, preds: Preds, e: Exits, f: Exits, b: nat)
    requires b < |p| && ExitsWithin(e, f)
    ensures Within(NextExit(p, preds, e, b), NextExit(p, preds, f, b))
  {
    EntryGrows(preds, e, f, b);
    FlowMonotone(p);
    RangeGrows(FlowOf(p), b, BlockEnd(p, b), EntryFacts(preds, e, b), EntryFacts(preds, f, b));
  }

  /** Every visit to come adds to the exit it replaces. */
  ghost predicate Growing(p: Program, preds: Preds, exits: Exits) {
    exits.Keys == Leaders(p) && forall b: nat | b < |p| && b in exits :: Within(exits[b], NextExit(p, preds, exits, b))
  }

  lemma VisitGrows(p: Program, preds: Preds, exits: Exits, b: nat)
    requires Growing(p, preds, exits)
    ensures ExitsWithin(exits, VisitBlock(p, preds, exits, b))
    ensures Growing(p, preds, VisitBlock(p, preds, exits, b))
  {
    var after := VisitBlock(p, preds, exits, b);
    if b < |p| && BlockStart(p, b) {
      assert b in Leaders(p);
      assert after == exits[b := NextExit(p, preds, exits, b)];
      assert ExitsWithin(exits, after);
      forall a: nat | a < |p| && a in after
        ensures Within(after[a], NextExit(p, preds, after, a))
      {
        NextExitGrows(p, preds, exits, after, a);
        assert Within(exits[a], NextExit(p, preds, exits, a));
      }
    }
  }

  /* ---------- between rounds ---------- */

  /** Every visit adds to the exits, whatever exits it meets. */
  ghost predicate Climbs(visit: (Exits, nat) -> Exits, met: Exits -> bool) {
    forall e: Exits, b: nat {:trigger visit(e, b)} | met(e) :: ExitsWithin(e, visit(e, b)) && met(visit(e, b))
  }

  lemma {:induction false} RoundGrows(visit: (Exits, nat) -> Exits, met: Exits -> bool, exits: Exits, j: nat, k: nat)
    requires Climbs(visit, met) && met(exits) && j <= k
    ensures met(Round(visit, exits, k)) && ExitsWithin(Round(visit, exits, j), Round(visit, exits, k))
    decreases k
  {
    if k > 0 {
      RoundGrows(visit, met, exits, if j < k then j else k - 1, k - 1);
      var before := Round(visit, exits, k - 1);
      assert Round(visit, exits, k) == visit(before, k - 1);
      if j < k {
        ExitsTransitive(Round(visit, exits, j), before, Round(visit, exits, k));
      }
    }
  }

  /** In the middle of a round the exits claim no more than after a later one. */
  lemma {:induction false} IterateGrows(visit: (Exits, nat) -> Exits, met: Exits -> bool, exits: Exits, size: nat,
                                        m: nat, k: nat, n: nat)
    requires Climbs(visit, met) && met(exits) && k <= size && (m < n || (m == n && k == 0))
    ensures met(Iterate(visit, exits, size, n))
    ensures ExitsWithin(Round(visit, Iterate(visit, exits, size, m), k), Iterate(visit, exits, size, n))
    decreases n
  {
    if n > 0 {
      var before := Iterate(visit, exits, size, n - 1);
      if m < n - 1 {
        IterateGrows(visit, met, exits, size, m, k, n - 1);
        RoundGrows(visit, met, before, 0, size);
        ExitsTransitive(Round(visit, Iterate(visit, exits, size, m), k), before, Iterate(visit, exits, size, n));
      } else {
        IterateGrows(visit, met, exits, size, n - 1, 0, n - 1);
        RoundGrows(visit, met, before, k, size);
      }
    }
  }

  lemma VisitsClimb(p: Program, preds: Preds, met: Exits -> bool)
    requires met == ((e: Exits) => Growing(p, preds, e))
    ensures Climbs(VisitOf(p, preds), met) && met(NoFacts(p))
  {
    var visit := VisitOf(p, preds);
    forall e: Exits, b: nat | met(e)
      ensures ExitsWithin(e, visit(e, b)) && met(visit(e, b))
    {
      VisitGrows(p, preds, e, b);
    }
  }

  /** The exits in the middle of round `m + 1`, or after round `m`, claim no more than those after `n` rounds. */
  lemma RoundsGrow(p: Program, preds: Preds, m: nat, k: nat, n: nat)
    requires k <= |p| && (m < n || (m == n && k == 0))
    ensures ExitsWithin(Round(VisitOf(p, preds), Rounds(p, preds, m), k), Rounds(p, preds, n))
  {
    var met := (e: Exits) => Growing(p, preds, e);
    VisitsClimb(p, preds, met);
    IterateGrows(VisitOf(p, preds), met, NoFacts(p), |p|, m, k, n);
  }
}
