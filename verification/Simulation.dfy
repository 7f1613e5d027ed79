/** Two machines that keep reaching related outcomes end alike. */
module Simulation {
  import opened Isa
  import opened Ptx

  type Relation = (Outcome, Outcome) -> bool

  ghost predicate Rejoined(step: Stepper, other: Stepper, related: Relation, o: Outcome, u: Outcome, m: nat, k: nat) {
    m > 0 && k > 0 && related(Run(step, o, m), Run(other, u, k))
  }

  ghost predicate KeepsRejoining(step: Stepper, other: Stepper, related: Relation) {
    forall o: Outcome, u: Outcome | o.At? && related(o, u) ::
      exists m: nat, k: nat :: Rejoined(step, other, related, o, u, m, k)
  }

  /** A run ends with this memory and this sequence of loads, stores, branches and predicates. */
  ghost predicate Ends(step: Stepper, o: Outcome, mem: Memory, trace: seq<Event>) {
    exists n: nat :: EndsAfter(step, o, mem, trace, n)
  }

  ghost predicate EndsAfter(step: Stepper, o: Outcome, mem: Memory, trace: seq<Event>, n: nat) {
    Run(step, o, n).Stop? && Run(step, o, n).final.mem == mem && Run(step, o, n).final.trace == trace
  }

  /** Related outcomes are both running, both stuck, or ended with the same observations. */
  ghost predicate Observes(related: Relation) {
    forall o: Outcome, u: Outcome | related(o, u) ::
      && o.At? == u.At? && o.Stop? == u.Stop?
      && (o.Stop? ==> o.final.mem == u.final.mem && o.final.trace == u.final.trace)
  }

  /** A run that has ended by step `k` is the same at step `m`. */
  lemma StoppedStays(step: Stepper, o: Outcome, k: nat, m: nat)
    requires k <= m
    ensures !Run(step, o, k).At? ==> Run(step, o, m) == Run(step, o, k)
  {
    RunAppend(step, o, k, m - k);
  }

  /** Related runs meet again, however far one looks. */
  lemma {:induction false} RunsRelated(step: Stepper, other: Stepper, related: Relation, o: Outcome, u: Outcome, n: nat)
    returns (m: nat, k: nat)
    requires KeepsRejoining(step, other, related) && Observes(related) && related(o, u)
    ensures m >= n && k >= n && related(Run(step, o, m), Run(other, u, k))
    decreases n
  {
    if n == 0 || !o.At? {
      m, k := n, n;
    } else {
      var m0: nat, k0: nat :| Rejoined(step, other, related, o, u, m0, k0);
      m, k := RunsRelated(step, other, related, Run(step, o, m0), Run(other, u, k0), n - 1);
      RunAppend(step, o, m0, m);
      RunAppend(other, u, k0, k);
      m, k := m0 + m, k0 + k;
    }
  }

  /** Related machines end alike, in both directions. */
  lemma EndAlike(step: Stepper, other: Stepper, related: Relation, o: Outcome, u: Outcome, mem: Memory,
                 trace: seq<Event>)
    requires KeepsRejoining(step, other, related) && Observes(related) && related(o, u)
    ensures Ends(step, o, mem, trace) <==> Ends(other, u, mem, trace)
  {
    if n: nat :| EndsAfter(step, o, mem, trace, n) {
      var m, k := RunsRelated(step, other, related, o, u, n);
      StoppedStays(step, o, n, m);
      assert EndsAfter(other, u, mem, trace, k);
    }
    if n: nat :| EndsAfter(other, u, mem, trace, n) {
      var m, k := RunsRelated(step, other, related, o, u, n);
      StoppedStays(other, u, n, k);
      assert EndsAfter(step, o, mem, trace, m);
    }
  }
}
