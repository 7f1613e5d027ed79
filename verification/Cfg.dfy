/** The control-flow graph of a PTX program: its construction, and that every run follows its edges. */
module Cfg {
  import opened Isa
  import opened Ptx
  import opened Graphs

  predicate IsBra(p: Program, i: nat) { i < |p| && p[i].Code? && p[i].inst.base.Bra? }

  predicate IsRet(p: Program, i: nat) { i < |p| && p[i].Code? && p[i].inst.base.Ret? }

  /* ---------- blocks are named by the index of their first item ---------- */

  predicate Leader(p: Program, i: nat) {
    i == 0 || (i < |p| && (p[i].Label? || IsBra(p, i - 1) || IsRet(p, i - 1)))
  }

  /** A leader; quantifiers over blocks range over this predicate. */
  predicate BlockStart(p: Program, s: nat) { Leader(p, s) }

  function BlockEnd(p: Program, s: nat): (e: nat)
    requires s <= |p|
    ensures s <= e <= |p| && (s < |p| ==> s < e)
    decreases |p| - s
  {
    if s >= |p| then |p|
    else if s + 1 == |p| || Leader(p, s + 1) then s + 1
    else BlockEnd(p, s + 1)
  }

  lemma {:induction false} BlockEndFacts(p: Program, s: nat)
    requires s <= |p|
    ensures forall i: nat | s < i < BlockEnd(p, s) :: !Leader(p, i)
    ensures BlockEnd(p, s) < |p| ==> BlockStart(p, BlockEnd(p, s))
    decreases |p| - s
  {
    if s < |p| && !(s + 1 == |p| || Leader(p, s + 1)) {
      BlockEndFacts(p, s + 1);
    }
  }

  /** The block of an item. */
  ghost function BlockOf(p: Program, i: nat): (s: nat)
    requires i < |p|
    ensures s <= i && BlockStart(p, s)
  {
    if Leader(p, i) then i else BlockOf(p, i - 1)
  }

  lemma {:induction false} BlockOfFacts(p: Program, i: nat)
    requires i < |p|
    ensures i < BlockEnd(p, BlockOf(p, i))
    ensures forall k: nat | BlockOf(p, i) < k <= i :: !Leader(p, k)
  {
    BlockEndFacts(p, BlockOf(p, i));
    if !Leader(p, i) {
      BlockOfFacts(p, i - 1);
    }
  }

  lemma {:induction false} BlockOfStart(p: Program, s: nat, i: nat)
    requires BlockStart(p, s) && s <= i < BlockEnd(p, s) <= |p|
    ensures BlockOf(p, i) == s
  {
    BlockEndFacts(p, s);
    if i > s {
      BlockOfStart(p, s, i - 1);
    }
  }

  /* ---------- edges ---------- */

  /** The next block in program order. */
  function NextBlock(p: Program, s: nat): set<nat>
    requires s <= |p|
  {
    if BlockEnd(p, s) < |p| then {BlockEnd(p, s)} else {}
  }

  function BranchTarget(p: Program, i: nat): set<nat>
    requires IsBra(p, i)
  {
    match Target(p, p[i].inst)
    case None => {}
    case Some(t) => {t}
  }

  function Successors(p: Program, s: nat): set<nat>
    requires s <= |p|
  {
    var e := BlockEnd(p, s);
    if e > s && IsBra(p, e - 1) then
      BranchTarget(p, e - 1) + (if p[e - 1].inst.guard.Some? then NextBlock(p, s) else {})
    else if e > s && IsRet(p, e - 1) then {}
    else NextBlock(p, s)
  }

  function Leaders(p: Program): (l: set<nat>)
    ensures forall i: nat :: i in l <==> BlockStart(p, i)
  {
    {0} + set i: nat | i < |p| && BlockStart(p, i)
  }

  lemma LeaderBound(p: Program, s: nat)
    requires BlockStart(p, s)
    ensures s <= |p|
  {
  }

  function Inverse(l: set<nat>, succ: map<nat, set<nat>>): map<nat, set<nat>>
    requires succ.Keys == l
  {
    map s | s in l :: set t | t in l && s in succ[t]
  }

  /** The graph of a program. */
  function CfgOf(p: Program): Graph {
    var succ := map s | s in Leaders(p) :: SuccessorsAt(p, s);
    Graph(Leaders(p), 0, succ, Inverse(Leaders(p), succ))
  }

  function SuccessorsAt(p: Program, s: nat): set<nat> {
    if s <= |p| then Successors(p, s) else {}
  }

  /** Distinct labels, and every branch names exactly one existing label. */
  predicate WellFormed(p: Program) { UniqueLabels(p) && BranchesResolve(p) }

  predicate UniqueLabels(p: Program) {
    forall i, j | 0 <= i < j < |p| && p[i].Label? && p[j].Label? :: p[i].name != p[j].name
  }

  predicate BranchesResolve(p: Program) {
    forall i | 0 <= i < |p| && IsBra(p, i) :: Target(p, p[i].inst).Some?
  }

  /** The dictionary of labels. */
  ghost predicate LabelsOf(p: Program, labels: map<nat, nat>) {
    forall name: nat ::
      (name in labels <==> FindLabel(p, name).Some?)
      && (name in labels ==> FindLabel(p, name) == Some(labels[name]))
  }

  lemma SuccessorsAreBlocks(p: Program, s: nat, m: nat)
    requires s <= |p| && m in Successors(p, s)
    ensures BlockStart(p, m)
  {
    BlockEndFacts(p, s);
  }

  /** Edges with their inverse make a graph. */
  lemma InverseValid(l: set<nat>, succ: map<nat, set<nat>>)
    requires 0 in l && succ.Keys == l && forall s: nat, m: nat | s in l && m in succ[s] :: m in l
    ensures Valid(Graph(l, 0, succ, Inverse(l, succ)))
  {
  }

  lemma CfgValid(p: Program)
    ensures Valid(CfgOf(p))
    ensures forall s: nat, m: nat :: Edge(CfgOf(p), s, m) <==> BlockStart(p, s) && m in SuccessorsAt(p, s)
  {
    var succ := CfgOf(p).succ;
    forall s: nat, m: nat | s in Leaders(p) && m in succ[s]
      ensures m in Leaders(p)
    {
      LeaderBound(p, s);
      SuccessorsAreBlocks(p, s, m);
    }
    InverseValid(Leaders(p), succ);
  }

  /* ---------- runs follow edges ---------- */

  /** Where an instruction can lead. */
  lemma StepGoes(unit: Unit, p: Program, pc: nat, s: State)
    requires pc < |p| && Step(unit, p, pc, s).At?
    ensures
      var next := Step(unit, p, pc, s).pc;
      && !IsRet(p, pc) && (!IsBra(p, pc) ==> next == pc + 1)
      && (IsBra(p, pc) ==>
            || Target(p, p[pc].inst) == Some(next)
            || (Target(p, p[pc].inst).Some? && p[pc].inst.guard.Some? && next == pc + 1))
  {
  }

  /** Inside a block control goes to the next item; at its end it follows an edge or leaves the program. */
  lemma StepFollowsEdges(unit: Unit, p: Program, pc: nat, s: State)
    requires pc < |p| && Step(unit, p, pc, s).At?
    ensures
      var next, b := Step(unit, p, pc, s).pc, BlockOf(p, pc);
      if pc + 1 < BlockEnd(p, b) then next == pc + 1 && BlockOf(p, next) == b
      else next in Successors(p, b) || next == |p|
  {
    hide Step, Target;
    StepGoes(unit, p, pc, s);
    var b := BlockOf(p, pc);
    BlockOfFacts(p, pc);
    BlockEndFacts(p, b);
    if pc + 1 < BlockEnd(p, b) {
      assert !Leader(p, pc + 1);
      BlockOfStart(p, b, pc + 1);
    }
  }

  function LastItem(p: Program, s: nat): nat
    requires s < |p|
  {
    BlockEnd(p, s) - 1
  }

  predicate StepsTo(unit: Unit, p: Program, pc: nat, s: State, m: nat) {
    Step(unit, p, pc, s).At? && Step(unit, p, pc, s).pc == m
  }

  /** Both edges of a conditional branch, and the edge of an unconditional one, are taken by some run. */
  lemma BranchEdgesTaken(unit: Unit, p: Program, b: nat, m: nat)
    requires BlockStart(p, b) && b < |p| && IsBra(p, LastItem(p, b)) && Target(p, p[LastItem(p, b)].inst).Some?
    requires m in Successors(p, b)
    ensures exists s: State :: StepsTo(unit, p, LastItem(p, b), s, m)
  {
    var pc := LastItem(p, b);
    var i := p[pc].inst;
    var on := State(if i.guard.Some? then map[i.guard.value := 1] else map[], 0, map[], []);
    var off := State(map[], 0, map[], []);
    assert i.guard.Some? ==> GuardPasses(i, on) != GuardPasses(i, off);
    assert Step(unit, p, pc, on).At? && Step(unit, p, pc, off).At?;
    assert StepsTo(unit, p, pc, on, m) || StepsTo(unit, p, pc, off, m);
  }

  /* ---------- construction ---------- */

  method CollectLabels(p: Program) returns (labels: Option<map<nat, nat>>)
    ensures labels.Some? <==> UniqueLabels(p)
    ensures labels.Some? ==> LabelsOf(p, labels.value)
  {
    var found: map<nat, nat> := map[];
    for k := 0 to |p|
      invariant forall i, j | 0 <= i < j < k && p[i].Label? && p[j].Label? :: p[i].name != p[j].name
      invariant forall name | name in found :: found[name] < k && p[found[name]] == Label(name)
      invariant forall i | 0 <= i < k && p[i].Label? :: p[i].name in found && found[p[i].name] == i
    {
      if p[k].Label? {
        if p[k].name in found {
          return None;
        }
        found := found[p[k].name := k];
      }
    }
    forall name: nat
      ensures (name in found <==> FindLabel(p, name).Some?)
      ensures (name in found ==> FindLabel(p, name) == Some(found[name]))
    {
    }
    labels := Some(found);
  }

  method FindLeaders(p: Program, labels: map<nat, nat>) returns (leaders: Option<set<nat>>)
    requires LabelsOf(p, labels)
    ensures leaders.Some? <==> BranchesResolve(p)
    ensures leaders.Some? ==> leaders.value == Leaders(p)
    ensures leaders.Some? ==> forall i: nat ::
              i in leaders.value <==>
                || i == 0 || (i < |p| && p[i].Label?)
                || (i < |p| && p[i - 1].Code? && (p[i - 1].inst.base == Bra || p[i - 1].inst.base == Ret))
  {
    var found: set<nat> := {0};
    for k := 0 to |p|
      invariant forall i | 0 <= i < k && IsBra(p, i) :: Target(p, p[i].inst).Some?
      invariant 0 in found && forall i: nat | i in found :: Leader(p, i)
      invariant forall i: nat | i < |p| && Leader(p, i) && (i < k || (i == k && !p[k].Label?)) :: i in found
    {
      if p[k].Label? {
        found := found + {k};
      } else if p[k].inst.base.Bra? {
        var i := p[k].inst;
        if |i.operands| != 1 || !i.operands[0].Sym? || i.operands[0].name !in labels {
          assert IsBra(p, k) && Target(p, i).None?;
          return None;
        }
        found := found + {labels[i.operands[0].name]};
        if k + 1 < |p| {
          found := found + {k + 1};
        }
      } else if p[k].inst.base.Ret? && k + 1 < |p| {
        found := found + {k + 1};
      }
    }
    forall i: nat
      ensures i in found <==> i in Leaders(p)
    {
      assert i in Leaders(p) <==> Leader(p, i);
    }
    assert found == Leaders(p);
    leaders := Some(found);
  }

  method EdgesFrom(p: Program, labels: map<nat, nat>, s: nat) returns (edges: set<nat>)
    requires WellFormed(p) && s <= |p|
    requires LabelsOf(p, labels)
    ensures edges == SuccessorsAt(p, s)
  {
    var e := BlockEnd(p, s);
    var next := if e < |p| then {e} else {};
    if e > s && IsBra(p, e - 1) {
      edges := {labels[p[e - 1].inst.operands[0].name]};
      if p[e - 1].inst.guard.Some? {
        edges := edges + next;
      }
    } else if e > s && IsRet(p, e - 1) {
      edges := {};
    } else {
      edges := next;
    }
  }

  method ConnectEdges(p: Program, labels: map<nat, nat>, leaders: set<nat>) returns (succ: map<nat, set<nat>>)
    requires WellFormed(p) && leaders == Leaders(p)
    requires LabelsOf(p, labels)
    ensures succ.Keys == leaders && forall s | s in succ :: succ[s] == SuccessorsAt(p, s)
  {
    succ := map[];
    var todo := leaders;
    while todo != {}
      invariant todo <= leaders
      invariant succ.Keys == leaders - todo
      invariant forall s | s in succ :: succ[s] == SuccessorsAt(p, s)
      decreases todo
    {
      var s :| s in todo;
      todo := todo - {s};
      LeaderBound(p, s);
      var edges := EdgesFrom(p, labels, s);
      succ := succ[s := edges];
    }
  }

  /** `None` is the error for a duplicate label, a malformed branch or an undefined target. */
  method BuildCfg(p: Program) returns (g: Option<Graph>)
    ensures g == if WellFormed(p) then Some(CfgOf(p)) else None
  {
    var labels := CollectLabels(p);
    if labels.None? {
      return None;
    }
    var leaders := FindLeaders(p, labels.value);
    if leaders.None? {
      return None;
    }
    var succ := ConnectEdges(p, labels.value, leaders.value);
    assert succ == map s | s in leaders.value :: SuccessorsAt(p, s);
    g := Some(Graph(leaders.value, 0, succ, Inverse(leaders.value, succ)));
  }
}
