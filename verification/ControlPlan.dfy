/** Which forward branches become guards of the instructions they skip. */
module ControlPlan {
  import opened Isa
  import M = Machine
  import opened ScheduleMeaning
  import opened Ptx
  import opened Cfg
  import G = Graphs
  import opened Uniformity
  import opened IfConversion

  /* ---------- control that stays uniform ---------- */

  /** `_instruction_uses`, as far as registers go. */
  function UsesOf(item: Item): set<Reg> {
    if item.Label? then {}
    else
      var i := item.inst;
      if (i.base.Ld? || i.base.Pure? || i.base.Fma? || i.base.Setp?) && i.operands != [] then AllRegs(i.operands[1..])
      else if i.base.St? then AllRegs(i.operands)
      else if i.base.Bra? && i.guard.Some? then {i.guard.value}
      else {}
  }

  /** The items of a region that define `r`. */
  function DefinitionsIn(p: Program, region: set<nat>, r: Reg): set<nat> {
    set d | d in region && d < |p| && p[d].Code? && Written(p[d].inst) == Some(r)
  }

  /** Item `d` of the region defines something that item `i` uses. */
  ghost predicate Feeds(p: Program, region: set<nat>, d: nat, i: nat) {
    i < |p| && exists r :: r in UsesOf(p[i]) && d in DefinitionsIn(p, region, r)
  }

  ghost predicate SliceClosed(p: Program, region: set<nat>, from: set<nat>, control: set<nat>) {
    forall i, d | i in from && Feeds(p, region, d, i) :: d in control
  }

  /** The loop branches of a region with everything in it they are computed from. */
  ghost predicate IsUniformControl(p: Program, region: set<nat>, back: set<nat>, control: set<nat>) {
    && region * back <= control <= region && SliceClosed(p, region, control, control)
    && forall other: set<nat> | region * back <= other && SliceClosed(p, region, other, other) :: control <= other
  }

  lemma UniformControlUnique(p: Program, region: set<nat>, back: set<nat>, a: set<nat>, b: set<nat>)
    requires IsUniformControl(p, region, back, a) && IsUniformControl(p, region, back, b)
    ensures a == b
  {
  }

  /** What `_collect_uniform_slice` adds to a slice. */
  ghost predicate Extends(p: Program, region: set<nat>, before: set<nat>, after: set<nat>) {
    before <= after <= region && SliceClosed(p, region, after - before, after)
  }

  ghost predicate InEverySlice(p: Program, region: set<nat>, start: set<nat>, after: set<nat>) {
    forall other: set<nat> | start <= other && SliceClosed(p, region, other, other) :: after <= other
  }

  method CollectUniformSlice(p: Program, region: set<nat>, index: nat, control0: set<nat>) returns (control: set<nat>)
    requires index in region && control0 <= region && forall i | i in region :: i < |p|
    ensures Extends(p, region, control0, control) && index in control
    ensures InEverySlice(p, region, control0 + {index}, control)
    decreases region - control0
  {
    if index in control0 {
      return control0;
    }
    control := control0 + {index};
    var uses, done := UsesOf(p[index]), {};
    while uses != {}
      invariant uses + done == UsesOf(p[index])
      invariant control0 + {index} <= control <= region
      invariant SliceClosed(p, region, control - control0 - {index}, control)
      invariant forall r | r in done :: DefinitionsIn(p, region, r) <= control
      invariant InEverySlice(p, region, control0 + {index}, control)
      decreases uses
    {
      var r :| r in uses;
      uses := uses - {r};
      control := CollectDefinitions(p, region, index, r, control0, control);
      done := done + {r};
    }
  }

  /** The slices of all definitions of `r`. */
  method CollectDefinitions(p: Program, region: set<nat>, index: nat, r: Reg, ghost control0: set<nat>,
                            before: set<nat>)
    returns (control: set<nat>)
    requires index in region && index !in control0 && forall i | i in region :: i < |p|
    requires r in UsesOf(p[index]) && control0 + {index} <= before <= region
    requires SliceClosed(p, region, before - control0 - {index}, before)
    requires InEverySlice(p, region, control0 + {index}, before)
    ensures before <= control <= region
    ensures SliceClosed(p, region, control - control0 - {index}, control)
    ensures DefinitionsIn(p, region, r) <= control
    ensures InEverySlice(p, region, control0 + {index}, control)
    decreases region - control0, 0
  {
    control := before;
    var todo := DefinitionsIn(p, region, r);
    while todo != {}
      invariant todo <= DefinitionsIn(p, region, r)
      invariant before <= control <= region
      invariant SliceClosed(p, region, control - control0 - {index}, control)
      invariant DefinitionsIn(p, region, r) - todo <= control
      invariant InEverySlice(p, region, control0 + {index}, control)
      decreases todo
    {
      var d :| d in todo;
      todo := todo - {d};
      assert Feeds(p, region, d, index);
      var more := CollectUniformSlice(p, region, d, control);
      forall other: set<nat> | control0 + {index} <= other && SliceClosed(p, region, other, other)
        ensures more <= other
      {
        assert control <= other && d in other;
      }
      control := more;
    }
  }

  /** `_uniform_control_indices` */
  method UniformControl(p: Program, region: set<nat>, back: set<nat>) returns (control: set<nat>)
    requires forall i | i in region :: i < |p|
    ensures IsUniformControl(p, region, back, control)
  {
    control := {};
    var todo, done := region * back, {};
    while todo != {}
      invariant todo + done == region * back
      invariant done <= control <= region && SliceClosed(p, region, control, control)
      invariant InEverySlice(p, region, done, control)
      decreases todo
    {
      var b :| b in todo;
      todo := todo - {b};
      var more := CollectUniformSlice(p, region, b, control);
      forall other: set<nat> | done + {b} <= other && SliceClosed(p, region, other, other)
        ensures more <= other
      {
        assert control <= other && b in other;
      }
      control := more;
      done := done + {b};
    }
    assert done == region * back;
  }

  /* ---------- one forward branch ---------- */

  /** The instructions between a branch and its target. */
  function Region(p: Program, branch: nat, target: nat): set<nat> {
    set i | branch < i < target && i < |p| && p[i].Code?
  }

  predicate IsGuardedBranch(p: Program, b: nat) { IsBra(p, b) && p[b].inst.guard.Some? }

  predicate IsForward(p: Program, b: nat) {
    IsGuardedBranch(p, b) && Target(p, p[b].inst).Some? && Target(p, p[b].inst).value > b
  }

  function RegionOf(p: Program, b: nat): set<nat>
    requires IsForward(p, b)
  {
    Region(p, b, Target(p, p[b].inst).value)
  }

  /** The guard under which the region of a branch runs: that the branch is not taken. */
  function SkipGuard(p: Program, b: nat): Option<Guard>
    requires IsGuardedBranch(p, b)
  {
    match PredicateNumber(p[b].inst.guard.value)
    case None => None
    case Some(n) => Some(Guard(n, !p[b].inst.negated))
  }

  /** It has the number of the predicate of the branch, below 8, and the other sense. */
  lemma SkipGuardExactly(p: Program, b: nat, g: Guard)
    requires IsGuardedBranch(p, b)
    ensures
      var r := p[b].inst.guard.value;
      && (SkipGuard(p, b).None? <==> !r.cls.PClass? || r.id >= 8)
      && (SkipGuard(p, b) == Some(g) <==> r == Reg(PClass, g.predicate_) && r.id < 8 && g.negated != p[b].inst.negated)
  {
  }

  type Guards = map<nat, Guard>

  /** The region is not empty, branches only as uniform control, and has no other guard yet. */
  predicate Convertible(p: Program, b: nat, control: set<nat>) {
    IsForward(p, b) && RegionOf(p, b) != {}
    && forall i | i in RegionOf(p, b) :: IsBra(p, i) ==> i in control
  }

  predicate Agrees(guards: Guards, region: set<nat>, control: set<nat>, g: Guard) {
    forall i | i in region && i !in control && i in guards :: guards[i] == g
  }

  function Assign(guards: Guards, region: set<nat>, control: set<nat>, g: Guard): Guards {
    guards + map i | i in region - control :: g
  }

  datatype Plan = Plan(skip: set<nat>, guards: Guards)

  /** The plan after trying a branch, and whether it was converted; `None` is the error for its predicate. */
  ghost predicate Tried(p: Program, b: nat, back: set<nat>, before: Plan, after: Plan, converted: Option<bool>) {
    exists control: set<nat> :: IsForward(p, b) && IsUniformControl(p, RegionOf(p, b), back, control)
                             && TriedWith(p, b, control, before, after, converted)
  }

  ghost predicate TriedWith(p: Program, b: nat, control: set<nat>, before: Plan, after: Plan, converted: Option<bool>)
    requires IsForward(p, b)
  {
    if !Convertible(p, b, control) then after == before && converted == Some(false)
    else
      match SkipGuard(p, b)
      case None => after == before && converted == None
      case Some(g) =>
        if Agrees(before.guards, RegionOf(p, b), control, g) then
          after == Plan(before.skip + {b}, Assign(before.guards, RegionOf(p, b), control, g)) && converted == Some(true)
        else after == before && converted == Some(false)
  }

  /* ---------- what a plan promises ---------- */

  /** The region of a skipped branch runs under its negated guard, but for the uniform control inside it. */
  ghost predicate RegionGuarded(p: Program, back: set<nat>, plan: Plan, b: nat) {
    && IsForward(p, b) && SkipGuard(p, b).Some?
    && forall control: set<nat>, i: nat |
         IsUniformControl(p, RegionOf(p, b), back, control) && i in RegionOf(p, b) && i !in control ::
         i in plan.guards && plan.guards[i] == SkipGuard(p, b).value && !IsBra(p, i)
  }

  /** Every guard comes from a skipped branch, and every skipped branch has guarded its whole region. */
  ghost predicate PlanSound(p: Program, back: set<nat>, plan: Plan) {
    && (forall b | b in plan.skip :: RegionGuarded(p, back, plan, b))
    && (forall i | i in plan.guards :: exists b :: b in plan.skip && GuardFrom(p, plan, b, i))
  }

  ghost predicate GuardFrom(p: Program, plan: Plan, b: nat, i: nat)
    requires i in plan.guards
  {
    IsForward(p, b) && i in RegionOf(p, b) && SkipGuard(p, b) == Some(plan.guards[i])
  }

  /** The branch is converted with this uniform control. */
  ghost predicate Converts(p: Program, b: nat, back: set<nat>, control: set<nat>, before: Plan, after: Plan) {
    && IsForward(p, b) && IsUniformControl(p, RegionOf(p, b), back, control) && Convertible(p, b, control)
    && SkipGuard(p, b).Some? && Agrees(before.guards, RegionOf(p, b), control, SkipGuard(p, b).value)
    && after == Plan(before.skip + {b}, Assign(before.guards, RegionOf(p, b), control, SkipGuard(p, b).value))
  }

  lemma EarlierGuarded(p: Program, back: set<nat>, before: Plan, after: Plan, b: nat, control: set<nat>, c: nat)
    requires PlanSound(p, back, before) && c in after.skip && Converts(p, b, back, control, before, after)
    ensures RegionGuarded(p, back, after, c)
  {
    assert c in before.skip ==> RegionGuarded(p, back, before, c);
    assert c == b || IsForward(p, c);
    forall other: set<nat>, i: nat |
        IsUniformControl(p, RegionOf(p, c), back, other) && i in RegionOf(p, c) && i !in other
      ensures i in after.guards && after.guards[i] == SkipGuard(p, c).value && !IsBra(p, i)
    {
      if c in before.skip {
        assert i in before.guards && before.guards[i] == SkipGuard(p, c).value;
      } else {
        UniformControlUnique(p, RegionOf(p, b), back, control, other);
      }
    }
  }

  lemma GuardsAccounted(p: Program, back: set<nat>, before: Plan, after: Plan, b: nat, control: set<nat>, i: nat)
    requires PlanSound(p, back, before) && i in after.guards && Converts(p, b, back, control, before, after)
    ensures exists c :: c in after.skip && GuardFrom(p, after, c, i)
  {
    if i in RegionOf(p, b) && i !in control {
      assert GuardFrom(p, after, b, i);
    } else {
      var c :| c in before.skip && GuardFrom(p, before, c, i);
      assert GuardFrom(p, after, c, i);
    }
  }

  lemma ConvertedKeepsSound(p: Program, b: nat, back: set<nat>, control: set<nat>, before: Plan, after: Plan)
    requires PlanSound(p, back, before) && Converts(p, b, back, control, before, after)
    ensures PlanSound(p, back, after)
  {
    forall c | c in after.skip
      ensures RegionGuarded(p, back, after, c)
    {
      EarlierGuarded(p, back, before, after, b, control, c);
    }
    forall i | i in after.guards
      ensures exists c :: c in after.skip && GuardFrom(p, after, c, i)
    {
      GuardsAccounted(p, back, before, after, b, control, i);
    }
  }

  /** Trying a branch keeps all that earlier branches were promised. */
  lemma TriedKeepsSound(p: Program, b: nat, back: set<nat>, before: Plan, after: Plan, converted: Option<bool>)
    requires PlanSound(p, back, before) && Tried(p, b, back, before, after, converted)
    ensures PlanSound(p, back, after) && (converted == Some(true) ==> b in after.skip)
    ensures before.skip <= after.skip
  {
    var control: set<nat> :| IsUniformControl(p, RegionOf(p, b), back, control)
                             && TriedWith(p, b, control, before, after, converted);
    if converted == Some(true) {
      ConvertedKeepsSound(p, b, back, control, before, after);
    }
  }

  /* ---------- which branches are converted ---------- */

  /** Why a branch is not converted, given the guards of a plan. */
  ghost predicate Refused(p: Program, b: nat, back: set<nat>, guards: Guards) {
    || !IsForward(p, b)
    || RegionOf(p, b) == {}
    || exists control: set<nat> :: IsUniformControl(p, RegionOf(p, b), back, control) && Obstructed(p, b, control, guards)
  }

  /** The region branches on its own, or is guarded otherwise, outside the control of its loops. */
  predicate Obstructed(p: Program, b: nat, control: set<nat>, guards: Guards)
    requires IsForward(p, b)
  {
    exists i :: i in RegionOf(p, b) && i !in control
                && (IsBra(p, i) || (i in guards && Some(guards[i]) != SkipGuard(p, b)))
  }

  /** The branch could be converted, but its predicate has no number. */
  ghost predicate Fails(p: Program, b: nat, back: set<nat>) {
    && IsForward(p, b) && RegionOf(p, b) != {} && SkipGuard(p, b).None?
    && exists control: set<nat> ::
         IsUniformControl(p, RegionOf(p, b), back, control) && forall i | i in RegionOf(p, b) && IsBra(p, i) :: i in control
  }

  predicate GuardsGrow(before: Guards, after: Guards) {
    forall i | i in before :: i in after && after[i] == before[i]
  }

  lemma GuardsGrowOn(a: Guards, b: Guards, c: Guards)
    requires GuardsGrow(a, b) && GuardsGrow(b, c)
    ensures GuardsGrow(a, c)
  {
  }

  /** A refusal stands when guards are added. */
  lemma RefusedStays(p: Program, b: nat, back: set<nat>, before: Guards, after: Guards)
    requires Refused(p, b, back, before) && GuardsGrow(before, after)
    ensures Refused(p, b, back, after)
  {
    if IsForward(p, b) && RegionOf(p, b) != {} {
      var control: set<nat> :| IsUniformControl(p, RegionOf(p, b), back, control) && Obstructed(p, b, control, before);
      assert Obstructed(p, b, control, after);
    }
  }

  /** A converted branch is not refused by the plan that it is part of, nor by a later one. */
  ghost predicate Holds(p: Program, b: nat, back: set<nat>, guards: Guards) {
    && IsForward(p, b) && RegionOf(p, b) != {}
    && forall control: set<nat>, i |
         IsUniformControl(p, RegionOf(p, b), back, control) && i in RegionOf(p, b) && i !in control ::
         !IsBra(p, i) && i in guards && Some(guards[i]) == SkipGuard(p, b)
  }

  lemma HoldsStays(p: Program, b: nat, back: set<nat>, before: Guards, after: Guards)
    requires Holds(p, b, back, before) && GuardsGrow(before, after)
    ensures Holds(p, b, back, after)
  {
  }

  lemma HoldsNotRefused(p: Program, b: nat, back: set<nat>, guards: Guards)
    requires Holds(p, b, back, guards)
    ensures !Refused(p, b, back, guards)
  {
  }

  /** Trying a branch converts it, or refuses it for one of the reasons, or fails; guards stay. */
  lemma TriedDecides(p: Program, b: nat, back: set<nat>, before: Plan, after: Plan, converted: Option<bool>)
    requires Tried(p, b, back, before, after, converted)
    ensures GuardsGrow(before.guards, after.guards)
    ensures converted == Some(true) ==> after.skip == before.skip + {b} && Holds(p, b, back, after.guards)
    ensures converted != Some(true) ==> after == before
    ensures converted == Some(false) ==> Refused(p, b, back, after.guards)
    ensures converted == None <==> Fails(p, b, back)
  {
    var region := RegionOf(p, b);
    var control: set<nat> :| IsUniformControl(p, region, back, control) && TriedWith(p, b, control, before, after, converted);
    forall other: set<nat> | IsUniformControl(p, region, back, other)
      ensures other == control
    {
      UniformControlUnique(p, region, back, control, other);
    }
    if region != {} && !Convertible(p, b, control) {
      var i :| i in region && IsBra(p, i) && i !in control;
      assert Obstructed(p, b, control, after.guards);
    } else if region != {} && SkipGuard(p, b).Some? && !Agrees(before.guards, region, control, SkipGuard(p, b).value) {
      assert Obstructed(p, b, control, after.guards);
    }
  }

  /* ---------- loop branches ---------- */

  /** Item `k` is the branch at the end of block `tail` that goes back to `header`. */
  predicate BranchesBack(p: Program, tail: nat, header: nat, k: nat) {
    tail < |p| && k == LastItem(p, tail) && IsBra(p, k) && Target(p, p[k].inst) == Some(header)
  }

  ghost predicate IsLoopBranch(p: Program, k: nat) {
    exists tail: nat, header: nat :: G.BackEdge(CfgOf(p), tail, header) && BranchesBack(p, tail, header, k)
  }

  /** `_loop_backedge_branch_items` */
  method LoopBranches(p: Program) returns (items: set<nat>)
    ensures forall k: nat :: k in items <==> IsLoopBranch(p, k)
  {
    CfgValid(p);
    var edges := G.BackEdges(CfgOf(p));
    items := {};
    var todo := edges;
    while todo != {}
      invariant todo <= edges
      invariant forall k: nat | k in items :: IsLoopBranch(p, k)
      invariant forall e: (nat, nat), k: nat | e in edges - todo && BranchesBack(p, e.0, e.1, k) :: k in items
      decreases todo
    {
      var e: (nat, nat) :| e in todo;
      todo := todo - {e};
      if e.0 < |p| && BranchesBack(p, e.0, e.1, LastItem(p, e.0)) {
        items := items + {LastItem(p, e.0)};
      }
    }
    forall k: nat | IsLoopBranch(p, k)
      ensures k in items
    {
      var tail: nat, header: nat :| G.BackEdge(CfgOf(p), tail, header) && BranchesBack(p, tail, header, k);
      assert (tail, header) in edges && BranchesBack(p, (tail, header).0, (tail, header).1, k);
    }
  }

  /* ---------- the plan ---------- */

  class Planner {
    var skipItems: set<nat>
    var itemGuards: Guards
    var uniformBranches: set<nat>
    var backedgeBranches: set<nat>
    var varyingBranches: set<nat>

    function State(): Plan
      reads this
    {
      Plan(skipItems, itemGuards)
    }

    constructor (p: Program)
      ensures State() == Plan({}, map[]) && uniformBranches == {} && varyingBranches == {}
      ensures forall k: nat :: k in backedgeBranches <==> IsLoopBranch(p, k)
    {
      var back := LoopBranches(p);
      skipItems, itemGuards, uniformBranches, backedgeBranches, varyingBranches := {}, map[], {}, back, {};
    }

    /** `_try_legalize_forward_exit`, for a branch that is not known to be uniform. */
    method TryLegalize(p: Program, b: nat) returns (converted: Option<bool>)
      requires IsGuardedBranch(p, b)
      modifies this
      ensures backedgeBranches == old(backedgeBranches) && uniformBranches == old(uniformBranches)
      ensures varyingBranches == old(varyingBranches)
      ensures if IsForward(p, b) then Tried(p, b, backedgeBranches, old(State()), State(), converted)
              else State() == old(State()) && converted == Some(false)
    {
      var target := Target(p, p[b].inst);
      if target.None? || target.value <= b {
        return Some(false);
      }
      var region := Region(p, b, target.value);
      var control := UniformControl(p, region, backedgeBranches);
      assert region == RegionOf(p, b);
      ghost var before := State();
      if region == {} || exists i :: i in region && IsBra(p, i) && i !in control {
        assert TriedWith(p, b, control, before, State(), Some(false));
        return Some(false);
      }
      var g := SkipGuard(p, b);
      if g.None? {
        assert TriedWith(p, b, control, before, State(), None);
        return None;
      }
      if exists i :: i in region && i !in control && i in itemGuards && itemGuards[i] != g.value {
        assert TriedWith(p, b, control, before, State(), Some(false));
        return Some(false);
      }
      skipItems := skipItems + {b};
      itemGuards := Assign(itemGuards, region, control, g.value);
      assert TriedWith(p, b, control, before, State(), Some(true));
      converted := Some(true);
    }

    /**
     `_build_control_plan`: the branches in textual order; `false` is the error for a predicate that does not exist.
     A branch that is not uniform is skipped exactly when nothing stands against it, and a varying one that is not
     skipped is kept as it is.
     */
    method Build(p: Program, branches: map<nat, Uniformity>) returns (ok: bool)
      requires forall b | b in branches :: IsGuardedBranch(p, b)
      requires State() == Plan({}, map[]) && uniformBranches == {} && varyingBranches == {}
      modifies this
      ensures PlanSound(p, backedgeBranches, State()) && backedgeBranches == old(backedgeBranches)
      ensures uniformBranches == set b | b in branches && branches[b].Uniform?
      ensures forall b | b in skipItems :: b in branches && !branches[b].Uniform?
      ensures ok <==> forall b | Open(branches, b) :: !Fails(p, b, backedgeBranches)
      ensures ok ==> forall b | Open(branches, b) :: b in skipItems <==> !Refused(p, b, backedgeBranches, itemGuards)
      ensures ok ==> Planned(p, branches, backedgeBranches, State())
      ensures forall b | b in varyingBranches :: b in branches && branches[b].Varying? && b !in skipItems
      ensures ok ==> forall b | b in branches && branches[b].Varying? && b !in skipItems :: b in varyingBranches
    {
      hide Deciding, Refused, Fails, Holds, PlanSound, Tried, Planned;
      uniformBranches := set b | b in branches && branches[b].Uniform?;
      ghost var plans: seq<Plan> := [State()];
      NothingDecided(p, branches, backedgeBranches);
      for b := 0 to |p|
        invariant backedgeBranches == old(backedgeBranches)
        invariant uniformBranches == set c | c in branches && branches[c].Uniform?
        invariant Deciding(p, branches, backedgeBranches, b, State(), plans)
        invariant varyingBranches == set c | c in branches && branches[c].Varying? && c < b && c !in skipItems
      {
        ghost var before := State();
        var converted := Some(false);
        if b in branches && !branches[b].Uniform? {
          converted := TryLegalize(p, b);
        }
        DecideNext(p, branches, backedgeBranches, b, before, State(), converted, plans);
        if converted.None? {
          return false;
        }
        plans := plans + [State()];
        if b in branches && branches[b].Varying? && !converted.value {
          varyingBranches := varyingBranches + {b};
        }
      }
      AllDecided(p, branches, backedgeBranches, State(), plans);
      ok := true;
    }
  }

  /** A branch that the analysis does not find uniform. */
  predicate Open(branches: map<nat, Uniformity>, b: nat) { b in branches && !branches[b].Uniform? }

  /** What one item does to the plan. */
  ghost predicate NextPlan(p: Program, branches: map<nat, Uniformity>, back: set<nat>, b: nat, before: Plan, after: Plan) {
    if Open(branches, b) && IsForward(p, b) then
      exists converted: Option<bool> :: converted.Some? && Tried(p, b, back, before, after, converted)
    else after == before
  }

  /** The plans before each item and after the last. */
  ghost predicate PlanRun(p: Program, branches: map<nat, Uniformity>, back: set<nat>, plans: seq<Plan>, n: nat) {
    && |plans| == n + 1 && plans[0] == Plan({}, map[])
    && forall k: nat | k < n :: NextPlan(p, branches, back, k, plans[k], plans[k + 1])
  }

  ghost predicate Planned(p: Program, branches: map<nat, Uniformity>, back: set<nat>, plan: Plan) {
    exists plans: seq<Plan> :: PlanRun(p, branches, back, plans, |p|) && plan == plans[|p|]
  }

  lemma TriedUnique(p: Program, b: nat, back: set<nat>, before: Plan, after: Plan, other: Plan, x: Option<bool>,
                    y: Option<bool>)
    requires Tried(p, b, back, before, after, x) && Tried(p, b, back, before, other, y)
    ensures after == other && x == y
  {
    var region := RegionOf(p, b);
    var c: set<nat> :| IsUniformControl(p, region, back, c) && TriedWith(p, b, c, before, after, x);
    var d: set<nat> :| IsUniformControl(p, region, back, d) && TriedWith(p, b, d, before, other, y);
    UniformControlUnique(p, region, back, c, d);
  }

  /** The branches, what is known of them and the loop branches determine the plan. */
  lemma {:induction false} PlanRunUnique(p: Program, branches: map<nat, Uniformity>, back: set<nat>, a: seq<Plan>,
                                         b: seq<Plan>, n: nat, k: nat)
    requires PlanRun(p, branches, back, a, n) && PlanRun(p, branches, back, b, n) && k <= n
    ensures a[k] == b[k]
  {
    if k > 0 {
      PlanRunUnique(p, branches, back, a, b, n, k - 1);
      assert NextPlan(p, branches, back, k - 1, a[k - 1], a[k - 1 + 1]);
      assert NextPlan(p, branches, back, k - 1, b[k - 1], b[k - 1 + 1]);
      if Open(branches, k - 1) && IsForward(p, k - 1) {
        var x: Option<bool> :| x.Some? && Tried(p, k - 1, back, a[k - 1], a[k], x);
        var y: Option<bool> :| y.Some? && Tried(p, k - 1, back, b[k - 1], b[k], y);
        TriedUnique(p, k - 1, back, a[k - 1], a[k], b[k], x, y);
      }
    }
  }

  lemma PlanUnique(p: Program, branches: map<nat, Uniformity>, back: set<nat>, a: Plan, b: Plan)
    requires Planned(p, branches, back, a) && Planned(p, branches, back, b)
    ensures a == b
  {
    var x: seq<Plan> :| PlanRun(p, branches, back, x, |p|) && a == x[|p|];
    var y: seq<Plan> :| PlanRun(p, branches, back, y, |p|) && b == y[|p|];
    PlanRunUnique(p, branches, back, x, y, |p|, |p|);
  }

  /** Every branch before item `n` that is not uniform has been converted for good, or refused for good. */
  ghost predicate Deciding(p: Program, branches: map<nat, Uniformity>, back: set<nat>, n: nat, plan: Plan,
                           plans: seq<Plan>)
  {
    && PlanSound(p, back, plan) && PlanRun(p, branches, back, plans, n) && plan == plans[n]
    && (forall c | c in plan.skip :: c < n && Open(branches, c) && Holds(p, c, back, plan.guards))
    && (forall c: nat | c < n && Open(branches, c) :: !Fails(p, c, back))
    && (forall c: nat | c < n && Open(branches, c) && c !in plan.skip :: Refused(p, c, back, plan.guards))
  }

  /** What trying item `b` has done, if it is a branch to try. */
  ghost predicate TriedItem(p: Program, branches: map<nat, Uniformity>, back: set<nat>, b: nat, before: Plan,
                            after: Plan, converted: Option<bool>)
  {
    if Open(branches, b) && IsForward(p, b) then Tried(p, b, back, before, after, converted)
    else after == before && converted == Some(false)
  }

  /** What was refused before item `b` stays refused, and so is `b` if it is not converted. */
  lemma RefusedNext(p: Program, branches: map<nat, Uniformity>, back: set<nat>, b: nat, before: Plan, after: Plan,
                    converted: Option<bool>, c: nat)
    requires TriedItem(p, branches, back, b, before, after, converted) && converted.Some?
    requires c <= b && Open(branches, c) && c !in after.skip
    requires c < b && c !in before.skip ==> Refused(p, c, back, before.guards)
    ensures Refused(p, c, back, after.guards)
  {
    hide Refused, Fails, Holds, Tried;
    if Open(branches, b) && IsForward(p, b) {
      TriedDecides(p, b, back, before, after, converted);
      assert before.skip <= after.skip;
      if converted.value {
        assert converted == Some(true) && b in after.skip;
      } else {
        assert converted == Some(false);
      }
    } else if !IsForward(p, b) {
      NotForward(p, b, back, after.guards);
    }
    if c < b {
      RefusedStays(p, c, back, before.guards, after.guards);
    }
  }

  lemma DecideNext(p: Program, branches: map<nat, Uniformity>, back: set<nat>, b: nat, before: Plan, after: Plan,
                   converted: Option<bool>, plans: seq<Plan>)
    requires Deciding(p, branches, back, b, before, plans) && TriedItem(p, branches, back, b, before, after, converted)
    ensures PlanSound(p, back, after)
    ensures forall c | c in after.skip :: Open(branches, c)
    ensures converted.None? ==> Open(branches, b) && Fails(p, b, back) && after == before
    ensures converted.Some? ==> Deciding(p, branches, back, b + 1, after, plans + [after])
    ensures converted.Some? ==> after.skip == if converted.value then before.skip + {b} else before.skip
    ensures b !in before.skip
  {
    hide PlanSound, Holds, Refused, Fails, Tried;
    if Open(branches, b) && IsForward(p, b) {
      TriedDecides(p, b, back, before, after, converted);
      TriedKeepsSound(p, b, back, before, after, converted);
    } else if !IsForward(p, b) {
      NotForward(p, b, back, after.guards);
    }
    forall c | c in before.skip
      ensures Holds(p, c, back, after.guards)
    {
      HoldsStays(p, c, back, before.guards, after.guards);
    }
    if converted.Some? {
      assert NextPlan(p, branches, back, b, before, after);
      PlanRunNext(p, branches, back, plans, b, after);
      assert PlanSound(p, back, after);
      assert after == (plans + [after])[b + 1];
      assert forall c | c in after.skip :: c < b + 1 && Open(branches, c);
      assert forall c | c in after.skip :: Holds(p, c, back, after.guards);
      assert forall c: nat | c < b + 1 && Open(branches, c) :: !Fails(p, c, back);
      forall c: nat | c < b + 1 && Open(branches, c) && c !in after.skip
        ensures Refused(p, c, back, after.guards)
      {
        RefusedNext(p, branches, back, b, before, after, converted, c);
      }
    }
  }

  lemma PlanRunNext(p: Program, branches: map<nat, Uniformity>, back: set<nat>, plans: seq<Plan>, b: nat, after: Plan)
    requires PlanRun(p, branches, back, plans, b) && NextPlan(p, branches, back, b, plans[b], after)
    ensures PlanRun(p, branches, back, plans + [after], b + 1)
  {
    hide NextPlan;
    var more := plans + [after];
    forall k: nat | k < b + 1
      ensures NextPlan(p, branches, back, k, more[k], more[k + 1])
    {
      assert k < b ==> NextPlan(p, branches, back, k, plans[k], plans[k + 1]);
    }
  }

  lemma NothingDecided(p: Program, branches: map<nat, Uniformity>, back: set<nat>)
    ensures Deciding(p, branches, back, 0, Plan({}, map[]), [Plan({}, map[])])
  {
  }

  lemma NotForward(p: Program, b: nat, back: set<nat>, guards: Guards)
    requires !IsForward(p, b)
    ensures Refused(p, b, back, guards) && !Fails(p, b, back)
  {
  }

  lemma AllDecided(p: Program, branches: map<nat, Uniformity>, back: set<nat>, plan: Plan, plans: seq<Plan>)
    requires Deciding(p, branches, back, |p|, plan, plans)
    requires forall b | b in branches :: IsGuardedBranch(p, b)
    ensures PlanSound(p, back, plan) && forall b | b in plan.skip :: Open(branches, b)
    ensures forall b | Open(branches, b) :: !Fails(p, b, back)
    ensures forall b | Open(branches, b) :: b in plan.skip <==> !Refused(p, b, back, plan.guards)
    ensures Planned(p, branches, back, plan)
  {
    hide PlanSound, Holds, Refused, Fails;
    forall c | c in plan.skip
      ensures !Refused(p, c, back, plan.guards)
    {
      HoldsNotRefused(p, c, back, plan.guards);
    }
    forall c: nat | Open(branches, c)
      ensures c < |p|
    {
      assert IsGuardedBranch(p, c);
    }
  }

  /* ---------- the code of a converted region ---------- */

  /** The instructions each item is lowered to, before guards. */
  type ItemCode = nat -> seq<Inst>

  function PlainCode(p: Program, lower: ItemCode, a: nat, b: nat): seq<Inst>
    requires b <= |p|
    decreases b
  {
    if a >= b then [] else PlainCode(p, lower, a, b - 1) + (if p[b - 1].Code? then lower(b - 1) else [])
  }

  /** What is emitted: each instruction of an item with a guard gets that guard. */
  function GuardedCode(p: Program, plan: Plan, lower: ItemCode, a: nat, b: nat): seq<Inst>
    requires b <= |p|
    decreases b
  {
    if a >= b then []
    else
      var i := b - 1;
      var code := if p[i].Code? then lower(i) else [];
      GuardedCode(p, plan, lower, a, i) + (if i in plan.guards then EmitAll(code, plan.guards[i]) else code)
  }

  lemma EmitAppend(a: seq<Inst>, b: seq<Inst>, g: Guard)
    ensures EmitAll(a + b, g) == EmitAll(a, g) + EmitAll(b, g)
  {
  }

  lemma {:induction false} RegionCode(p: Program, plan: Plan, lower: ItemCode, a: nat, b: nat, g: Guard)
    requires b <= |p| && forall i | a <= i < b && p[i].Code? :: i in plan.guards && plan.guards[i] == g
    ensures GuardedCode(p, plan, lower, a, b) == EmitAll(PlainCode(p, lower, a, b), g)
    decreases b
  {
    if a < b {
      RegionCode(p, plan, lower, a, b - 1, g);
      var code := if p[b - 1].Code? then lower(b - 1) else [];
      EmitAppend(PlainCode(p, lower, a, b - 1), code, g);
      assert code == [] ==> EmitAll(code, g) == [];
    }
  }

  /**
   The emitted region of a converted branch, without loops inside, does to the lanes that do not take the branch
   what the region does, and nothing to the others.
   */
  lemma ConvertedRegionRuns(fpu: M.Fpu, p: Program, back: set<nat>, plan: Plan, lower: ItemCode, b: nat, w: M.Warp)
    requires PlanSound(p, back, plan) && b in plan.skip && IsForward(p, b) && SkipGuard(p, b).Some?
    requires RegionOf(p, b) !! back
    requires
      var end := Target(p, p[b].inst).value;
      AllMaskable(PlainCode(p, lower, b + 1, end), SkipGuard(p, b).value)
    ensures
      var end, g, exec := Target(p, p[b].inst).value, SkipGuard(p, b).value, M.WarpExec(fpu);
      MaskedResult(g, w, ExecSeq(exec, PlainCode(p, lower, b + 1, end), Some(M.Warp(ActiveLanes(g, w.lanes), w.mem))),
                   ExecSeq(exec, GuardedCode(p, plan, lower, b + 1, end), Some(w)))
  {
    var end, g := Target(p, p[b].inst).value, SkipGuard(p, b).value;
    WholeRegionGuarded(p, back, plan, b);
    RegionCode(p, plan, lower, b + 1, end, g);
    RegionMasked(fpu, PlainCode(p, lower, b + 1, end), g, w);
  }

  /** Without loops inside, every instruction of the region has the guard. */
  lemma WholeRegionGuarded(p: Program, back: set<nat>, plan: Plan, b: nat)
    requires PlanSound(p, back, plan) && b in plan.skip && IsForward(p, b) && SkipGuard(p, b).Some?
    requires RegionOf(p, b) !! back
    ensures forall i | b + 1 <= i < Target(p, p[b].inst).value && p[i].Code? ::
              i in plan.guards && plan.guards[i] == SkipGuard(p, b).value
  {
    assert RegionGuarded(p, back, plan, b);
    NoControlInside(p, RegionOf(p, b), back);
    var none: set<nat> := {};
    forall i: nat | i in RegionOf(p, b)
      ensures i in plan.guards && plan.guards[i] == SkipGuard(p, b).value
    {
      assert i !in none;
    }
  }

  lemma NoControlInside(p: Program, region: set<nat>, back: set<nat>)
    requires region !! back
    ensures IsUniformControl(p, region, back, {})
  {
  }
}
