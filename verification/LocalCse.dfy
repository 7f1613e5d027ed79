/** Common subexpressions inside straight-line scopes: the rewriting with aliases and look-ahead. */
module LocalCse {
  import opened Isa
  import opened Ptx

  /* ---------- expressions ---------- */

  /** An opcode with its source operands. */
  datatype Key = Key(op: PureOp, mods: nat, ty: Ty, sources: seq<Operand>)

  function OperandCount(op: PureOp): nat {
    match op
    case Cvt => 2
    case Mov => 2
    case Mad => 4
    case _ => 3
  }

  /** `_cse_expression_key` */
  function KeyOf(i: Instr): Option<Key> {
    if i.guard.Some? || i.operands == [] || !i.base.Pure? || |i.operands| != OperandCount(i.base.op) || i.cc
       || !i.operands[0].RegOp? || IsPredicate(i.operands[0].reg)
    then None
    else Some(Key(i.base.op, i.mods, i.ty, i.operands[1..]))
  }

  /** An unguarded pure instruction that writes a general-purpose register. */
  predicate Keyed(i: Instr) { KeyOf(i).Some? }

  function Dest(i: Instr): Reg
    requires Keyed(i)
  {
    i.operands[0].reg
  }

  function Sources(i: Instr): seq<Operand>
    requires Keyed(i)
  {
    i.operands[1..]
  }

  predicate Mentions(o: Operand, r: Reg) { (o.RegOp? || o.Addr?) && o.reg == r }

  /** `_expression_uses_register` */
  predicate UsesRegister(sources: seq<Operand>, r: Reg) {
    exists k :: 0 <= k < |sources| && Mentions(sources[k], r)
  }

  lemma MentionedRegs(operands: seq<Operand>, r: Reg)
    ensures r in AllRegs(operands) <==> UsesRegister(operands, r)
  {
    AllRegsExactly(operands, r);
    if UsesRegister(operands, r) {
      var k :| 0 <= k < |operands| && Mentions(operands[k], r);
    }
    if k :| 0 <= k < |operands| && (operands[k] == RegOp(r) || operands[k] == Addr(r)) {
      assert Mentions(operands[k], r);
    }
  }

  /* ---------- aliases ---------- */

  type Aliases = map<Reg, Reg>

  /** `_resolve_alias`: follows aliases, but never twice through the same name. */
  function Resolve(name: Reg, aliases: Aliases, seen: set<Reg>): Reg
    decreases |aliases.Keys - seen|
  {
    if name in aliases && name !in seen then
      assert aliases.Keys - (seen + {name}) < aliases.Keys - seen;
      Shrinks(aliases.Keys - (seen + {name}), aliases.Keys - seen);
      Resolve(aliases[name], aliases, seen + {name})
    else name
  }

  lemma Shrinks(a: set<Reg>, b: set<Reg>)
    requires a < b
    ensures |a| < |b|
  {
    var rest := b - a;
    assert b == a + rest && |b| == |a| + |rest|;
  }

  method ResolveAlias(name: Reg, aliases: Aliases) returns (current: Reg)
    ensures current == Resolve(name, aliases, {})
  {
    var seen: set<Reg> := {};
    current := name;
    while current in aliases && current !in seen
      invariant Resolve(current, aliases, seen) == Resolve(name, aliases, {})
      decreases |aliases.Keys - seen|
    {
      Shrinks(aliases.Keys - (seen + {current}), aliases.Keys - seen);
      seen := seen + {current};
      current := aliases[current];
    }
  }

  function RewriteOperand(o: Operand, aliases: Aliases): Operand {
    match o
    case RegOp(r) => RegOp(Resolve(r, aliases, {}))
    case Addr(r) => Addr(Resolve(r, aliases, {}))
    case _ => o
  }

  function RewriteOperands(operands: seq<Operand>, aliases: Aliases): (r: seq<Operand>)
    ensures |r| == |operands|
    ensures forall k | 0 <= k < |r| :: r[k] == RewriteOperand(operands[k], aliases)
  {
    seq(|operands|, k requires 0 <= k < |operands| => RewriteOperand(operands[k], aliases))
  }

  /** `_rewrite_sources` */
  function RewriteSources(i: Instr, aliases: Aliases): Instr
    requires Keyed(i)
  {
    i.(operands := [i.operands[0]] + RewriteOperands(Sources(i), aliases))
  }

  lemma RewrittenKeyed(i: Instr, aliases: Aliases)
    requires Keyed(i)
    ensures
      var w := RewriteSources(i, aliases);
      Keyed(w) && Dest(w) == Dest(i) && Sources(w) == RewriteOperands(Sources(i), aliases)
      && KeyOf(w).value == Key(i.base.op, i.mods, i.ty, Sources(w))
  {
  }

  /* ---------- one scope ---------- */

  predicate Straight(insts: seq<Instr>) { forall k | 0 <= k < |insts| :: Keyed(insts[k]) }

  predicate Reads(i: Instr, r: Reg)
    requires Keyed(i)
  {
    UsesRegister(Sources(i), r)
  }

  /** `_alias_read_after_target_redefinition` */
  predicate ReadAfterRedefinition(alias: Reg, target: Reg, future: seq<Instr>, redefined: bool)
    requires Straight(future)
  {
    if future == [] then false
    else
      var now := redefined || Dest(future[0]) == target;
      (now && Reads(future[0], alias)) || ReadAfterRedefinition(alias, target, future[1..], now)
  }

  method AliasReadAfterTargetRedefinition(alias: Reg, target: Reg, future: seq<Instr>) returns (found: bool)
    requires Straight(future)
    ensures found == ReadAfterRedefinition(alias, target, future, false)
  {
    var redefined := false;
    assert future[0..] == future;
    for k := 0 to |future|
      invariant ReadAfterRedefinition(alias, target, future, false)
             == ReadAfterRedefinition(alias, target, future[k..], redefined)
    {
      assert future[k..][1..] == future[k + 1..];
      if Dest(future[k]) == target {
        redefined := true;
      }
      if redefined && Reads(future[k], alias) {
        return true;
      }
    }
    found := false;
  }

  datatype Cse = Cse(exprs: map<Key, Reg>, aliases: Aliases, optimized: seq<Instr>, removed: seq<Reg>)

  /** `_invalidate_for_definition` */
  function Invalidate(c: Cse, d: Reg): Cse {
    c.(exprs := map key | key in c.exprs && c.exprs[key] != d && !UsesRegister(key.sources, d) :: c.exprs[key],
       aliases := map a | a in c.aliases && a != d :: c.aliases[a])
  }

  /** An instruction already rewritten to `w`; `future` are those after it. */
  function Place(c: Cse, w: Instr, outside: set<Reg>, future: seq<Instr>): Cse
    requires Keyed(w) && Straight(future)
  {
    var d, key := Dest(w), KeyOf(w).value;
    var kept := c.(optimized := c.optimized + [w]);
    if d in outside then kept
    else if key in c.exprs then
      var target := Resolve(c.exprs[key], c.aliases, {});
      if ReadAfterRedefinition(d, target, future, false) then kept.(exprs := c.exprs[key := d])
      else c.(aliases := c.aliases[d := target], removed := c.removed + [d])
    else kept.(exprs := c.exprs[key := d])
  }

  function Advance(c: Cse, insts: seq<Instr>, k: nat, outside: set<Reg>): Cse
    requires Straight(insts) && k < |insts|
  {
    var w := RewriteSources(insts[k], c.aliases);
    RewrittenKeyed(insts[k], c.aliases);
    Place(Invalidate(c, Dest(w)), w, outside, insts[k + 1..])
  }

  function Start(): Cse { Cse(map[], map[], [], []) }

  /** The state after the first `k` instructions. */
  function CseOf(insts: seq<Instr>, outside: set<Reg>, k: nat): Cse
    requires Straight(insts) && k <= |insts|
  {
    if k == 0 then Start() else Advance(CseOf(insts, outside, k - 1), insts, k - 1, outside)
  }

  method OptimizeScope(insts: seq<Instr>, outside: set<Reg>) returns (c: Cse)
    requires Straight(insts)
    ensures c == CseOf(insts, outside, |insts|)
  {
    c := Start();
    for k := 0 to |insts|
      invariant c == CseOf(insts, outside, k)
    {
      c := AdvanceScope(c, insts, k, outside);
    }
  }

  method AdvanceScope(before: Cse, insts: seq<Instr>, k: nat, outside: set<Reg>) returns (c: Cse)
    requires Straight(insts) && k < |insts|
    ensures c == Advance(before, insts, k, outside)
  {
    var w := RewriteSources(insts[k], before.aliases);
    RewrittenKeyed(insts[k], before.aliases);
    var d := Dest(w);
    c := Invalidate(before, d);
    var key := KeyOf(w).value;
    if d !in outside {
      if key in c.exprs {
        var target := ResolveAlias(c.exprs[key], c.aliases);
        var read := AliasReadAfterTargetRedefinition(d, target, insts[k + 1..]);
        if read {
          c := c.(exprs := c.exprs[key := d]);
        } else {
          c := c.(aliases := c.aliases[d := target], removed := c.removed + [d]);
          return;
        }
      } else {
        c := c.(exprs := c.exprs[key := d]);
      }
    }
    c := c.(optimized := c.optimized + [w]);
  }
}
