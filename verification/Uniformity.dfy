/** Which registers hold the same value in all lanes of a warp. */
module Uniformity {
  import opened Isa
  import opened Ptx

  datatype Uniformity = Unknown | Uniform | Varying

  datatype Axis = X | Y | Z

  /** The values of the launch geometry that a lane can read. */
  datatype Special = Tid(axis: Axis) | Ntid(axis: Axis) | Ctaid(axis: Axis) | Nctaid(axis: Axis) | LaneId | WarpId

  datatype Symbol = Parameter | Geometry(special: Special) | Other

  /** What the symbolic operands of a program are. */
  type Names = nat -> Symbol

  type Facts = map<Reg, Uniformity>

  /* ---------- the analysis ---------- */

  predicate AllUniform(states: seq<Uniformity>) { forall k | 0 <= k < |states| :: states[k].Uniform? }

  predicate AnyVarying(states: seq<Uniformity>) { exists k :: 0 <= k < |states| && states[k].Varying? }

  /** `merge_uniformity` */
  function Merge(states: seq<Uniformity>): Uniformity {
    if AnyVarying(states) then Varying
    else if states != [] && AllUniform(states) then Uniform
    else Unknown
  }

  function SpecialUniformity(s: Special): Uniformity {
    if s.Tid? || s.LaneId? then Varying else Uniform
  }

  function ValueOf(values: Facts, r: Reg): Uniformity { if r in values then values[r] else Unknown }

  /** `_operand_uniformity` */
  function OperandUniformity(o: Operand, values: Facts, names: Names): Uniformity {
    match o
    case Imm(_) => Uniform
    case FloatImm(_) => Uniform
    case RegOp(r) => ValueOf(values, r)
    case Addr(r) => ValueOf(values, r)
    case Sym(n) =>
      match names(n)
      case Geometry(s) => SpecialUniformity(s)
      case _ => Unknown
  }

  function OperandStates(operands: seq<Operand>, values: Facts, names: Names): (r: seq<Uniformity>)
    ensures |r| == |operands|
    ensures forall k | 0 <= k < |r| :: r[k] == OperandUniformity(operands[k], values, names)
  {
    seq(|operands|, k requires 0 <= k < |operands| => OperandUniformity(operands[k], values, names))
  }

  /** A parameter load names its parameter. */
  predicate LoadsParameter(i: Instr) { i.base.Ld? && |i.operands| == 2 && i.operands[1].Sym? }

  /** `_result_uniformity` */
  function ResultUniformity(i: Instr, values: Facts, names: Names): Uniformity {
    if i.base.Ld? then (if LoadsParameter(i) then Uniform else Varying)
    else if i.base == Pure(Mov) then
      if |i.operands| != 2 || i.operands[1].Addr? then Unknown
      else OperandUniformity(i.operands[1], values, names)
    else if (i.base.Pure? || i.base.Fma? || i.base.Setp?) && i.operands != [] then
      Merge(OperandStates(i.operands[1..], values, names))
    else Unknown
  }

  /** `_instruction_dest` */
  function Written(i: Instr): Option<Reg> {
    if (i.base.Ld? || i.base.Pure? || i.base.Fma? || i.base.Setp?) && i.operands != [] && i.operands[0].RegOp?
    then Some(i.operands[0].reg)
    else None
  }

  function AfterItem(item: Item, values: Facts, names: Names): Facts {
    if item.Label? || Written(item.inst).None? then values
    else values[Written(item.inst).value := ResultUniformity(item.inst, values, names)]
  }

  /** The classification before item `k`, in textual order. */
  function ValuesBefore(p: Program, names: Names, k: nat): Facts
    requires k <= |p|
  {
    if k == 0 then map[] else AfterItem(p[k - 1], ValuesBefore(p, names, k - 1), names)
  }

  predicate GuardedBranch(item: Item) { item.Code? && item.inst.base.Bra? && item.inst.guard.Some? }

  /** The state of every guarded branch, and of every register at the end. */
  method AnalyzeUniformity(p: Program, names: Names) returns (branches: map<nat, Uniformity>, values: Facts)
    ensures values == ValuesBefore(p, names, |p|)
    ensures forall k: nat :: k in branches <==> k < |p| && GuardedBranch(p[k])
    ensures forall k: nat | k < |p| && GuardedBranch(p[k]) ::
              branches[k] == ValueOf(ValuesBefore(p, names, k), p[k].inst.guard.value)
  {
    branches, values := map[], map[];
    for k := 0 to |p|
      invariant values == ValuesBefore(p, names, k)
      invariant forall b: nat :: b in branches <==> b < k && GuardedBranch(p[b])
      invariant forall b | b in branches :: branches[b] == ValueOf(ValuesBefore(p, names, b), p[b].inst.guard.value)
    {
      if p[k].Code? {
        var i := p[k].inst;
        if Written(i).Some? {
          values := values[Written(i).value := ResultUniformity(i, values, names)];
        }
        if i.base.Bra? && i.guard.Some? {
          branches := branches[k := ValueOf(values, i.guard.value)];
        }
      }
    }
  }

  /* ---------- two lanes of one warp ---------- */

  datatype Dim = Dim(x: nat, y: nat, z: nat)

  predicate Positive(d: Dim) { d.x > 0 && d.y > 0 && d.z > 0 }

  datatype Launch = Launch(blockDim: Dim, gridDim: Dim, warpSize: nat)

  predicate ValidLaunch(l: Launch) { Positive(l.blockDim) && Positive(l.gridDim) && l.warpSize > 0 }

  function Component(d: Dim, a: Axis): nat {
    match a
    case X => d.x
    case Y => d.y
    case Z => d.z
  }

  /** Coordinate of the `n`-th point of a box, x first. */
  function Coordinate(n: nat, d: Dim, a: Axis): nat
    requires Positive(d)
  {
    match a
    case X => n % d.x
    case Y => n / d.x % d.y
    case Z => n / (d.x * d.y)
  }

  /** `_special_value` */
  function SpecialValue(l: Launch, block: nat, thread: nat, s: Special): nat
    requires ValidLaunch(l)
  {
    match s
    case Tid(a) => Coordinate(thread, l.blockDim, a)
    case Ntid(a) => Component(l.blockDim, a)
    case Ctaid(a) => Coordinate(block, l.gridDim, a)
    case Nctaid(a) => Component(l.gridDim, a)
    case LaneId => thread % l.blockDim.x % l.warpSize
    case WarpId => thread % l.blockDim.x / l.warpSize
  }

  predicate SameWarp(l: Launch, t: nat, u: nat)
    requires ValidLaunch(l)
  {
    t < Threads(l) && u < Threads(l) && t / l.warpSize == u / l.warpSize
  }

  function Threads(l: Launch): nat { l.blockDim.x * l.blockDim.y * l.blockDim.z }

  /** Rows are whole warps, or fit in one, or there is only one. */
  predicate RowsFitWarps(l: Launch)
    requires ValidLaunch(l)
  {
    l.blockDim.x % l.warpSize == 0 || l.blockDim.x <= l.warpSize || l.blockDim.y * l.blockDim.z == 1
  }

  ghost predicate WarpIdUniform(l: Launch, block: nat)
    requires ValidLaunch(l)
  {
    forall t: nat, u: nat | SameWarp(l, t, u) :: SpecialValue(l, block, t, WarpId) == SpecialValue(l, block, u, WarpId)
  }

  lemma {:induction false} TimesMonotone(a: nat, b: nat, d: nat)
    requires a <= b
    ensures a * d <= b * d
    decreases b
  {
    if a < b {
      TimesMonotone(a, b - 1, d);
      assert b * d == (b - 1) * d + d;
    }
  }

  lemma QuotientBelow(q: nat, r: nat, q': nat, r': nat, d: nat)
    requires r < d && r' < d && q * d + r == q' * d + r'
    ensures q <= q'
  {
    assert (q' + 1) * d == q' * d + d;
    if q' < q {
      TimesMonotone(q' + 1, q, d);
    }
  }

  /** Quotients and remainders are determined. */
  lemma DivMod(n: nat, d: nat, q: nat, r: nat)
    requires d > 0 && r < d && n == q * d + r
    ensures n / d == q && n % d == r
  {
    var q', r' := n / d, n % d;
    assert n == q' * d + r';
    QuotientBelow(q, r, q', r', d);
    QuotientBelow(q', r', q, r, d);
  }

  lemma Distribute(row: nat, q: nat, k: nat, ws: nat)
    ensures (row * q + k) * ws == row * (q * ws) + k * ws
  {
    assert (row * q + k) * ws == row * q * ws + k * ws;
    assert row * q * ws == row * (q * ws);
  }

  lemma PlaceInRow(t: nat, q: nat, ws: nat, row: nat, k: nat, r: nat)
    requires r < ws && k < q && t == (row * q + k) * ws + r
    ensures q * ws > 0 && t % (q * ws) / ws == k
  {
    TimesMonotone(1, q, ws);
    TimesMonotone(k + 1, q, ws);
    assert (k + 1) * ws == k * ws + ws;
    Distribute(row, q, k, ws);
    var width, rest := q * ws, k * ws + r;
    DivMod(t, width, row, rest);
    DivMod(rest, ws, k, r);
  }

  /** In rows of `q` whole warps, the warp of a thread in its row is its warp modulo `q`. */
  lemma WholeWarps(t: nat, q: nat, ws: nat)
    requires ws > 0 && q > 0
    ensures q * ws > 0 && t % (q * ws) / ws == t / ws % q
  {
    var w, r := t / ws, t % ws;
    var row, k := w / q, w % q;
    assert t == w * ws + r;
    assert w == row * q + k;
    PlaceInRow(t, q, ws, row, k, r);
  }

  lemma NextQuotient(n: nat, d: nat)
    requires d > 0 && n > d && n % d != 0
    ensures (n - 1) / d == n / d && n / d >= 1
  {
    assert n == n / d * d + n % d;
    DivMod(n - 1, d, n / d, n % d - 1);
  }

  lemma TwoRows(l: Launch)
    requires ValidLaunch(l) && l.blockDim.y * l.blockDim.z != 1
    ensures Threads(l) >= 2 * l.blockDim.x
  {
    var rows := l.blockDim.y * l.blockDim.z;
    assert rows >= 1 by { assert l.blockDim.y * l.blockDim.z >= 1 * l.blockDim.z; }
    assert Threads(l) == l.blockDim.x * rows >= l.blockDim.x * 2;
  }

  /** The warp number is the same in all lanes of every warp exactly when warps do not wrap around rows. */
  lemma WarpIdUniformExactly(l: Launch, block: nat)
    requires ValidLaunch(l)
    ensures WarpIdUniform(l, block) <==> RowsFitWarps(l)
  {
    var bx, ws := l.blockDim.x, l.warpSize;
    if RowsFitWarps(l) {
      forall t: nat, u: nat | SameWarp(l, t, u)
        ensures SpecialValue(l, block, t, WarpId) == SpecialValue(l, block, u, WarpId)
      {
        if bx % ws == 0 {
          WholeRows(bx, ws, t);
          WholeRows(bx, ws, u);
        } else if bx <= ws {
          DivMod(t % bx, ws, 0, t % bx);
          DivMod(u % bx, ws, 0, u % bx);
        } else {
          assert Threads(l) == bx by { assert bx * (l.blockDim.y * l.blockDim.z) == bx; }
          DivMod(t, bx, 0, t);
          DivMod(u, bx, 0, u);
        }
      }
    } else {
      NextQuotient(bx, ws);
      TwoRows(l);
      DivMod(bx, bx, 1, 0);
      DivMod(bx - 1, bx, 0, bx - 1);
      DivMod(0, ws, 0, 0);
      assert SameWarp(l, bx - 1, bx);
      assert SpecialValue(l, block, bx - 1, WarpId) != SpecialValue(l, block, bx, WarpId);
    }
  }

  lemma WholeRows(bx: nat, ws: nat, t: nat)
    requires ws > 0 && bx > 0 && bx % ws == 0
    ensures t % bx / ws == t / ws % (bx / ws)
  {
    var q := bx / ws;
    assert bx == q * ws;
    assert q > 0;
    WholeWarps(t, q, ws);
  }
}
