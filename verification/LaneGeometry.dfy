/** What the lanes of a launch are: which thread of which block each one is, and what it reads at each selector. */
module LaneGeometry {
  import opened Isa
  import opened Machine
  import U = Uniformity
  import opened Simulator
  import opened BranchTraces

  /** The `n`-th point of a box of width, height and depth `w`, `h` and `d`, counted with x first, is (x, y, z). */
  predicate PointOf(n: nat, w: nat, h: nat, d: nat, x: nat, y: nat, z: nat) {
    x < w && y < h && z < d && x + y * w + z * (w * h) == n
  }

  predicate FitsWord(d: U.Dim) { d.x < 0x1_0000_0000 && d.y < 0x1_0000_0000 && d.z < 0x1_0000_0000 }

  lemma Regroup(q: nat, r: nat, a: nat, b: nat)
    ensures (q * b + r) * a == q * (a * b) + r * a
  {
    assert (q * b + r) * a == q * b * a + r * a;
    assert q * b * a == q * (b * a);
  }

  lemma RowBelow(r: nat, low: nat, a: nat, b: nat)
    requires r < b && low < a
    ensures r * a + low < a * b
  {
    U.TimesMonotone(r + 1, b, a);
    assert (r + 1) * a == r * a + a;
  }

  lemma ProductQuotient(n: nat, a: nat, b: nat, q: nat, r: nat, low: nat)
    requires n == (q * b + r) * a + low && r < b && low < a
    ensures a * b > 0 && n / (a * b) == q
  {
    RowBelow(r, low, a, b);
    Regroup(q, r, a, b);
    U.DivMod(n, a * b, q, r * a + low);
  }

  lemma QuotientOfProduct(n: nat, a: nat, b: nat)
    requires a > 0 && b > 0
    ensures a * b > 0 && n / (a * b) == n / a / b
  {
    var whole := n / a;
    Parts(n, a, whole, n % a);
    Parts(whole, b, whole / b, whole % b);
    ProductQuotient(n, a, b, whole / b, whole % b, n % a);
  }

  lemma Parts(n: nat, a: nat, q: nat, r: nat)
    requires a > 0 && q == n / a && r == n % a
    ensures n == q * a + r
  {
  }

  lemma QuotientLess(n: nat, d: nat, c: nat)
    requires d > 0 && n < d * c
    ensures n / d < c
  {
    var q, r := n / d, n % d;
    if c <= q {
      U.TimesMonotone(c, q, d);
      assert false;
    }
  }

  lemma Digits(n: nat, a: nat, b: nat, c: nat)
    requires a > 0 && b > 0 && n < a * b * c
    ensures a * b > 0 && PointOf(n, a, b, c, n % a, n / a % b, n / (a * b))
  {
    QuotientOfProduct(n, a, b);
    QuotientLess(n, a * b, c);
    var q, x, y, z := n / a, n % a, n / a % b, n / (a * b);
    Parts(n, a, q, x);
    Parts(q, b, z, y);
    MakeUp(n, a, b, c, q, x, y, z);
  }

  lemma MakeUp(n: nat, a: nat, b: nat, c: nat, q: nat, x: nat, y: nat, z: nat)
    requires n == q * a + x && q == z * b + y && x < a && y < b && z < c
    ensures PointOf(n, a, b, c, x, y, z)
  {
    Regroup(z, y, a, b);
  }

  /** The coordinates of a point of a box make it up. */
  lemma CoordinatesMakeUp(n: nat, d: U.Dim)
    requires U.Positive(d) && n < d.x * d.y * d.z
    ensures PointOf(n, d.x, d.y, d.z, U.Coordinate(n, d, U.X), U.Coordinate(n, d, U.Y), U.Coordinate(n, d, U.Z))
  {
    hide PointOf;
    Digits(n, d.x, d.y, d.z);
  }

  /** No two points of a box have the same number. */
  lemma {:induction false} PointUnique(n: nat, w: nat, h: nat, d: nat, x: nat, y: nat, z: nat,
                                       x': nat, y': nat, z': nat)
    requires PointOf(n, w, h, d, x, y, z) && PointOf(n, w, h, d, x', y', z')
    ensures x == x' && y == y' && z == z'
  {
    assert z * (w * h) == (z * h) * w && z' * (w * h) == (z' * h) * w;
    assert (y + z * h) * w == y * w + (z * h) * w && (y' + z' * h) * w == y' * w + (z' * h) * w;
    U.DivMod(n, w, y + z * h, x);
    U.DivMod(n, w, y' + z' * h, x');
    U.DivMod(y + z * h, h, z, y);
    U.DivMod(y + z * h, h, z', y');
  }

  lemma WrapSmall(x: int)
    requires 0 <= x < 0x1_0000_0000
    ensures Wrap(x) == x
  {
  }

  const Readable: set<nat> :=
    {0x100, 0x101, 0x102, 0x103, 0x104, 0x105, 0x110, 0x111, 0x112, 0x113, 0x120, 0x121, 0x122, 0x123}

  /** The coordinates of a point of a box whose sizes fit in a word are words. */
  lemma CoordinatesFit(n: nat, d: U.Dim, a: U.Axis)
    requires U.Positive(d) && n < d.x * d.y * d.z && FitsWord(d)
    ensures Wrap(U.Coordinate(n, d, a)) == U.Coordinate(n, d, a)
  {
    CoordinatesMakeUp(n, d);
    WrapSmall(U.Coordinate(n, d, a));
  }

  lemma SizesFit(d: U.Dim, a: U.Axis)
    requires FitsWord(d)
    ensures Wrap(U.Component(d, a)) == U.Component(d, a)
  {
    WrapSmall(U.Component(d, a));
  }

  lemma PartFits(x: nat, ws: nat)
    requires ws > 0 && x < 0x1_0000_0000
    ensures Wrap(x % ws) == x % ws && Wrap(x / ws) == x / ws
  {
    assert x % ws <= x by {
      if x < ws { U.DivMod(x, ws, 0, x); }
    }
    assert x / ws <= x by { U.TimesMonotone(1, ws, x / ws); }
    WrapSmall(x % ws);
    WrapSmall(x / ws);
  }

  lemma SpecialRead(l: U.Launch, block: nat, thread: nat, n: nat)
    requires U.ValidLaunch(l) && n in Selectors()
    ensures
      var lane := InitialLane(l, block, thread);
      n in lane.special && lane.special[n] == Wrap(U.SpecialValue(l, block, thread, Selectors()[n]))
  {
    hide Selectors, U.SpecialValue;
  }

  lemma CoordinatesRead(l: U.Launch, block: nat, thread: nat, a: U.Axis, n: nat)
    requires U.ValidLaunch(l) && thread < U.Threads(l) && block < Blocks(l)
    requires FitsWord(l.blockDim) && FitsWord(l.gridDim)
    requires (a, n) in {(U.X, 0x100), (U.Y, 0x110), (U.Z, 0x120)}
    ensures
      var special := InitialLane(l, block, thread).special;
      && n in special && special[n] == U.Coordinate(thread, l.blockDim, a)
      && n + 1 in special && special[n + 1] == U.Component(l.blockDim, a)
      && n + 2 in special && special[n + 2] == U.Coordinate(block, l.gridDim, a)
      && n + 3 in special && special[n + 3] == U.Component(l.gridDim, a)
  {
    hide U.Coordinate, U.Component, InitialLane, Wrap;
    SpecialRead(l, block, thread, n);
    SpecialRead(l, block, thread, n + 1);
    SpecialRead(l, block, thread, n + 2);
    SpecialRead(l, block, thread, n + 3);
    CoordinatesFit(thread, l.blockDim, a);
    CoordinatesFit(block, l.gridDim, a);
    SizesFit(l.blockDim, a);
    SizesFit(l.gridDim, a);
  }

  lemma PlaceRead(l: U.Launch, block: nat, thread: nat)
    requires U.ValidLaunch(l) && thread < U.Threads(l) && FitsWord(l.blockDim)
    ensures
      var special, x := InitialLane(l, block, thread).special, U.Coordinate(thread, l.blockDim, U.X);
      && 0x104 in special && special[0x104] == x % l.warpSize
      && 0x105 in special && special[0x105] == x / l.warpSize
  {
    hide InitialLane, Wrap;
    SpecialRead(l, block, thread, 0x104);
    SpecialRead(l, block, thread, 0x105);
    CoordinatesMakeUp(thread, l.blockDim);
    PartFits(U.Coordinate(thread, l.blockDim, U.X), l.warpSize);
  }

  lemma FreshLane(l: U.Launch, block: nat, thread: nat)
    requires U.ValidLaunch(l)
    ensures
      var lane := InitialLane(l, block, thread);
      && lane.special.Keys == Readable
      && (forall r | 0 <= r < 256 :: lane.regs[r] == 0) && (forall p | 0 <= p < 8 :: !lane.preds[p])
  {
    hide U.SpecialValue;
    assert Selectors().Keys == Readable;
  }

  /**
   What a lane can read, selector by selector: its thread and its block, which these coordinates determine, the
   sizes of both boxes, and its place in a row of threads. Its registers are zero and its predicates false.
   */
  lemma LaneReads(l: U.Launch, block: nat, thread: nat)
    requires U.ValidLaunch(l) && thread < U.Threads(l) && block < Blocks(l)
    requires FitsWord(l.blockDim) && FitsWord(l.gridDim)
    ensures
      var lane, b, g := InitialLane(l, block, thread), l.blockDim, l.gridDim;
      && lane.special.Keys == Readable
      && PointOf(thread, b.x, b.y, b.z, lane.special[0x100], lane.special[0x110], lane.special[0x120])
      && PointOf(block, g.x, g.y, g.z, lane.special[0x102], lane.special[0x112], lane.special[0x122])
      && (lane.special[0x101], lane.special[0x111], lane.special[0x121]) == (b.x, b.y, b.z)
      && (lane.special[0x103], lane.special[0x113], lane.special[0x123]) == (g.x, g.y, g.z)
      && lane.special[0x104] == lane.special[0x100] % l.warpSize
      && lane.special[0x105] == lane.special[0x100] / l.warpSize
      && (forall r | 0 <= r < 256 :: lane.regs[r] == 0)
      && (forall p | 0 <= p < 8 :: !lane.preds[p])
  {
    hide PointOf, InitialLane, U.Coordinate;
    FreshLane(l, block, thread);
    CoordinatesMakeUp(thread, l.blockDim);
    CoordinatesMakeUp(block, l.gridDim);
    CoordinatesRead(l, block, thread, U.X, 0x100);
    CoordinatesRead(l, block, thread, U.Y, 0x110);
    CoordinatesRead(l, block, thread, U.Z, 0x120);
    PlaceRead(l, block, thread);
  }

  /* ---------- the warps of a launch ---------- */

  /** The warp that starts at thread `first` of a block. */
  predicate WarpOf(l: U.Launch, block: nat, first: nat, warp: WarpStart)
    requires U.ValidLaunch(l)
  {
    && first < U.Threads(l) && warp.site == Site(block, first)
    && |warp.lanes| == (if first + l.warpSize <= U.Threads(l) then l.warpSize else U.Threads(l) - first)
    && forall j | 0 <= j < |warp.lanes| :: warp.lanes[j] == InitialLane(l, block, first + j)
  }

  lemma {:induction false} BlockWarpAt(l: U.Launch, block: nat, start: nat, k: nat)
    requires U.ValidLaunch(l)
    ensures k < |BlockWarps(l, block, start)| <==> start + k * l.warpSize < U.Threads(l)
    ensures k < |BlockWarps(l, block, start)| ==>
              WarpOf(l, block, start + k * l.warpSize, BlockWarps(l, block, start)[k])
    decreases k
  {
    hide InitialLane, U.Threads;
    if start < U.Threads(l) && k > 0 {
      BlockWarpAt(l, block, start + l.warpSize, k - 1);
      assert start + l.warpSize + (k - 1) * l.warpSize == start + k * l.warpSize;
    }
  }

  /** The number of warps of each block. */
  function WarpCount(l: U.Launch): nat
    requires U.ValidLaunch(l)
  {
    |BlockWarps(l, 0, 0)|
  }

  lemma SameCount(l: U.Launch, block: nat)
    requires U.ValidLaunch(l)
    ensures |BlockWarps(l, block, 0)| == WarpCount(l)
  {
    BlockWarpAt(l, block, 0, WarpCount(l));
    BlockWarpAt(l, 0, 0, WarpCount(l));
    BlockWarpAt(l, block, 0, |BlockWarps(l, block, 0)|);
    BlockWarpAt(l, 0, 0, |BlockWarps(l, block, 0)|);
  }

  lemma {:induction false} LaunchWarpAt(l: U.Launch, n: nat, block: nat, k: nat)
    requires U.ValidLaunch(l) && k < WarpCount(l)
    ensures |LaunchWarps(l, n)| == n * WarpCount(l)
    ensures block < n ==>
              && k < |BlockWarps(l, block, 0)| && block * WarpCount(l) + k < |LaunchWarps(l, n)|
              && LaunchWarps(l, n)[block * WarpCount(l) + k] == BlockWarps(l, block, 0)[k]
    decreases n
  {
    hide BlockWarps, WarpCount;
    if n > 0 {
      LaunchWarpAt(l, n - 1, block, k);
      SameCount(l, n - 1);
      assert n * WarpCount(l) == (n - 1) * WarpCount(l) + WarpCount(l);
    }
  }

  /** Every thread of every block is one lane of the launch: blocks in order, then warps, then lanes. */
  lemma ThreadIsLane(l: U.Launch, block: nat, thread: nat, k: nat, j: nat)
    requires U.ValidLaunch(l) && thread < U.Threads(l) && block < Blocks(l)
    requires k == thread / l.warpSize && j == thread % l.warpSize
    ensures block * WarpCount(l) + k < |LaunchWarps(l, Blocks(l))|
    ensures
      var warp := LaunchWarps(l, Blocks(l))[block * WarpCount(l) + k];
      WarpOf(l, block, k * l.warpSize, warp) && j < |warp.lanes| && warp.lanes[j] == InitialLane(l, block, thread)
  {
    hide BlockWarps, InitialLane, WarpCount, U.Threads;
    Parts(thread, l.warpSize, k, j);
    BlockWarpAt(l, block, 0, k);
    SameCount(l, block);
    LaunchWarpAt(l, Blocks(l), block, k);
  }

  /** The warps of a launch start at every multiple of the warp size in every block, in order. */
  lemma WarpIsThreads(l: U.Launch, k: nat)
    requires U.ValidLaunch(l) && k < |LaunchWarps(l, Blocks(l))|
    ensures WarpCount(l) > 0 && k / WarpCount(l) < Blocks(l)
    ensures WarpOf(l, k / WarpCount(l), k % WarpCount(l) * l.warpSize, LaunchWarps(l, Blocks(l))[k])
  {
    hide BlockWarps, InitialLane, WarpOf, Blocks, U.Threads;
    FirstWarp(l);
    var count := WarpCount(l);
    var block, n := k / count, k % count;
    LaunchWarpAt(l, Blocks(l), block, 0);
    Parts(k, count, block, n);
    QuotientLess(k, count, Blocks(l));
    BlockWarpAt(l, block, 0, n);
    LaunchWarpAt(l, Blocks(l), block, n);
  }

  lemma FirstWarp(l: U.Launch)
    requires U.ValidLaunch(l)
    ensures WarpCount(l) > 0
  {
    BlockWarpAt(l, 0, 0, 0);
    U.TimesMonotone(1, l.blockDim.x, l.blockDim.y);
    U.TimesMonotone(1, l.blockDim.x * l.blockDim.y, l.blockDim.z);
  }
}
