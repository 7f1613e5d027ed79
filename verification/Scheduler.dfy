/** The list scheduler itself: it builds the dependence graph of one block and drains the ready list. */
module Scheduler {
  import opened Isa
  import opened Sequences
  import opened ScheduleGraph
  import opened ScheduleOrder

  /* ---------- operand lists and edge lists ---------- */

  function AddSource(regs: seq<nat>, r: nat): (s: seq<nat>)
    requires Distinct(regs)
    ensures Distinct(s) && forall x: nat :: x in s <==> x in regs || (x == r && r <= 255)
  {
    if r <= 255 && r !in regs then regs + [r] else regs
  }

  /** The source registers without repetition, in operand order. */
  function SourceRegs(inst: Node): (s: seq<nat>)
    ensures Distinct(s) && forall x: nat :: x in s <==> Reads(inst, x)
  {
    AddSource(AddSource(AddSource([], inst.src1), inst.src2), inst.src3)
  }

  type Lists = map<nat, seq<nat>>

  function Get(m: Lists, k: nat): seq<nat> {
    if k in m then m[k] else []
  }

  function Append(m: Lists, k: nat, x: nat): Lists {
    m[k := Get(m, k) + [x]]
  }

  /** How often the list of `i` names `j`. */
  ghost function Count(m: Lists, i: nat, j: nat): nat {
    Occurs(Get(m, i), j)
  }

  lemma AppendCount(m: Lists, p: nat, x: nat)
    ensures forall i: nat, j: nat {:trigger Count(Append(m, p, x), i, j)} ::
              Count(Append(m, p, x), i, j) == Count(m, i, j) + (if i == p && j == x then 1 else 0)
  {
    forall i: nat, j: nat
      ensures Count(Append(m, p, x), i, j) == Count(m, i, j) + (if i == p && j == x then 1 else 0)
    {
      if i == p {
        OccursAppend(Get(m, p), [x], j);
        assert [x][1..] == [];
      }
    }
  }

  /** How often the lists of the indices below `n` name `j`. */
  ghost function Total(m: Lists, j: nat, n: nat): nat {
    if n == 0 then 0 else Total(m, j, n - 1) + Count(m, n - 1, j)
  }

  lemma {:induction false} AppendTotal(m: Lists, p: nat, x: nat, n: nat)
    ensures Total(Append(m, p, x), x, n) == Total(m, x, n) + (if p < n then 1 else 0)
  {
    AppendCount(m, p, x);
    if n > 0 {
      AppendTotal(m, p, x, n - 1);
    }
  }

  lemma {:induction false} TotalOf(m: Lists, k: Lists, j: nat, n: nat)
    requires forall i: nat | i < n :: Count(m, i, j) == Count(k, i, j)
    ensures Total(m, j, n) == Total(k, j, n)
  {
    if n > 0 {
      TotalOf(m, k, j, n - 1);
    }
  }

  /** Incoming edges of `j` from instructions that have not been emitted, with multiplicity. */
  ghost function Incoming(b: seq<Node>, done: seq<nat>, j: nat, n: nat): nat
    requires j < |b|
  {
    if n == 0 then 0
    else Incoming(b, done, j, n - 1) + (if n - 1 in done then 0 else Multiplicity(b, n - 1, j))
  }

  /* ---------- building the graph ---------- */

  ghost predicate DefsAt(b: seq<Node>, n: nat, r: nat, list: seq<nat>)
    requires n <= |b|
  {
    forall i: nat :: i in list <==> i < n && Writes(b[i], r)
  }

  ghost predicate DefsOf(b: seq<Node>, n: nat, defs: Lists)
    requires n <= |b|
  {
    forall r: nat :: DefsAt(b, n, r, Get(defs, r))
  }

  method CollectDefs(b: seq<Node>) returns (defs: Lists)
    ensures DefsOf(b, |b|, defs)
  {
    defs := map[];
    for idx := 0 to |b|
      invariant DefsOf(b, idx, defs)
    {
      ghost var before := defs;
      if b[idx].hasDest {
        defs := Append(defs, b[idx].dest, idx);
      }
      forall r: nat
        ensures DefsAt(b, idx + 1, r, Get(defs, r))
      {
        assert DefsAt(b, idx, r, Get(before, r));
      }
    }
  }

  /** Reads of `r` since its last write before `n`. */
  ghost predicate PendingAt(b: seq<Node>, n: nat, r: nat, list: seq<nat>)
    requires n <= |b|
  {
    Distinct(list) && forall i: nat :: i in list <==> i < n && Reads(b[i], r) && Unwritten(b, i, n, r)
  }

  ghost predicate PendingOf(b: seq<Node>, n: nat, pending: Lists)
    requires n <= |b|
  {
    forall r: nat :: PendingAt(b, n, r, Get(pending, r))
  }

  ghost predicate LastWriteOf(b: seq<Node>, n: nat, last: map<nat, nat>)
    requires n <= |b|
  {
    && (forall r: nat | r in last :: last[r] < n && Writes(b[last[r]], r) && Unwritten(b, last[r], n, r))
    && (forall r: nat, k: nat | r !in last && k < n :: !Writes(b[k], r))
  }

  ghost predicate LastStoreOf(b: seq<Node>, n: nat, last: Option<nat>)
    requires n <= |b|
  {
    match last
    case None => forall k | 0 <= k < n :: !b[k].kind.StoreKind?
    case Some(s) =>
      && s < n && b[s].kind.StoreKind?
      && forall k | s < k < n :: !b[k].kind.StoreKind?
  }

  /** `after` extends `before` by edges into `idx`, exactly one from each source in `edges`. */
  ghost predicate Linked(before: Lists, after: Lists, idx: nat, edges: set<nat>) {
    forall i: nat, j: nat {:trigger Count(after, i, j)} ::
      Count(after, i, j) == Count(before, i, j) + (if j == idx && i in edges then 1 else 0)
  }

  /** One more edge, which the lists gain and the running total of `idx` counts. */
  lemma AppendLinked(before: Lists, m: Lists, idx: nat, edges: set<nat>, p: nat)
    requires Linked(before, m, idx, edges) && p !in edges
    ensures Linked(before, Append(m, p, idx), idx, edges + {p})
    ensures p < idx ==> Total(Append(m, p, idx), idx, idx) == Total(m, idx, idx) + 1
  {
    AppendCount(m, p, idx);
    AppendTotal(m, p, idx, idx);
  }

  method ClosestDef(b: seq<Node>, idx: nat, defs: seq<nat>, ghost s: nat) returns (closest: int)
    requires idx < |b| && DefsAt(b, |b|, s, defs)
    ensures -1 <= closest < idx
    ensures closest == -1 ==> forall k: nat | k < idx :: !Writes(b[k], s)
    ensures closest >= 0 ==> Writes(b[closest], s) && Unwritten(b, closest, idx, s)
  {
    closest := -1;
    for k := 0 to |defs|
      invariant -1 <= closest < idx
      invariant closest >= 0 ==> closest in defs
      invariant forall l | 0 <= l < k && defs[l] < idx :: defs[l] <= closest
    {
      if defs[k] < idx && defs[k] > closest {
        closest := defs[k];
      }
    }
    forall k: nat | closest < k < idx
      ensures !Writes(b[k], s)
    {
      assert k !in defs;
    }
  }

  method LinkReads(b: seq<Node>, idx: nat, srcs: seq<nat>, defs: Lists, before: Lists)
    returns (after: Lists, unresolved: nat)
    requires idx < |b| && DefsOf(b, |b|, defs)
    requires Distinct(srcs) && forall x: nat :: x in srcs <==> Reads(b[idx], x)
    ensures Linked(before, after, idx, set i: nat | i < idx && RawEdge(b, i, idx))
    ensures unresolved + Total(before, idx, idx) == Total(after, idx, idx)
  {
    after, unresolved := before, 0;
    ghost var edges: set<nat> := {};
    for k := 0 to |srcs|
      invariant Linked(before, after, idx, edges)
      invariant unresolved + Total(before, idx, idx) == Total(after, idx, idx)
      invariant RawSources(b, idx, srcs[..k], edges)
    {
      var s := srcs[k];
      assert DefsAt(b, |b|, s, Get(defs, s));
      var closest := ClosestDef(b, idx, Get(defs, s), s);
      assert srcs[..k + 1] == srcs[..k] + [s] && s in srcs && s !in srcs[..k];
      NextRawSource(b, idx, srcs[..k], s, closest, edges);
      if closest >= 0 {
        AppendLinked(before, after, idx, edges, closest);
        unresolved := unresolved + 1;
        after := Append(after, closest, idx);
        edges := edges + {closest};
      }
    }
    assert srcs[..|srcs|] == srcs;
    AllRawSources(b, idx, srcs, edges);
  }

  /** `edges` are the sources of the definition-to-use edges into `idx` for the registers in `regs`. */
  ghost predicate RawSources(b: seq<Node>, idx: nat, regs: seq<nat>, edges: set<nat>)
    requires idx < |b|
  {
    forall i: nat :: i in edges <==> i < idx && RawEdge(b, i, idx) && b[i].dest in regs
  }

  lemma AllRawSources(b: seq<Node>, idx: nat, srcs: seq<nat>, edges: set<nat>)
    requires idx < |b| && RawSources(b, idx, srcs, edges)
    requires forall x: nat :: x in srcs <==> Reads(b[idx], x)
    ensures edges == set i: nat | i < idx && RawEdge(b, i, idx)
  {
    assert forall i: nat | i < idx && RawEdge(b, i, idx) :: Reads(b[idx], b[i].dest);
  }

  lemma NextRawSource(b: seq<Node>, idx: nat, regs: seq<nat>, s: nat, closest: int, edges: set<nat>)
    requires idx < |b| && RawSources(b, idx, regs, edges) && s !in regs && Reads(b[idx], s)
    requires -1 <= closest < idx
    requires closest == -1 ==> forall k: nat | k < idx :: !Writes(b[k], s)
    requires closest >= 0 ==> Writes(b[closest], s) && Unwritten(b, closest, idx, s)
    ensures closest >= 0 ==> closest !in edges
    ensures RawSources(b, idx, regs + [s], if closest >= 0 then edges + {closest} else edges)
  {
    forall i: nat | i < idx && RawEdge(b, i, idx) && b[i].dest == s
      ensures i == closest
    {
      assert Writes(b[i], s);
    }
  }

  method LinkPending(b: seq<Node>, idx: nat, readers: seq<nat>, before: Lists)
    returns (after: Lists, unresolved: nat)
    requires idx < |b| && Distinct(readers) && Indices(readers, idx)
    ensures Linked(before, after, idx, Elements(readers))
    ensures unresolved + Total(before, idx, idx) == Total(after, idx, idx)
  {
    after, unresolved := before, 0;
    for k := 0 to |readers|
      invariant Linked(before, after, idx, Elements(readers[..k]))
      invariant unresolved + Total(before, idx, idx) == Total(after, idx, idx)
    {
      AppendLinked(before, after, idx, Elements(readers[..k]), readers[k]);
      unresolved := unresolved + 1;
      after := Append(after, readers[k], idx);
      assert readers[..k + 1] == readers[..k] + [readers[k]];
      assert Elements(readers[..k + 1]) == Elements(readers[..k]) + {readers[k]};
    }
    assert readers[..|readers|] == readers;
  }

  ghost function Members(o: Option<nat>): set<nat> {
    if o.Some? then {o.value} else {}
  }

  /** The last write of the register `n` writes. */
  function LastWriter(n: Node, last: map<nat, nat>): Option<nat> {
    if n.hasDest && n.dest in last then Some(last[n.dest]) else None
  }

  /** The last store before the load `n`. */
  function LastStoreFor(n: Node, last: Option<nat>): Option<nat> {
    if n.kind.LoadKind? then last else None
  }

  /** At most one more edge into `idx`. */
  method LinkOne(idx: nat, source: Option<nat>, before: Lists) returns (after: Lists, unresolved: nat)
    requires source.Some? ==> source.value < idx
    ensures Linked(before, after, idx, Members(source))
    ensures unresolved + Total(before, idx, idx) == Total(after, idx, idx)
  {
    after, unresolved := before, 0;
    if source.Some? {
      AppendLinked(before, before, idx, {}, source.value);
      assert {} + {source.value} == {source.value};
      unresolved := 1;
      after := Append(after, source.value, idx);
    }
  }

  method TrackReads(srcs: seq<nat>, idx: nat, before: Lists) returns (after: Lists)
    requires Distinct(srcs)
    ensures forall r: nat :: Get(after, r) == if r in srcs then Get(before, r) + [idx] else Get(before, r)
  {
    after := before;
    for k := 0 to |srcs|
      invariant forall r: nat :: Get(after, r) == if r in srcs[..k] then Get(before, r) + [idx] else Get(before, r)
    {
      after := Append(after, srcs[k], idx);
      assert srcs[..k + 1] == srcs[..k] + [srcs[k]];
    }
    assert srcs[..|srcs|] == srcs;
  }

  ghost predicate GraphOf(b: seq<Node>, n: nat, dependents: Lists)
    requires n <= |b|
  {
    forall i: nat, j: nat {:trigger Count(dependents, i, j)} ::
      Count(dependents, i, j) == if j < n then Multiplicity(b, i, j) else 0
  }

  /** Before `j` is processed no list names it. */
  lemma {:induction false} NoCount(b: seq<Node>, j: nat, dependents: Lists, n: nat)
    requires j <= |b| && GraphOf(b, j, dependents)
    ensures Total(dependents, j, n) == 0
  {
    if n > 0 {
      NoCount(b, j, dependents, n - 1);
    }
  }

  /** The four kinds of edges add up to the multiplicity. */
  lemma NewCounts(b: seq<Node>, idx: nat, d0: Lists, d1: Lists, d2: Lists, d3: Lists, d4: Lists,
                  raws: set<nat>, wars: set<nat>, waws: set<nat>, mems: set<nat>)
    requires idx < |b| && GraphOf(b, idx, d0)
    requires Linked(d0, d1, idx, raws) && forall i: nat :: i in raws <==> i < idx && RawEdge(b, i, idx)
    requires Linked(d1, d2, idx, wars) && forall i: nat :: i in wars <==> i < idx && WarEdge(b, i, idx)
    requires Linked(d2, d3, idx, waws) && forall i: nat :: i in waws <==> i < idx && WawEdge(b, i, idx)
    requires Linked(d3, d4, idx, mems) && forall i: nat :: i in mems <==> i < idx && MemEdge(b, i, idx)
    ensures GraphOf(b, idx + 1, d4)
    ensures forall i: nat, j: nat {:trigger Count(d4, i, j)} :: j < idx ==> Count(d4, i, j) == Count(d0, i, j)
  {
    forall i: nat, j: nat
      ensures Count(d4, i, j) == if j < idx + 1 then Multiplicity(b, i, j) else 0
      ensures j < idx ==> Count(d4, i, j) == Count(d0, i, j)
    {
      assert Count(d4, i, j) == Count(d3, i, j) + (if j == idx && i in mems then 1 else 0);
      assert Count(d3, i, j) == Count(d2, i, j) + (if j == idx && i in waws then 1 else 0);
      assert Count(d2, i, j) == Count(d1, i, j) + (if j == idx && i in wars then 1 else 0);
      assert Count(d1, i, j) == Count(d0, i, j) + (if j == idx && i in raws then 1 else 0);
    }
  }

  lemma PendingStep(b: seq<Node>, idx: nat, r: nat, list: seq<nat>)
    requires idx < |b| && PendingAt(b, idx, r, list)
    ensures
      var kept := if Writes(b[idx], r) then [] else list;
      PendingAt(b, idx + 1, r, if Reads(b[idx], r) then kept + [idx] else kept)
  {
    var kept := if Writes(b[idx], r) then [] else list;
    assert idx !in list;
    DistinctAppend(kept, idx);
    forall i: nat
      ensures Unwritten(b, i, idx + 1, r) <==> i >= idx || (Unwritten(b, i, idx, r) && !Writes(b[idx], r))
    {
    }
  }

  lemma PendingNext(b: seq<Node>, idx: nat, p0: Lists, p1: Lists, p2: Lists)
    requires idx < |b| && PendingOf(b, idx, p0)
    requires p1 == if b[idx].hasDest then p0[b[idx].dest := []] else p0
    requires forall r: nat :: Get(p2, r) == if r in SourceRegs(b[idx]) then Get(p1, r) + [idx] else Get(p1, r)
    ensures PendingOf(b, idx + 1, p2)
  {
    forall r: nat
      ensures PendingAt(b, idx + 1, r, Get(p2, r))
    {
      PendingStep(b, idx, r, Get(p0, r));
      assert Get(p1, r) == if Writes(b[idx], r) then [] else Get(p0, r);
    }
  }

  lemma WarSources(b: seq<Node>, idx: nat, readers: seq<nat>)
    requires idx < |b| && (b[idx].hasDest ==> PendingAt(b, idx, b[idx].dest, readers))
    requires !b[idx].hasDest ==> readers == []
    ensures Indices(readers, idx) && Distinct(readers)
    ensures forall i: nat :: i in Elements(readers) <==> i < idx && WarEdge(b, i, idx)
  {
    forall k | 0 <= k < |readers|
      ensures readers[k] < idx
    {
      assert readers[k] in readers;
    }
  }

  lemma WawSources(b: seq<Node>, idx: nat, last: map<nat, nat>)
    requires idx < |b| && LastWriteOf(b, idx, last)
    ensures LastWriteOf(b, idx + 1, if b[idx].hasDest then last[b[idx].dest := idx] else last)
    ensures LastWriter(b[idx], last).Some? ==> LastWriter(b[idx], last).value < idx
    ensures forall i: nat :: i in Members(LastWriter(b[idx], last)) <==> i < idx && WawEdge(b, i, idx)
  {
    if b[idx].hasDest && b[idx].dest in last {
      assert Writes(b[last[b[idx].dest]], b[idx].dest);
      forall i: nat | i < idx && WawEdge(b, i, idx)
        ensures i == last[b[idx].dest]
      {
        assert Writes(b[i], b[idx].dest);
      }
    } else if b[idx].hasDest {
      forall i: nat | i < idx
        ensures !WawEdge(b, i, idx)
      {
        assert !Writes(b[i], b[idx].dest);
      }
    }
  }

  lemma MemSources(b: seq<Node>, idx: nat, last: Option<nat>)
    requires idx < |b| && LastStoreOf(b, idx, last)
    ensures LastStoreOf(b, idx + 1, if b[idx].kind.StoreKind? then Some(idx) else last)
    ensures LastStoreFor(b[idx], last).Some? ==> LastStoreFor(b[idx], last).value < idx
    ensures forall i: nat :: i in Members(LastStoreFor(b[idx], last)) <==> i < idx && MemEdge(b, i, idx)
  {
  }

  /** All edges into one instruction. */
  method LinkEdges(b: seq<Node>, idx: nat, defs: Lists, pending: Lists, lastWrite: map<nat, nat>,
                   lastStore: Option<nat>, before: Lists)
    returns (after: Lists, unresolved: nat)
    requires idx < |b| && DefsOf(b, |b|, defs) && GraphOf(b, idx, before)
    requires PendingOf(b, idx, pending) && LastWriteOf(b, idx, lastWrite) && LastStoreOf(b, idx, lastStore)
    ensures GraphOf(b, idx + 1, after)
    ensures unresolved == Total(after, idx, idx)
    ensures forall j: nat | j < idx :: Total(after, j, j) == Total(before, j, j)
  {
    var inst := b[idx];
    var more: nat;
    NoCount(b, idx, before, idx);

    // closest definition of each source
    after, unresolved := LinkReads(b, idx, SourceRegs(inst), defs, before);
    ghost var d1 := after;
    ghost var raws := set i: nat | i < idx && RawEdge(b, i, idx);

    // earlier reads of the register written here
    var readers := if inst.hasDest then Get(pending, inst.dest) else [];
    assert PendingAt(b, idx, inst.dest, Get(pending, inst.dest));
    WarSources(b, idx, readers);
    after, more := LinkPending(b, idx, readers, after);
    unresolved := unresolved + more;
    ghost var d2 := after;

    // last write of the same register
    WawSources(b, idx, lastWrite);
    var writer := LastWriter(inst, lastWrite);
    after, more := LinkOne(idx, writer, after);
    unresolved := unresolved + more;
    ghost var d3 := after;

    // last store before a load
    MemSources(b, idx, lastStore);
    var store := LastStoreFor(inst, lastStore);
    after, more := LinkOne(idx, store, after);
    unresolved := unresolved + more;

    NewCounts(b, idx, before, d1, d2, d3, after, raws, Elements(readers), Members(writer), Members(store));
    KeptTotals(before, after, idx);
  }

  lemma KeptTotals(before: Lists, after: Lists, idx: nat)
    requires forall i: nat, j: nat {:trigger Count(after, i, j)} :: j < idx ==> Count(after, i, j) == Count(before, i, j)
    ensures forall j: nat | j < idx :: Total(after, j, j) == Total(before, j, j)
  {
    forall j: nat | j < idx
      ensures Total(after, j, j) == Total(before, j, j)
    {
      TotalOf(after, before, j, j);
    }
  }

  lemma {:induction false} TotalIncoming(b: seq<Node>, dependents: Lists, j: nat, n: nat)
    requires j < |b| && GraphOf(b, |b|, dependents)
    ensures Total(dependents, j, n) == Incoming(b, [], j, n)
    ensures n >= j ==> Incoming(b, [], j, n) == Incoming(b, [], j, j)
  {
    if n > 0 {
      TotalIncoming(b, dependents, j, n - 1);
      assert Count(dependents, n - 1, j) == Multiplicity(b, n - 1, j);
    }
  }

  /** What later instructions need to know about the one just linked. */
  method Track(b: seq<Node>, idx: nat, pending: Lists, lastWrite: map<nat, nat>, lastStore: Option<nat>)
    returns (pending': Lists, lastWrite': map<nat, nat>, lastStore': Option<nat>)
    requires idx < |b|
    requires PendingOf(b, idx, pending) && LastWriteOf(b, idx, lastWrite) && LastStoreOf(b, idx, lastStore)
    ensures PendingOf(b, idx + 1, pending') && LastWriteOf(b, idx + 1, lastWrite')
    ensures LastStoreOf(b, idx + 1, lastStore')
  {
    var inst := b[idx];
    pending', lastWrite', lastStore' := pending, lastWrite, lastStore;
    WawSources(b, idx, lastWrite);
    MemSources(b, idx, lastStore);
    if inst.hasDest {
      // reads before this write are now accounted for
      pending' := pending'[inst.dest := []];
      lastWrite' := lastWrite'[inst.dest := idx];
    }
    ghost var cleared := pending';
    pending' := TrackReads(SourceRegs(inst), idx, pending');
    PendingNext(b, idx, pending, cleared, pending');
    if inst.kind.StoreKind? {
      lastStore' := Some(idx);
    }
  }

  method BuildGraph(b: seq<Node>) returns (depCount: seq<nat>, dependents: Lists, ready: seq<nat>)
    ensures GraphOf(b, |b|, dependents)
    ensures |depCount| == |b| && forall j | 0 <= j < |b| :: depCount[j] == Incoming(b, [], j, |b|)
    ensures Distinct(ready) && forall j: nat :: j in ready <==> j < |b| && depCount[j] == 0
  {
    hide Incoming, Total;
    var allDefPos := CollectDefs(b);
    ready, depCount, dependents := [], [], map[];
    var lastStore: Option<nat> := None;
    var lastWritePos: map<nat, nat> := map[];
    var pendingReads: Lists := map[];
    assert forall r: nat :: PendingAt(b, 0, r, Get(pendingReads, r));
    for idx := 0 to |b|
      invariant PendingOf(b, idx, pendingReads) && LastWriteOf(b, idx, lastWritePos) && LastStoreOf(b, idx, lastStore)
      invariant GraphOf(b, idx, dependents)
      invariant |depCount| == idx && forall j | 0 <= j < idx :: depCount[j] == Total(dependents, j, j)
      invariant Distinct(ready) && forall j: nat :: j in ready <==> j < idx && depCount[j] == 0
    {
      var unresolved: nat;
      dependents, unresolved := LinkEdges(b, idx, allDefPos, pendingReads, lastWritePos, lastStore, dependents);

      pendingReads, lastWritePos, lastStore := Track(b, idx, pendingReads, lastWritePos, lastStore);
      depCount := depCount + [unresolved];
      if unresolved == 0 {
        DistinctAppend(ready, idx);
        ready := ready + [idx];
      }
    }
    forall j: nat | j < |b|
      ensures depCount[j] == Incoming(b, [], j, |b|)
    {
      TotalIncoming(b, dependents, j, j);
      TotalIncoming(b, dependents, j, |b|);
    }
  }

  /* ---------- the ready list ---------- */

  /** Insertion by the sort key (priority, position). */
  function Insert(b: seq<Node>, x: nat, s: seq<nat>): (r: seq<nat>)
    requires x < |b| && Indices(s, |b|)
    ensures Indices(r, |b|)
  {
    if s == [] || Before(b, x, s[0]) then [x] + s else [s[0]] + Insert(b, x, s[1..])
  }

  predicate SortedByKey(b: seq<Node>, s: seq<nat>) {
    Indices(s, |b|) && forall p, q | 0 <= p < q < |s| :: !Before(b, s[q], s[p])
  }

  lemma {:induction false} InsertMembers(b: seq<Node>, x: nat, s: seq<nat>)
    requires x < |b| && Indices(s, |b|)
    ensures forall y: nat :: y in Insert(b, x, s) <==> y == x || y in s
  {
    if s != [] && !Before(b, x, s[0]) {
      InsertMembers(b, x, s[1..]);
      assert s == [s[0]] + s[1..];
    }
  }

  lemma {:induction false} InsertSorted(b: seq<Node>, x: nat, s: seq<nat>)
    requires x < |b| && SortedByKey(b, s) && Distinct(s) && x !in s
    ensures SortedByKey(b, Insert(b, x, s)) && Distinct(Insert(b, x, s))
  {
    if s == [] || Before(b, x, s[0]) {
      assert forall k | 0 <= k < |s| :: !Before(b, s[k], x);
    } else {
      hide Before;
      var tail := Insert(b, x, s[1..]);
      InsertSorted(b, x, s[1..]);
      InsertMembers(b, x, s[1..]);
      forall k | 0 <= k < |tail|
        ensures !Before(b, tail[k], s[0]) && tail[k] != s[0]
      {
        assert tail[k] in tail;
      }
    }
  }

  /** `ready.sort(...)`: the same instructions, in key order. */
  method SortReady(b: seq<Node>, ready: seq<nat>) returns (sorted: seq<nat>)
    requires Indices(ready, |b|) && Distinct(ready)
    ensures SortedByKey(b, sorted) && Distinct(sorted)
    ensures forall y: nat :: y in sorted <==> y in ready
    ensures SortedByKind(b, sorted)
  {
    sorted := [];
    for k := 0 to |ready|
      invariant SortedByKey(b, sorted) && Distinct(sorted)
      invariant forall y: nat :: y in sorted <==> y in ready[..k]
    {
      InsertMembers(b, ready[k], sorted);
      InsertSorted(b, ready[k], sorted);
      sorted := Insert(b, ready[k], sorted);
      assert ready[..k + 1] == ready[..k] + [ready[k]];
    }
    assert ready[..|ready|] == ready;
    KeyIsKind(b, sorted);
  }

  /** Every instruction goes before those listed after it. */
  predicate SortedByKind(b: seq<Node>, s: seq<nat>)
    requires Indices(s, |b|)
  {
    forall p, q | 0 <= p < q < |s| :: GoesFirst(b[s[p]].kind, s[p], b[s[q]].kind, s[q])
  }

  lemma KeyIsKind(b: seq<Node>, s: seq<nat>)
    requires SortedByKey(b, s) && Distinct(s)
    ensures SortedByKind(b, s)
  {
    forall p, q | 0 <= p < q < |s|
      ensures GoesFirst(b[s[p]].kind, s[p], b[s[q]].kind, s[q])
    {
      BeforeIsFirst(b, s[q], s[p]);
      FirstAsymmetric(b[s[p]].kind, s[p], b[s[q]].kind, s[q]);
    }
  }

  /** The counting invariant: a count is the number of incoming edges whose source is not emitted. */
  ghost predicate CountsOf(b: seq<Node>, done: seq<nat>, pending: seq<nat>, depCount: seq<nat>) {
    && |depCount| == |b|
    && forall j | 0 <= j < |b| :: depCount[j] == Incoming(b, done, j, |b|) + Occurs(pending, j)
  }

  /** The ready list holds, once each, the instructions that are not emitted and have count zero. */
  ghost predicate ReadyList(b: seq<Node>, done: seq<nat>, depCount: seq<nat>, ready: seq<nat>) {
    && |depCount| == |b| && Distinct(ready)
    && (forall j: nat :: j in ready <==> j < |b| && j !in done && depCount[j] == 0)
    && (forall j: nat | j in done && j < |b| :: depCount[j] == 0)
  }

  lemma {:induction false} IncomingZero(b: seq<Node>, done: seq<nat>, j: nat, n: nat)
    requires j < |b|
    ensures Incoming(b, done, j, n) == 0 <==> forall i: nat | i < n && Edge(b, i, j) :: i in done
  {
    if n > 0 {
      IncomingZero(b, done, j, n - 1);
      assert Multiplicity(b, n - 1, j) == 0 <==> !Edge(b, n - 1, j);
    }
  }

  /** Emitting `best` releases its outgoing edges. */
  lemma {:induction false} IncomingDone(b: seq<Node>, done: seq<nat>, best: nat, j: nat, n: nat)
    requires j < |b| && best !in done
    ensures Incoming(b, done, j, n)
         == Incoming(b, done + [best], j, n) + (if best < n then Multiplicity(b, best, j) else 0)
  {
    if n > 0 {
      IncomingDone(b, done, best, j, n - 1);
    }
  }

  lemma ReadyMeans(b: seq<Node>, done: seq<nat>, depCount: seq<nat>, ready: seq<nat>, j: nat)
    requires CountsOf(b, done, [], depCount) && ReadyList(b, done, depCount, ready)
    ensures j in ready <==> Ready(b, done, j)
  {
    if j < |b| {
      IncomingZero(b, done, j, |b|);
    }
  }

  /** The head of the sorted ready list is the best ready instruction. */
  lemma HeadIsBest(b: seq<Node>, done: seq<nat>, depCount: seq<nat>, sorted: seq<nat>)
    requires CountsOf(b, done, [], depCount) && ReadyList(b, done, depCount, sorted)
    requires SortedByKey(b, sorted) && sorted != []
    ensures Best(b, done, sorted[0])
  {
    ReadyMeans(b, done, depCount, sorted, sorted[0]);
    forall i | 0 <= i < |b| && Ready(b, done, i)
      ensures !Before(b, i, sorted[0])
    {
      ReadyMeans(b, done, depCount, sorted, i);
    }
  }

  /** Popping `best` moves it from the ready list to the schedule and leaves its edges to be released. */
  lemma PopBest(b: seq<Node>, done: seq<nat>, depCount: seq<nat>, sorted: seq<nat>, dependents: Lists)
    requires GraphOf(b, |b|, dependents)
    requires CountsOf(b, done, [], depCount) && ReadyList(b, done, depCount, sorted) && sorted != []
    ensures CountsOf(b, done + [sorted[0]], Get(dependents, sorted[0]), depCount)
    ensures ReadyList(b, done + [sorted[0]], depCount, sorted[1..])
  {
    var best := sorted[0];
    assert best in sorted;
    forall j: nat | j < |b|
      ensures depCount[j] == Incoming(b, done + [best], j, |b|) + Occurs(Get(dependents, best), j)
    {
      IncomingDone(b, done, best, j, |b|);
      assert Count(dependents, best, j) == Multiplicity(b, best, j);
    }
    assert sorted == [best] + sorted[1..];
  }

  /** Releasing one edge to `dep`. */
  lemma ReleaseOne(b: seq<Node>, done: seq<nat>, depCount: seq<nat>, ready: seq<nat>, edges: seq<nat>)
    requires CountsOf(b, done, edges, depCount) && ReadyList(b, done, depCount, ready)
    requires edges != [] && edges[0] < |b|
    ensures depCount[edges[0]] > 0
    ensures
      var dep := edges[0];
      var counts := depCount[dep := depCount[dep] - 1];
      && CountsOf(b, done, edges[1..], counts)
      && ReadyList(b, done, counts, if counts[dep] == 0 then ready + [dep] else ready)
  {
    var dep := edges[0];
    assert Occurs(edges, dep) > 0;
    assert dep !in done && dep !in ready;
    DistinctAppend(ready, dep);
    var counts := depCount[dep := depCount[dep] - 1];
    forall j: nat | j < |b|
      ensures counts[j] == Incoming(b, done, j, |b|) + Occurs(edges[1..], j)
    {
      assert Occurs(edges, j) == (if dep == j then 1 else 0) + Occurs(edges[1..], j);
    }
  }

  lemma {:induction false} NoOccurrence(s: seq<nat>, x: nat)
    ensures Occurs(s, x) == 0 <==> x !in s
  {
    if s != [] {
      NoOccurrence(s[1..], x);
      assert x in s <==> x == s[0] || x in s[1..];
    }
  }

  /** The edge lists only name instructions of the block. */
  lemma TargetsInBlock(b: seq<Node>, dependents: Lists, i: nat)
    requires GraphOf(b, |b|, dependents)
    ensures Indices(Get(dependents, i), |b|)
  {
    forall k | 0 <= k < |Get(dependents, i)|
      ensures Get(dependents, i)[k] < |b|
    {
      var j := Get(dependents, i)[k];
      NoOccurrence(Get(dependents, i), j);
      assert Count(dependents, i, j) > 0;
    }
  }

  /** When nothing is ready everything has been emitted. */
  lemma NeverStalls(b: seq<Node>, done: seq<nat>, depCount: seq<nat>)
    requires GreedyPrefix(b, done)
    requires CountsOf(b, done, [], depCount) && ReadyList(b, done, depCount, [])
    ensures Greedy(b, done) && |done| == |b|
  {
    if j: nat :| j < |b| && j !in done {
      var m := LeastMissing(|b|, done, j);
      LeastIsReady(b, done, m);
      ReadyMeans(b, done, depCount, [], m);
    }
    GreedyLength(b, done);
  }

  /** The order in which the ready list is drained. */
  method ListSchedule(b: seq<Node>) returns (scheduled: seq<nat>)
    ensures Greedy(b, scheduled) && |scheduled| == |b|
  {
    var depCount: seq<nat>, dependents: Lists, ready: seq<nat>;
    depCount, dependents, ready := BuildGraph(b);
    scheduled := [];
    while ready != []
      invariant GreedyPrefix(b, scheduled)
      invariant CountsOf(b, scheduled, [], depCount) && ReadyList(b, scheduled, depCount, ready)
      decreases |b| - |scheduled|
    {
      assert Indices(ready, |b|) by {
        forall k | 0 <= k < |ready| ensures ready[k] < |b| { assert ready[k] in ready; }
      }
      ghost var unsorted := ready;
      ready := SortReady(b, ready);
      assert unsorted[0] in ready;
      HeadIsBest(b, scheduled, depCount, ready);
      PopBest(b, scheduled, depCount, ready, dependents);
      var best := ready[0];
      GreedyExtend(b, scheduled, best);
      ready := ready[1..];
      scheduled := scheduled + [best];
      GreedyFacts(b, scheduled);
      DistinctBound(scheduled, |b|);
      TargetsInBlock(b, dependents, best);
      depCount, ready := Release(b, scheduled, Get(dependents, best), depCount, ready);
    }
    NeverStalls(b, scheduled, depCount);
  }

  /** Count down the dependents of the emitted instruction. */
  method Release(b: seq<Node>, ghost done: seq<nat>, edges: seq<nat>, counts: seq<nat>, list: seq<nat>)
    returns (depCount: seq<nat>, ready: seq<nat>)
    requires Indices(edges, |b|)
    requires CountsOf(b, done, edges, counts) && ReadyList(b, done, counts, list)
    ensures CountsOf(b, done, [], depCount) && ReadyList(b, done, depCount, ready)
  {
    depCount, ready := counts, list;
    for k := 0 to |edges|
      invariant CountsOf(b, done, edges[k..], depCount) && ReadyList(b, done, depCount, ready)
    {
      ReleaseOne(b, done, depCount, ready, edges[k..]);
      assert edges[k..][1..] == edges[k + 1..];
      var dep := edges[k];
      depCount := depCount[dep := depCount[dep] - 1];
      if depCount[dep] == 0 {
        ready := ready + [dep];
      }
    }
    assert edges[|edges|..] == [];
  }

  /**
   Schedule one block. `None` is the error the source raises when the graph does not resolve; it never
   happens.
   */
  method ScheduleBlock(insts: seq<Inst>) returns (r: Option<seq<Inst>>)
    ensures r == Some(Scheduled(insts))
    ensures |insts| > 2 ==> ListedInTurn(insts, r.value)
    ensures |insts| <= 2 || InKindOrder(insts) ==> r.value == insts
  {
    if |insts| <= 2 {
      return Some(insts);
    }
    ScheduledInTurn(insts);
    if InKindOrder(insts) {
      InOrderUnchanged(insts);
    }
    var nodes := NodesOf(insts);
    var scheduled := ListSchedule(nodes);
    if |scheduled| != |insts| {
      return None;
    }
    GreedyLength(nodes, scheduled);
    GreedyOrderIsGreedy(nodes);
    GreedyUnique(nodes, scheduled, GreedyOrder(nodes));
    r := Some(Pick(insts, scheduled));
  }
}
