/** Small facts about duplicate-free sequences, finite ranges, counting and induction. */
module Sequences {

  predicate Distinct<T(==)>(s: seq<T>) {
    forall p, q | 0 <= p < q < |s| :: s[p] != s[q]
  }

  lemma DistinctAppend<T>(s: seq<T>, x: T)
    requires Distinct(s) && x !in s
    ensures Distinct(s + [x])
  {
  }

  /** How often `x` occurs in `s`. */
  function Occurs(s: seq<nat>, x: nat): nat {
    if s == [] then 0 else (if s[0] == x then 1 else 0) + Occurs(s[1..], x)
  }

  lemma {:induction false} OccursAppend(s: seq<nat>, t: seq<nat>, x: nat)
    ensures Occurs(s + t, x) == Occurs(s, x) + Occurs(t, x)
  {
    if s == [] {
      assert s + t == t;
    } else {
      assert (s + t)[1..] == s[1..] + t;
      OccursAppend(s[1..], t, x);
    }
  }

  predicate Indices(s: seq<nat>, n: nat) {
    forall k | 0 <= k < |s| :: s[k] < n
  }

  function Elements<T>(s: seq<T>): set<T>
  {
    set x | x in s
  }

  /** The natural numbers below `n`. */
  function Range(n: nat): (r: set<nat>)
    ensures |r| == n
    ensures forall i: nat :: i in r <==> i < n
  {
    if n == 0 then {} else Range(n - 1) + {n - 1}
  }

  lemma SubsetSize<T>(a: set<T>, b: set<T>)
    requires a <= b
    ensures |a| <= |b|
    ensures |a| == |b| ==> a == b
  {
    assert b == a + (b - a);
  }

  lemma {:induction false} DistinctSize<T>(s: seq<T>)
    requires Distinct(s)
    ensures |Elements(s)| == |s|
  {
    if s != [] {
      var t, x := s[..|s| - 1], s[|s| - 1];
      DistinctSize(t);
      assert x !in Elements(t);
      assert Elements(s) == Elements(t) + {x};
    }
  }

  /** Pigeonhole: a duplicate-free sequence below `n` has at most `n` entries, and exactly `n` when it covers. */
  lemma DistinctBound(s: seq<nat>, n: nat)
    requires Distinct(s) && Indices(s, n)
    ensures |s| <= n
    ensures |s| == n <==> forall i: nat | i < n :: i in s
  {
    DistinctSize(s);
    assert Elements(s) <= Range(n);
    SubsetSize(Elements(s), Range(n));
    if |s| == n {
      forall i: nat | i < n
        ensures i in s
      {
        assert i in Range(n);
      }
    } else if forall i: nat | i < n :: i in s {
      assert Range(n) <= Elements(s);
      SubsetSize(Range(n), Elements(s));
    }
  }

  /** `s` is a permutation of the numbers below `n`. */
  predicate Permutation(s: seq<nat>, n: nat) {
    |s| == n && Distinct(s) && Indices(s, n)
  }

  lemma PermutationCovers(s: seq<nat>, n: nat, x: nat) returns (p: nat)
    requires Permutation(s, n) && x < n
    ensures p < n && s[p] == x
  {
    DistinctBound(s, n);
    assert x in s;
    p :| 0 <= p < n && s[p] == x;
  }

  /** Induction up to a bound. */
  lemma {:induction false} Induction(p: nat -> bool, n: nat)
    requires p(0) && forall k: nat | k < n && p(k) :: p(k + 1)
    ensures p(n)
  {
    if n > 0 {
      Induction(p, n - 1);
    }
  }

  lemma SliceLeft<T>(a: seq<T>, b: seq<T>)
    ensures (a + b)[0..|a|] == a
  {
  }

  lemma SliceRight<T>(a: seq<T>, b: seq<T>, i: nat, j: nat)
    requires |a| <= i <= j <= |a| + |b|
    ensures (a + b)[i..j] == b[i - |a|..j - |a|]
  {
  }

  /** From each position `s`, `text(s)` is the piece that starts there and the text from its end on. */
  ghost predicate Pieces<T(!new)>(size: nat, starts: nat -> bool, end: nat -> nat, text: nat -> seq<T>,
                                  piece: nat -> seq<T>) {
    && (forall s: nat {:trigger piece(s)} | s < size ::
          s < end(s) <= size && |piece(s)| == end(s) - s && text(s) == piece(s) + text(end(s)))
    && (forall s: nat {:trigger text(s)} | s <= size :: |text(s)| == size - s)
    && (forall s: nat, i: nat {:trigger end(s), starts(i)} | s < size && s < i < end(s) :: !starts(i))
  }

  lemma PieceFacts<T(!new)>(size: nat, starts: nat -> bool, end: nat -> nat, text: nat -> seq<T>, piece: nat -> seq<T>,
                            s: nat, t: nat)
    requires Pieces(size, starts, end, text, piece) && s <= t < size && starts(t)
    ensures s < end(s) <= size && |piece(s)| == end(s) - s && text(s) == piece(s) + text(end(s))
    ensures |text(s)| == size - s && (s < t ==> end(s) <= t)
  {
    assert |piece(s)| == end(s) - s;
  }

  lemma {:induction false} PieceAt<T(!new)>(size: nat, starts: nat -> bool, end: nat -> nat, text: nat -> seq<T>,
                                            piece: nat -> seq<T>, s: nat, t: nat)
    requires Pieces(size, starts, end, text, piece) && s <= t < size && starts(t)
    ensures t <= end(t) <= size && |text(s)| == size - s && text(s)[t - s..end(t) - s] == piece(t)
    decreases t - s
  {
    hide Pieces;
    PieceFacts(size, starts, end, text, piece, s, t);
    PieceFacts(size, starts, end, text, piece, t, t);
    if s < t {
      PieceAt(size, starts, end, text, piece, end(s), t);
      SliceRight(piece(s), text(end(s)), t - s, end(t) - s);
    } else {
      SliceLeft(piece(s), text(end(s)));
    }
  }

  predicate Grown<T(==)>(prefix: nat -> seq<T>, piece: nat -> seq<T>, i: nat) { prefix(i + 1) == prefix(i) + piece(i) }

  /** In a text built piece by piece, each piece is where the text before it ended. */
  lemma {:induction false} PrefixAt<T>(prefix: nat -> seq<T>, piece: nat -> seq<T>, n: nat, j: nat, k: nat)
    requires forall i: nat | i < n :: Grown(prefix, piece, i)
    requires j < n && k < |piece(j)|
    ensures |prefix(j)| + k < |prefix(n)| && prefix(n)[|prefix(j)| + k] == piece(j)[k]
    decreases n
  {
    assert Grown(prefix, piece, n - 1);
    if j < n - 1 {
      PrefixAt(prefix, piece, n - 1, j, k);
    }
  }

  lemma PieceIn<T>(prefix: nat -> seq<T>, piece: nat -> seq<T>, n: nat, j: nat, k: nat, text: seq<T>, at: nat,
                   part: seq<T>)
    requires forall i: nat | i < n :: Grown(prefix, piece, i)
    requires j < n && text == prefix(n) && at == |prefix(j)| && part == piece(j) && k < |part|
    ensures at + k < |text| && text[at + k] == part[k]
  {
    PrefixAt(prefix, piece, n, j, k);
  }
}
