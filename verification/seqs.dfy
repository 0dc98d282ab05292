/** Sequence helpers shared by the model: order-preserving filtering and
    integer sums, as the array helpers of the component code compute them. */
module Seqs {

  /** The elements of `s` that satisfy `p`, in their order. */
  function Filter<T(==)>(s: seq<T>, p: T -> bool): (r: seq<T>)
    ensures |r| <= |s|
  {
    if s == [] then []
    else
      var init := Filter(s[..|s| - 1], p);
      var last := s[|s| - 1];
      if p(last) then init + [last] else init
  }

  /** One unfolding of `Filter` at the last element. */
  lemma FilterSnoc<T(!new)>(s: seq<T>, p: T -> bool)
    requires s != []
    ensures Filter(s, p) == Filter(s[..|s| - 1], p) + (if p(s[|s| - 1]) then [s[|s| - 1]] else [])
  {
    if !p(s[|s| - 1]) {
      assert Filter(s[..|s| - 1], p) + [] == Filter(s[..|s| - 1], p);
    }
  }

  predicate StrictlyIncreasing(idx: seq<nat>) {
    forall i, j :: 0 <= i < j < |idx| ==> idx[i] < idx[j]
  }

  /** `idx` lists, in increasing order, the positions of `s` whose element
      satisfies `p`, and they are the positions the filter keeps. */
  ghost predicate KeptPositions<T(!new)>(s: seq<T>, p: T -> bool, idx: seq<nat>) {
    && |idx| == |Filter(s, p)| && StrictlyIncreasing(idx)
    && (forall i :: 0 <= i < |idx| ==> idx[i] < |s| && Filter(s, p)[i] == s[idx[i]])
    && (forall j :: 0 <= j < |s| ==> (p(s[j]) <==> j in idx))
  }

  lemma PositionsKeep<T(!new)>(s: seq<T>, p: T -> bool, prev: seq<nat>)
    requires s != [] && p(s[|s| - 1]) && KeptPositions(s[..|s| - 1], p, prev)
    ensures KeptPositions(s, p, prev + [|s| - 1])
  {
    var n := |s| - 1;
    var idx := prev + [n];
    FilterSnoc(s, p);
    assert Filter(s, p) == Filter(s[..n], p) + [s[n]];
    forall i | 0 <= i < |idx|
      ensures idx[i] < |s| && Filter(s, p)[i] == s[idx[i]]
    {
      if i < |prev| {
        assert s[..n][prev[i]] == s[prev[i]];
      }
    }
    forall j | 0 <= j < |s|
      ensures p(s[j]) <==> j in idx
    {
      if j < n {
        assert s[..n][j] == s[j];
        assert j in idx <==> j in prev;
      }
    }
  }

  lemma PositionsDrop<T(!new)>(s: seq<T>, p: T -> bool, prev: seq<nat>)
    requires s != [] && !p(s[|s| - 1]) && KeptPositions(s[..|s| - 1], p, prev)
    ensures KeptPositions(s, p, prev)
  {
    var n := |s| - 1;
    FilterSnoc(s, p);
    forall j | 0 <= j < |s|
      ensures p(s[j]) <==> j in prev
    {
      if j < n {
        assert s[..n][j] == s[j];
      }
    }
  }

  /** The filter keeps, in their original order, exactly the positions whose
      element satisfies `p`: it is an order-preserving subsequence. */
  lemma {:induction false} FilterPositions<T(!new)>(s: seq<T>, p: T -> bool) returns (idx: seq<nat>)
    ensures KeptPositions(s, p, idx)
  {
    if s == [] {
      idx := [];
    } else {
      var prev := FilterPositions(s[..|s| - 1], p);
      if p(s[|s| - 1]) {
        PositionsKeep(s, p, prev);
        idx := prev + [|s| - 1];
      } else {
        PositionsDrop(s, p, prev);
        idx := prev;
      }
    }
  }

  /** The filter keeps exactly the elements that pass. */
  lemma FilterMembers<T(!new)>(s: seq<T>, p: T -> bool)
    ensures forall x :: x in Filter(s, p) <==> x in s && p(x)
  {
    var idx := FilterPositions(s, p);
    var r := Filter(s, p);
    forall x | x in s && p(x)
      ensures x in r
    {
      var j :| 0 <= j < |s| && s[j] == x;
      assert j in idx;
      var i :| 0 <= i < |idx| && idx[i] == j;
      assert r[i] == x;
    }
  }

  /** Every kept element passes. */
  lemma FilterSatisfies<T(!new)>(s: seq<T>, p: T -> bool)
    ensures forall i :: 0 <= i < |Filter(s, p)| ==> p(Filter(s, p)[i])
  {
    FilterMembers(s, p);
    var r := Filter(s, p);
    assert forall i :: 0 <= i < |r| ==> r[i] in r;
  }

  /** When nothing passes, nothing is kept. */
  lemma {:induction false} FilterNonePass<T(!new)>(s: seq<T>, p: T -> bool)
    requires forall i :: 0 <= i < |s| ==> !p(s[i])
    ensures Filter(s, p) == []
  {
    if s != [] {
      FilterNonePass(s[..|s| - 1], p);
    }
  }

  /** Filtering an already filtered sequence changes nothing. */
  lemma {:induction false} FilterIdempotent<T(!new)>(s: seq<T>, p: T -> bool)
    ensures Filter(Filter(s, p), p) == Filter(s, p)
  {
    if s != [] {
      var n := |s| - 1;
      FilterIdempotent(s[..n], p);
      var init := Filter(s[..n], p);
      if p(s[n]) {
        assert (init + [s[n]])[..|init|] == init;
      }
    }
  }

  /** A sequence whose every element passes is returned unchanged. */
  lemma {:induction false} FilterAllPass<T(!new)>(s: seq<T>, p: T -> bool)
    requires forall i :: 0 <= i < |s| ==> p(s[i])
    ensures Filter(s, p) == s
  {
    if s != [] {
      FilterAllPass(s[..|s| - 1], p);
      assert s == s[..|s| - 1] + [s[|s| - 1]];
    }
  }

  /** Filtering distributes over concatenation. */
  lemma {:induction false} FilterAppend<T(!new)>(a: seq<T>, b: seq<T>, p: T -> bool)
    ensures Filter(a + b, p) == Filter(a, p) + Filter(b, p)
    decreases |b|
  {
    if b == [] {
      assert a + b == a;
    } else {
      var n := |b| - 1;
      FilterAppend(a, b[..n], p);
      assert (a + b)[..|a + b| - 1] == a + b[..n];
    }
  }

  /** The sum of a sequence of integers, added from the left. */
  function Sum(s: seq<int>): int {
    if s == [] then 0 else Sum(s[..|s| - 1]) + s[|s| - 1]
  }

  lemma {:induction false} SumAppend(a: seq<int>, b: seq<int>)
    ensures Sum(a + b) == Sum(a) + Sum(b)
    decreases |b|
  {
    if b == [] {
      assert a + b == a;
    } else {
      SumAppend(a, b[..|b| - 1]);
      assert (a + b)[..|a + b| - 1] == a + b[..|b| - 1];
    }
  }

  /** Bounds on each term bound the sum. */
  lemma {:induction false} SumBounds(s: seq<int>, lo: int, hi: int)
    requires forall i :: 0 <= i < |s| ==> lo <= s[i] <= hi
    ensures lo * |s| <= Sum(s) <= hi * |s|
  {
    if s != [] {
      SumBounds(s[..|s| - 1], lo, hi);
    }
  }

  function Zeros(n: nat): (z: seq<int>)
    ensures |z| == n && forall i :: 0 <= i < n ==> z[i] == 0
  {
    seq(n, i => 0)
  }

  lemma SumZeros(n: nat)
    ensures Sum(Zeros(n)) == 0
  {
    SumBounds(Zeros(n), 0, 0);
  }
}
