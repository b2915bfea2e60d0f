/**
 Sequence helpers shared by the two summation scripts: the integer range
 `[lo, hi)`, an order-preserving filter (a boolean mask) and a sum.
 All three are defined by peeling off the LAST element, so that they line up
 with a loop that extends its prefix one element at a time.
 */
module Seqs {

  /** The integers `lo, lo+1, ..., hi-1`; empty when `hi <= lo`. */
  function Range(lo: int, hi: int): (r: seq<int>)
    ensures |r| == if hi <= lo then 0 else hi - lo
    ensures forall i :: 0 <= i < |r| ==> r[i] == lo + i
    decreases hi - lo
  {
    if hi <= lo then [] else Range(lo, hi - 1) + [hi - 1]
  }

  /** Sum of the elements of `s`. */
  function Sum(s: seq<int>): int
  {
    if s == [] then 0 else Sum(s[..|s| - 1]) + s[|s| - 1]
  }

  /** The elements of `s` that satisfy `p`, in their original order. */
  function Filter(p: int -> bool, s: seq<int>): (r: seq<int>)
    ensures |r| <= |s|
    ensures forall x :: x in r ==> x in s && p(x)
  {
    if s == [] then []
    else
      var init := s[..|s| - 1];
      assert s == init + [s[|s| - 1]];
      Filter(p, init) + (if p(s[|s| - 1]) then [s[|s| - 1]] else [])
  }

  /**
   Filtering keeps every occurrence of an element that satisfies `p` and no
   occurrence of one that does not.
   */
  lemma {:induction false} FilterCounts(p: int -> bool, s: seq<int>, x: int)
    ensures multiset(Filter(p, s))[x] == if p(x) then multiset(s)[x] else 0
    decreases |s|
  {
    if s != [] {
      var init := s[..|s| - 1];
      var last := s[|s| - 1];
      assert s == init + [last];
      FilterCounts(p, init, x);
    }
  }

  lemma {:induction false} SumAppend(a: seq<int>, b: seq<int>)
    ensures Sum(a + b) == Sum(a) + Sum(b)
    decreases |b|
  {
    if b == [] {
      assert a + b == a;
    } else {
      var init := b[..|b| - 1];
      assert (a + b)[..|a + b| - 1] == a + init;
      SumAppend(a, init);
    }
  }

  lemma {:induction false} FilterAppend(p: int -> bool, a: seq<int>, b: seq<int>)
    ensures Filter(p, a + b) == Filter(p, a) + Filter(p, b)
    decreases |b|
  {
    if b == [] {
      assert a + b == a;
    } else {
      var init := b[..|b| - 1];
      var last := b[|b| - 1];
      var tail := if p(last) then [last] else [];
      assert (a + b)[..|a + b| - 1] == a + init;
      assert Filter(p, a + b) == Filter(p, a + init) + tail;
      assert Filter(p, b) == Filter(p, init) + tail;
      FilterAppend(p, a, init);
    }
  }

  /** A sum of non-negative numbers is non-negative. */
  lemma {:induction false} SumNonNegative(s: seq<int>)
    requires forall i :: 0 <= i < |s| ==> s[i] >= 0
    ensures Sum(s) >= 0
    decreases |s|
  {
    if s != [] {
      SumNonNegative(s[..|s| - 1]);
    }
  }

  /** A sum of even numbers is even. */
  lemma {:induction false} SumOfEvensIsEven(s: seq<int>)
    requires forall i :: 0 <= i < |s| ==> s[i] % 2 == 0
    ensures Sum(s) % 2 == 0
    decreases |s|
  {
    if s != [] {
      SumOfEvensIsEven(s[..|s| - 1]);
    }
  }
}
