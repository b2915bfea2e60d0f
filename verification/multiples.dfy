/**
 The multiples-sum script: the sum of the numbers below `n` that are
 multiples of 3 or of 5.

 The script maps every `x` in `1..n-1` to `x` or `0` and adds up the results.
 `SumMultiples` is that sum, defined one term at a time; `SumMultiplesLoop` is
 the accumulation the script performs; and the independent reference is the
 sum of the sequence of qualifying numbers, obtained by filtering the range.
 */
module Multiples {
  import opened Seqs

  predicate IsMultiple(x: int)
  {
    x % 3 == 0 || x % 5 == 0
  }

  /** What the script adds for `x`: the number itself if it qualifies, else nothing. */
  function Contribution(x: int): int
  {
    if IsMultiple(x) then x else 0
  }

  /** The sum of the contributions of `1, 2, ..., n-1`. */
  function SumMultiples(n: int): int
    decreases n
  {
    if n <= 1 then 0 else SumMultiples(n - 1) + Contribution(n - 1)
  }

  /** The script's accumulation over the range `1..n-1`. */
  method SumMultiplesLoop(n: int) returns (total: int)
    ensures total == SumMultiples(n)
  {
    total := 0;
    var x := 1;
    while x < n
      invariant 1 <= x <= if n >= 1 then n else 1
      invariant total == SumMultiples(x)
    {
      total := total + Contribution(x);
      x := x + 1;
    }
    if n <= 1 {
      assert SumMultiples(n) == 0 == SumMultiples(1);
    }
  }

  /**
   The term-by-term sum equals the sum of exactly the numbers in `[1, n)`
   that are multiples of 3 or 5, each taken once.
   */
  lemma {:induction false} FilteredSum(n: int)
    ensures SumMultiples(n) == Sum(Filter(IsMultiple, Range(1, n)))
    decreases n
  {
    if n > 1 {
      FilteredSum(n - 1);
      var prefix := Range(1, n - 1);
      var last := n - 1;
      assert Range(1, n) == prefix + [last];
      FilterAppend(IsMultiple, prefix, [last]);
      assert Filter(IsMultiple, [last]) == if IsMultiple(last) then [last] else [];
      SumAppend(Filter(IsMultiple, prefix), Filter(IsMultiple, [last]));
    }
  }

  /** An empty range sums to zero. */
  lemma EmptyRange(n: int)
    requires n <= 1
    ensures SumMultiples(n) == 0
    ensures Filter(IsMultiple, Range(1, n)) == []
  {
  }

  /**
   Raising the bound from `n` to `n + 1` adds `n` to the sum of the filtered
   range exactly when it qualifies: the bound itself is never part of its own
   sum.
   */
  lemma StepLaw(n: int)
    requires n >= 1
    ensures Sum(Filter(IsMultiple, Range(1, n + 1)))
            == Sum(Filter(IsMultiple, Range(1, n))) + (if IsMultiple(n) then n else 0)
    ensures n !in Range(1, n)
  {
    FilteredSum(n);
    FilteredSum(n + 1);
  }

  /**
   A number that is a multiple of both 3 and 5 contributes itself once: the
   contribution equals the inclusion-exclusion count over 3, 5 and 15.
   */
  lemma CountedOnce(x: int)
    ensures Contribution(x)
            == (if x % 3 == 0 then x else 0) + (if x % 5 == 0 then x else 0) - (if x % 15 == 0 then x else 0)
  {
  }

  /** The sum is non-negative and never decreases as the bound grows. */
  lemma {:induction false} Monotone(m: int, n: int)
    requires m <= n
    ensures 0 <= SumMultiples(m) <= SumMultiples(n)
    decreases n - m
  {
    if m < n {
      Monotone(m, n - 1);
    } else if m > 1 {
      NonNegative(m);
    }
  }

  lemma {:induction false} NonNegative(n: int)
    ensures SumMultiples(n) >= 0
    decreases n
  {
    if n > 1 {
      NonNegative(n - 1);
    }
  }

  /** The worked example: below 10 the qualifying numbers 3, 5, 6 and 9 sum to 23. */
  lemma BelowTen()
    ensures SumMultiples(10) == 23
  {
  }
}
