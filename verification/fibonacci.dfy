/**
 The Fibonacci-sum script: the ordered list of Fibonacci numbers not above a
 bound, and the sum of its even members.

 The list starts `1, 1`, so its element at index `i` is `Fib(i + 1)` for the
 usual `Fib(0) = 0`, `Fib(1) = 1`.
 */
module EvenFibonacci {
  import opened Seqs

  function Fib(i: nat): nat
  {
    if i < 2 then i else Fib(i - 1) + Fib(i - 2)
  }

  lemma {:induction false} FibPositive(i: nat)
    requires i >= 1
    ensures Fib(i) >= 1
    decreases i
  {
    if i >= 3 {
      FibPositive(i - 1);
    }
  }

  /** From index 2 on, each Fibonacci number is strictly smaller than the next. */
  lemma FibGrows(i: nat)
    requires i >= 2
    ensures Fib(i) < Fib(i + 1)
  {
    FibPositive(i - 1);
  }

  /** From index 1 on, the Fibonacci numbers never decrease. */
  lemma {:induction false} FibMonotone(i: nat, j: nat)
    requires 1 <= i <= j
    ensures Fib(i) <= Fib(j)
    decreases j - i
  {
    if i < j {
      FibMonotone(i + 1, j);
      if i >= 2 {
        FibGrows(i);
      }
    }
  }

  /**
   Builds `1, 1, 2, 3, 5, ...` until the last element exceeds `upperBound`,
   then drops that last element. For `upperBound >= 1` the result is exactly
   the Fibonacci numbers (from the first 1) that do not exceed the bound; for a
   smaller bound the initial pair is cut to the single element `1`.
   */
  method FibList(upperBound: int) returns (fibs: seq<nat>)
    ensures |fibs| >= 1
    ensures forall i :: 0 <= i < |fibs| ==> fibs[i] == Fib(i + 1)
    ensures Fib(|fibs| + 1) > upperBound
    ensures upperBound >= 1 ==> |fibs| >= 2 && fibs[0] == 1 && fibs[1] == 1
    ensures upperBound >= 1 ==> forall i :: 0 <= i < |fibs| ==> fibs[i] <= upperBound
    ensures upperBound < 1 ==> fibs == [1]
    ensures forall i :: 2 <= i < |fibs| ==> fibs[i] == fibs[i - 1] + fibs[i - 2]
    ensures forall i, j :: 0 <= i <= j < |fibs| ==> fibs[i] <= fibs[j]
  {
    var all: seq<nat> := [1, 1];
    while all[|all| - 1] <= upperBound
      invariant |all| >= 2
      invariant forall i :: 0 <= i < |all| ==> all[i] == Fib(i + 1)
      invariant |all| > 2 ==> forall i :: 0 <= i < |all| - 1 ==> all[i] <= upperBound
      decreases upperBound - all[|all| - 1]
    {
      FibPositive(|all| - 1);
      all := all + [all[|all| - 1] + all[|all| - 2]];
    }
    fibs := all[..|all| - 1];
    FibListShape(fibs);
  }

  /** The list is in non-decreasing order and obeys the Fibonacci recurrence. */
  lemma FibListShape(fibs: seq<nat>)
    requires forall i :: 0 <= i < |fibs| ==> fibs[i] == Fib(i + 1)
    ensures forall i :: 2 <= i < |fibs| ==> fibs[i] == fibs[i - 1] + fibs[i - 2]
    ensures forall i, j :: 0 <= i <= j < |fibs| ==> fibs[i] <= fibs[j]
  {
    forall i, j | 0 <= i <= j < |fibs|
      ensures fibs[i] <= fibs[j]
    {
      FibMonotone(i + 1, j + 1);
    }
  }

  /**
   Under the maximality guarantee of `FibList`, no Fibonacci number that fits
   under the bound is missing from the list.
   */
  lemma FibListComplete(fibs: seq<nat>, upperBound: int, i: nat)
    requires forall k :: 0 <= k < |fibs| ==> fibs[k] == Fib(k + 1)
    requires Fib(|fibs| + 1) > upperBound
    requires i >= 1 && Fib(i) <= upperBound
    ensures i - 1 < |fibs| && fibs[i - 1] == Fib(i)
  {
    if i > |fibs| {
      FibMonotone(|fibs| + 1, i);
    }
  }

  predicate IsEven(x: int)
  {
    x % 2 == 0
  }

  /**
   The script's answer: the sum of the even members of the list, kept by a
   boolean mask. The sum is itself even.
   */
  method EvenSum(fibs: seq<nat>) returns (answer: int)
    ensures answer == Sum(Filter(IsEven, fibs))
    ensures answer >= 0 && answer % 2 == 0
  {
    answer := 0;
    var i := 0;
    while i < |fibs|
      invariant 0 <= i <= |fibs|
      invariant answer == Sum(Filter(IsEven, fibs[..i]))
    {
      EvenSumStep(fibs, i);
      if IsEven(fibs[i]) {
        answer := answer + fibs[i];
      }
      i := i + 1;
    }
    assert fibs[..i] == fibs;
    EvenSumIsEven(fibs);
  }

  /** Extending the prefix by one element adds that element to the sum exactly when it is even. */
  lemma EvenSumStep(s: seq<nat>, i: nat)
    requires i < |s|
    ensures Sum(Filter(IsEven, s[..i + 1]))
            == Sum(Filter(IsEven, s[..i])) + (if IsEven(s[i]) then s[i] else 0)
  {
    assert s[..i + 1] == s[..i] + [s[i]];
    FilterAppend(IsEven, s[..i], [s[i]]);
    SumAppend(Filter(IsEven, s[..i]), Filter(IsEven, [s[i]]));
    assert Filter(IsEven, [s[i]]) == if IsEven(s[i]) then [s[i]] else [];
  }

  lemma EvenSumIsEven(s: seq<nat>)
    ensures Sum(Filter(IsEven, s)) >= 0
    ensures Sum(Filter(IsEven, s)) % 2 == 0
  {
    var evens := Filter(IsEven, s);
    forall k | 0 <= k < |evens|
      ensures evens[k] >= 0 && evens[k] % 2 == 0
    {
      assert evens[k] in evens;
    }
    SumNonNegative(evens);
    SumOfEvensIsEven(evens);
  }
}
