/**
 The expected number of iterations of standard binary search over `n`
 sorted elements, when the target is uniformly one of them.

 `B` is the recurrence of the script, with exact rational arithmetic in place
 of floating-point division. Multiplying it by `n` gives the integer
 `PathTotal(n)`: the total number of probes needed to find each of the `n`
 elements once. That total equals the sum of the bit-lengths of `1..n`, which
 yields the classical bounds `1 <= B(n) <= Bits(n)` and the fact that the
 expected cost never decreases as the range grows.
 */
module BinarySearchCost {

  /**
   Sizes of the two sub-ranges left after probing the middle element
   `g = (n + 1) / 2` (integer division) of a range of size `n >= 2`: the
   `g - 1` elements before the probe and the `n - g` after it. Together they
   hold every element except the probe, and they differ in size by at most one.
   */
  function Split(n: nat): (parts: (nat, nat))
    requires n >= 2
    ensures parts.0 + parts.1 == n - 1
    ensures parts.0 <= parts.1 <= parts.0 + 1
    ensures 1 <= parts.0 + 1 <= n
  {
    var g := (n + 1) / 2;
    (g - 1, n - g)
  }

  /**
   One step of the recurrence for a range of `n` elements split into
   sub-ranges of `left` and `right` elements whose expected costs are
   `leftCost` and `rightCost`: with probability `1/n` the probe hits the
   target; otherwise the search continues, one iteration later, in the
   sub-range that holds it, chosen with probability proportional to its size.
   */
  function Step(n: nat, left: nat, right: nat, leftCost: real, rightCost: real): real
    requires n > 0
  {
    var size := n as real;
    1.0 / size
    + (left as real / size) * (leftCost + 1.0)
    + (right as real / size) * (rightCost + 1.0)
  }

  /** Expected number of iterations to find a uniformly chosen one of `n` elements. */
  function B(n: nat): real
    decreases n, 1
  {
    if n == 0 then 0.0
    else if n == 1 then 1.0
    else Recurrence(n)
  }

  /** The recursive case of `B`: one probe, then the cost of the sub-range that holds the target. */
  function Recurrence(n: nat): real
    requires n >= 2
    decreases n, 0
  {
    var (left, right) := Split(n);
    Step(n, left, right, B(left), B(right))
  }

  /** Total number of probes needed to find each of the `n` elements once. */
  function PathTotal(n: nat): nat
    decreases n
  {
    if n == 0 then 0
    else if n == 1 then 1
    else
      var (left, right) := Split(n);
      n + PathTotal(left) + PathTotal(right)
  }

  function Pow2(k: nat): (r: nat)
    ensures r >= 1
  {
    if k == 0 then 1 else 2 * Pow2(k - 1)
  }

  /** Number of binary digits of `k` (zero for `k = 0`). */
  function Bits(k: nat): nat
  {
    if k == 0 then 0 else 1 + Bits(k / 2)
  }

  lemma {:induction false} BitsIsBitLength(k: nat)
    ensures k < Pow2(Bits(k))
    ensures k >= 1 ==> Bits(k) >= 1 && Pow2(Bits(k) - 1) <= k
    decreases k
  {
    if k > 0 {
      BitsIsBitLength(k / 2);
    }
  }

  /** `Bits(1) + Bits(2) + ... + Bits(n)`. */
  function DepthSum(n: nat): nat
  {
    if n == 0 then 0 else DepthSum(n - 1) + Bits(n)
  }

  // ---------------------------------------------------------------------
  // Facts about the recurrence itself

  /** The base cases of the recurrence. */
  lemma BaseCases()
    ensures B(0) == 0.0
    ensures B(1) == 1.0
  {
  }

  /** Values worked out from the recurrence by hand. */
  lemma SmallValues()
    ensures B(2) == 3.0 / 2.0
    ensures B(3) == 5.0 / 3.0
    ensures B(4) == 2.0
  {
    assert Split(2) == (0, 1);
    assert Split(3) == (1, 1);
    assert Split(4) == (1, 2);
  }

  /**
   The three outcomes of one probe (found, go left, go right) have
   probabilities that add up to one.
   */
  lemma WeightsSumToOne(n: nat)
    requires n >= 2
    ensures 1.0 / n as real + Split(n).0 as real / n as real + Split(n).1 as real / n as real == 1.0
  {
    var (left, right) := Split(n);
    var size := n as real;
    assert (1 + left + right) as real == size;
    assert 1.0 / size + left as real / size + right as real / size == (1 + left + right) as real / size;
  }

  /** The mean of a total spread over `n` items (zero for no items). */
  function Average(total: nat, n: nat): real
  {
    if n == 0 then 0.0 else total as real / n as real
  }

  /**
   One step of the recurrence maps averages to averages: if each sub-range
   costs its probe total divided by its size, the whole range costs one probe
   per element plus both sub-totals, divided by its size.
   */
  lemma StepAverage(n: nat, left: nat, right: nat, leftTotal: nat, rightTotal: nat)
    requires n == 1 + left + right
    requires left == 0 ==> leftTotal == 0
    requires right == 0 ==> rightTotal == 0
    ensures Step(n, left, right, Average(leftTotal, left), Average(rightTotal, right))
            == Average(n + leftTotal + rightTotal, n)
  {
    var size := n as real;
    var l, r := left as real, right as real;
    var cl, cr := Average(leftTotal, left), Average(rightTotal, right);
    assert l * cl == leftTotal as real;
    assert r * cr == rightTotal as real;
    assert size * (1.0 / size) == 1.0;
    assert size * ((l / size) * (cl + 1.0)) == l * (cl + 1.0);
    assert size * ((r / size) * (cr + 1.0)) == r * (cr + 1.0);
    assert size * Step(n, left, right, cl, cr) == size + leftTotal as real + rightTotal as real;
  }

  /** The expected cost is the probe total averaged over the `n` elements. */
  lemma {:induction false} CostIsAverage(n: nat)
    ensures B(n) == Average(PathTotal(n), n)
    decreases n
  {
    if n >= 2 {
      var (left, right) := Split(n);
      CostIsAverage(left);
      CostIsAverage(right);
      StepAverage(n, left, right, PathTotal(left), PathTotal(right));
    }
  }

  // ---------------------------------------------------------------------
  // The probe total is the sum of bit-lengths

  /**
   The sum of bit-lengths obeys the same halving law as the probe total:
   halving maps the numbers `2..n` onto `1..n/2` and `1..(n-1)/2`, each
   losing one binary digit.
   */
  lemma {:induction false} DepthSumHalving(n: nat)
    requires n >= 1
    ensures DepthSum(n) == n + DepthSum(n / 2) + DepthSum((n - 1) / 2)
    decreases n
  {
    if n >= 2 {
      var m := n / 2;
      DepthSumHalving(n - 1);
      assert DepthSum(n) == DepthSum(n - 1) + 1 + Bits(m);
      assert DepthSum(m) == DepthSum(m - 1) + Bits(m);
      if n % 2 == 0 {
        assert (n - 1) / 2 == m - 1 && (n - 2) / 2 == m - 1;
      } else {
        assert (n - 1) / 2 == m && (n - 2) / 2 == m - 1;
      }
    }
  }

  lemma {:induction false} PathTotalIsDepthSum(n: nat)
    ensures PathTotal(n) == DepthSum(n)
    decreases n
  {
    if n >= 2 {
      var (left, right) := Split(n);
      assert left == (n - 1) / 2 && right == n / 2;
      PathTotalIsDepthSum(left);
      PathTotalIsDepthSum(right);
      DepthSumHalving(n);
    }
  }

  lemma {:induction false} BitsMonotone(a: nat, b: nat)
    requires a <= b
    ensures Bits(a) <= Bits(b)
    decreases b
  {
    if a > 0 {
      BitsMonotone(a / 2, b / 2);
    }
  }

  /** The sum of the bit-lengths of `1..n` lies between `n` and `n * Bits(n)`. */
  lemma {:induction false} DepthSumBounds(n: nat)
    ensures n <= DepthSum(n) <= n * Bits(n)
    decreases n
  {
    if n > 0 {
      DepthSumBounds(n - 1);
      BitsMonotone(n - 1, n);
      AccumulateBound(DepthSum(n - 1), n - 1, Bits(n - 1), Bits(n));
    }
  }

  lemma AccumulateBound(s: nat, k: nat, a: nat, b: nat)
    requires s <= k * a && a <= b
    ensures s + b <= (k + 1) * b
  {
    MultiplyMonotone(k, a, b);
    assert (k + 1) * b == k * b + b;
  }

  lemma MultiplyMonotone(k: nat, a: nat, b: nat)
    requires a <= b
    ensures k * a <= k * b
  {
  }

  // ---------------------------------------------------------------------
  // Consequences for the expected cost

  /** The expected cost is the average bit-length of the numbers `1..n`. */
  lemma AverageDepth(n: nat)
    ensures B(n) == Average(DepthSum(n), n)
  {
    CostIsAverage(n);
    PathTotalIsDepthSum(n);
  }

  lemma AverageBounds(total: nat, n: nat, lo: nat, hi: nat)
    requires n >= 1
    requires n * lo <= total <= n * hi
    ensures lo as real <= Average(total, n) <= hi as real
  {
    var size := n as real;
    assert size * lo as real <= total as real <= size * hi as real;
  }

  /** The expected cost is never negative. */
  lemma CostNonNegative(n: nat)
    ensures B(n) >= 0.0
  {
    AverageDepth(n);
  }

  /**
   For a non-empty range the expected cost lies between one probe and
   `Bits(n)`, that is `floor(log2 n) + 1`, probes.
   */
  lemma CostBounds(n: nat)
    requires n >= 1
    ensures 1.0 <= B(n) <= Bits(n) as real
  {
    AverageDepth(n);
    DepthSumBounds(n);
    AverageBounds(DepthSum(n), n, 1, Bits(n));
  }

  lemma AverageMonotone(s: nat, n: nat, t: nat, m: nat)
    requires n >= 1 && m >= 1
    requires s * m <= t * n
    ensures Average(s, n) <= Average(t, m)
  {
    var a, b, c, d := s as real, n as real, t as real, m as real;
    assert a * d <= c * b;
    assert a / b == (a * d) / (b * d);
    assert c / d == (c * b) / (b * d);
  }

  /**
   Cross-multiplied form of "the average bit-length over `1..n+1` is at least
   the average over `1..n`": `n + 1` has at least as many digits as every
   number before it.
   */
  lemma DepthSumStep(n: nat)
    requires n >= 1
    ensures DepthSum(n) * (n + 1) <= DepthSum(n + 1) * n
  {
    DepthSumBounds(n);
    BitsMonotone(n, n + 1);
    MultiplyMonotone(n, Bits(n), Bits(n + 1));
    CrossStep(DepthSum(n), n, Bits(n + 1));
  }

  lemma CrossStep(s: nat, n: nat, b: nat)
    requires s <= n * b
    ensures s * (n + 1) <= (s + b) * n
  {
    assert s * (n + 1) == s * n + s;
    assert (s + b) * n == s * n + b * n;
  }

  /** Adding one element to the range never lowers the expected cost. */
  lemma CostStep(n: nat)
    ensures B(n) <= B(n + 1)
  {
    AverageDepth(n);
    AverageDepth(n + 1);
    if n >= 1 {
      DepthSumStep(n);
      AverageMonotone(DepthSum(n), n, DepthSum(n + 1), n + 1);
    }
  }

  /** The expected cost is non-decreasing in the size of the range. */
  lemma {:induction false} CostMonotone(m: nat, n: nat)
    requires m <= n
    ensures B(m) <= B(n)
    decreases n - m
  {
    if m < n {
      CostStep(m);
      CostMonotone(m + 1, n);
    }
  }
}
