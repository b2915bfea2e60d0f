# Three Project Euler scripts, modelled in Dafny

This project models three small numeric scripts.

- **Problem 527 (`527/527.py`).** The recurrence `B(n)` gives the expected number of iterations of standard binary search over `n` sorted elements when the target is uniformly one of them. The script computes it through a memoising decorator.
- **Problem 2 (`p2/p2.py`).** `fib_list` builds the ordered Fibonacci numbers not above a bound. The driver adds up the even ones.
- **Problem 1 (`p1/p1.py`).** `sum_multiples` adds up the numbers below `n` that are multiples of 3 or 5.

Files:

- `seqs.dfy`, module `Seqs`: the integer range `[lo, hi)`, an order-preserving filter (the effect of a numpy boolean mask) and a sum, with their append laws.
- `binary_search_cost.dfy`, module `BinarySearchCost`: the recurrence `B` with exact `real` arithmetic. One step is the function `Step`; `Split` gives the sizes of the two sub-ranges. The module proves `n * B(n) = PathTotal(n)`, where `PathTotal(n)` is the total number of probes needed to find each of the `n` elements once. It also proves that this total is the sum of the bit-lengths of `1..n`. The value bounds `1 <= B(n) <= Bits(n)` and monotonicity in `n` follow from these two facts.
- `memo.dfy`, module `Memo`: the decorator, specialised to `B`. The decorator's dictionary becomes a `map<nat, real>`. Every call takes the map and returns the updated one. `Memoized` is the decorated call (`f_dec`). `Evaluate` is the undecorated body of `B`; its two recursive calls go back through `Memoized`, because in the script the name `B` is bound to the decorated function.
- `fibonacci.dfy`, module `EvenFibonacci`: `FibList` is the append loop of `fib_list`. `EvenSum` is the masked sum of the driver.
- `multiples.dfy`, module `Multiples`: `SumMultiples` adds the numbers up one term at a time. `SumMultiplesLoop` is the script's accumulation. The independent reference is the sum of the filtered range.

The probe index `g` is `(n + 1) // 2`, a floor division, exactly as the code computes it.

## Model

| member | source | states |
|---|---|---|
| BinarySearchCost.Split | 527/527.py:25-27 | for `n >= 2`, probing `g = (n+1)//2` leaves sub-ranges of sizes `g-1` and `n-g`; they add up to `n-1` (every element except the probe), each is smaller than `n` (so the recursion terminates), and they differ by at most one |
| BinarySearchCost.B | 527/527.py:18-27 | definition: `B(0) = 0`, `B(1) = 1`, otherwise one `Step` over `Split(n)` with exact division; the recursion terminates because both sub-ranges are smaller than `n` |
| BinarySearchCost.Recurrence | 527/527.py:25-27 | definition of the recursive branch: probe `g = (n+1)//2`, then one `Step` with the costs `B(g-1)` and `B(n-g)` of the two sub-ranges |
| BinarySearchCost.Step | 527/527.py:26-27 | definition of the formula `1/n + ((g-1)/n)(B(g-1)+1) + ((n-g)/n)(B(n-g)+1)`, with exact rational division |
| BinarySearchCost.BaseCases | 527/527.py:20-23 | `B(0) = 0` and `B(1) = 1` |
| BinarySearchCost.SmallValues | 527/527.py:25-27 | the recurrence gives `B(2) = 3/2`, `B(3) = 5/3` and `B(4) = 2` |
| BinarySearchCost.WeightsSumToOne | 527/527.py:26-27 | the probabilities of the three outcomes of a probe, `1/n`, `(g-1)/n` and `(n-g)/n`, add up to 1 |
| BinarySearchCost.StepAverage | 527/527.py:26-27 | one step of the recurrence maps averages to averages: if each sub-range costs its probe total over its size, the range costs (one probe per element plus both sub-totals) over `n` |
| BinarySearchCost.CostIsAverage | 527/527.py:18-27 | `B(n)` is `PathTotal(n) / n`: the total number of probes to find every element once, averaged over the `n` equally likely targets |
| BinarySearchCost.PathTotalIsDepthSum | 527/527.py:25-27 | the probe total of the balanced split equals the sum of the bit-lengths of `1..n`: the probe depths of the `n` elements sum to `Bits(1) + ... + Bits(n)` |
| BinarySearchCost.AverageDepth | 527/527.py:18-27 | `B(n)` is the average bit-length of `1..n` (zero for `n = 0`) |
| BinarySearchCost.CostNonNegative | 527/527.py:20-27 | `B(n) >= 0` for every `n` |
| BinarySearchCost.CostBounds | 527/527.py:22-27 | for `n >= 1`, `1 <= B(n) <= Bits(n)`: on average a search takes at least one probe and at most `floor(log2 n) + 1` probes |
| BinarySearchCost.CostStep | 527/527.py:18-27 | `B(n) <= B(n+1)`: one more element never lowers the expected cost |
| BinarySearchCost.CostMonotone | 527/527.py:18-27 | `B` is non-decreasing over all `m <= n` |
| Memo.Memoized | 527/527.py:8-13 | a hit returns the stored value and leaves the cache unchanged; a miss stores the computed value under the key; no existing entry is ever overwritten; a cache holding only correct values still holds only correct values afterwards; the answer is `B(n)` whatever the prior contents; the only new keys are in `0..n` |
| Memo.Evaluate | 527/527.py:18-27 | the decorated function's body, calling back through the cache, returns `B(n)`; it keeps every existing entry and adds only keys below `n`, so the entry then stored under `n` is new |
| Memo.Solve | 527/527.py:4-14 | from an empty cache the answer is `B(n)`, and afterwards the cache holds at most the `n+1` keys `0..n` |
| Memo.SolveTwice | 527/527.py:9-13 | a cold call and the warm call that follows give the same answer, `B(n)`; the first call leaves `n` cached with that answer, and the second is a hit that leaves the cache exactly as the first left it |
| EvenFibonacci.FibList | p2/p2.py:6-12 | element `i` is the Fibonacci number `Fib(i+1)`; the dropped next Fibonacci number exceeds the bound (maximality); for a bound `>= 1` the list starts `1, 1` and every element is within the bound; for a bound `< 1` it is `[1]`; each element from index 2 is the sum of the two before it; the list is non-decreasing |
| EvenFibonacci.FibListShape | p2/p2.py:7-11 | a list of consecutive Fibonacci numbers from `Fib(1)` obeys the recurrence and is in non-decreasing order |
| EvenFibonacci.FibListComplete | p2/p2.py:10-12 | with that maximality, every Fibonacci number `Fib(i)`, `i >= 1`, that fits under the bound is in the list, at index `i-1` |
| EvenFibonacci.FibGrows | p2/p2.py:10-11 | from index 2 on, each Fibonacci number is strictly smaller than the next, so each appended element raises the last one and the loop terminates |
| EvenFibonacci.FibMonotone | p2/p2.py:10-11 | from index 1 on the Fibonacci numbers never decrease, so the list comes out in the non-decreasing order its doc-comment promises |
| EvenFibonacci.EvenSum | p2/p2.py:17 | the answer is the sum of exactly the even elements of the list, in order; it is non-negative and even |
| EvenFibonacci.EvenSumStep | p2/p2.py:17 | extending the list by one element adds that element to the even sum exactly when it is even |
| Multiples.Contribution | p1/p1.py:8-9 | definition of the inner `f`: `x` if it is a multiple of 3 or 5, else 0 |
| Multiples.SumMultiples | p1/p1.py:6-10 | definition: the sum of `f(x)` over `x` in `1..n-1`, one term at a time; 0 when `n <= 1`, as `np.arange(1, n)` is then empty |
| Multiples.SumMultiplesLoop | p1/p1.py:6-10 | the script's accumulation over `1..n-1` equals the term-by-term sum `SumMultiples(n)`, which `FilteredSum` ties to the filtered range |
| Multiples.FilteredSum | p1/p1.py:7-10 | adding `x` or `0` for each `x` in `[1, n)` gives the sum of the filtered range, each qualifying number taken once |
| Multiples.EmptyRange | p1/p1.py:10 | for `n <= 1` the range is empty and the sum is 0 |
| Multiples.StepLaw | p1/p1.py:7-10 | against the independent reference, the sum of the filtered range: raising the bound from `n` to `n+1` adds `n` exactly when it is a multiple of 3 or 5; `n` is never in its own range |
| Multiples.CountedOnce | p1/p1.py:9 | a number's contribution is the inclusion-exclusion count over 3, 5 and 15, so a multiple of 15 is added once |
| Multiples.Monotone | p1/p1.py:9-10 | the sum is non-negative and non-decreasing in `n` |
| Multiples.BelowTen | p1/p1.py:6-10 | the sum below 10 is 23 |

## Left out

- Floating point: `B` uses exact rational (`real`) division, whereas the script uses IEEE doubles. Rounding error is not modelled.
- The notebook fragment in the `__main__` block of `527/527.py` is not modelled. It holds the IPython/Cython cell `R(n)`, which is not valid standalone Python and is never called.
- Negative arguments to `B` are not modelled: the argument is a `nat`. In the script a negative `n` matches neither base case. Its recursion never reaches 0 or 1 and ends in Python's recursion-depth error.
- The decorator's generic `*args` tuple key is not modelled: the key is a single `nat`, since `B` is the only decorated function.
- The decorator's closure-captured dictionary is not modelled as hidden state: it becomes a map passed into and returned from every call.
- numpy arrays, `np.append`, `np.arange` and fixed-width `int64` arithmetic are not modelled. The model uses `seq` and unbounded integers; at the script's bounds no overflow occurs.
- Printing and the driver calls with literal arguments (`sum_multiples(1000)`, `fib_list(4*10**6)`) are not modelled. They are I/O around the modelled functions.
- The value of `B` at any particular large `n`, and the sums at the literal inputs 1000 and `4*10**6`, are not proved. They would need evaluation far beyond what the verifier does symbolically.
