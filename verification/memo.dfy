/**
 The memoisation decorator of the binary-search script, specialised to the one
 function it wraps. The dictionary the decorator closes over becomes an
 explicit `map` that every call takes and returns.

 `Memoized` is the decorated entry point (`f_dec`): a lookup, and on a miss a
 call of the undecorated body followed by an insertion. `Evaluate` is that body
 (the recurrence), whose two recursive calls go back through the decorator, as
 they do in the script, where the name `B` is bound to the decorated function.
 */
module Memo {
  import opened BinarySearchCost

  type Cache = map<nat, real>

  /** Every cached value is the value of the recurrence at its key. */
  ghost predicate Consistent(cache: Cache)
  {
    forall k :: k in cache ==> cache[k] == B(k)
  }

  /** `after` keeps every entry of `before` with its value: nothing is overwritten or evicted. */
  ghost predicate Extends(before: Cache, after: Cache)
  {
    forall k :: k in before ==> k in after && after[k] == before[k]
  }

  /** The keys `0..n-1`. */
  function Below(n: nat): (keys: set<nat>)
    ensures forall k: nat :: k in keys <==> k < n
    ensures |keys| == n
  {
    if n == 0 then {} else Below(n - 1) + {n - 1}
  }

  /**
   The decorated call. On a hit the stored value is returned and the cache is
   unchanged; on a miss the body runs (possibly filling smaller keys) and its
   value is stored under `n`. Either way the answer is the recurrence's value,
   whatever consistent cache the call started from.
   */
  method Memoized(n: nat, cache: Cache) returns (r: real, cache': Cache)
    requires Consistent(cache)
    ensures r == B(n)
    ensures n in cache ==> r == cache[n] && cache' == cache
    ensures n in cache' && cache'[n] == r
    ensures Consistent(cache')
    ensures Extends(cache, cache')
    ensures cache'.Keys <= cache.Keys + Below(n + 1)
    decreases n, 1
  {
    if n in cache {
      r := cache[n];
      cache' := cache;
    } else {
      var v, filled := Evaluate(n, cache);
      cache' := filled[n := v];
      r := cache'[n];
    }
  }

  /**
   The undecorated body of the recurrence. It only ever adds keys smaller
   than `n`, so the entry its caller then stores under `n` is new.
   */
  method Evaluate(n: nat, cache: Cache) returns (r: real, cache': Cache)
    requires Consistent(cache)
    ensures r == B(n)
    ensures Consistent(cache')
    ensures Extends(cache, cache')
    ensures cache'.Keys <= cache.Keys + Below(n)
    decreases n, 0
  {
    if n == 0 {
      r, cache' := 0.0, cache;
    } else if n == 1 {
      r, cache' := 1.0, cache;
    } else {
      var (left, right) := Split(n);
      var leftCost, c1 := Memoized(left, cache);
      var rightCost, c2 := Memoized(right, c1);
      r := Step(n, left, right, leftCost, rightCost);
      cache' := c2;
      assert B(n) == Step(n, left, right, B(left), B(right));
      ExtendsTransitive(cache, c1, c2);
      assert c2.Keys <= cache.Keys + Below(n) by {
        assert Below(left + 1) <= Below(n) && Below(right + 1) <= Below(n);
      }
    }
  }

  lemma ExtendsTransitive(a: Cache, b: Cache, c: Cache)
    requires Extends(a, b) && Extends(b, c)
    ensures Extends(a, c)
  {
  }

  /**
   A first call with an empty cache: the answer is the recurrence's value and
   the cache ends up holding at most the `n + 1` keys `0..n`, each once.
   */
  method Solve(n: nat) returns (r: real, cache: Cache)
    ensures r == B(n)
    ensures n in cache && Consistent(cache)
    ensures cache.Keys <= Below(n + 1)
    ensures |cache| <= n + 1
  {
    r, cache := Memoized(n, map[]);
    SubsetSize(cache.Keys, Below(n + 1));
  }

  lemma {:induction false} SubsetSize(a: set<nat>, b: set<nat>)
    requires a <= b
    ensures |a| <= |b|
    decreases |b|
  {
    if a != {} {
      var x :| x in a;
      SubsetSize(a - {x}, b - {x});
    }
  }

  /**
   Asking twice gives the same answer, and the second call is a hit that
   leaves the cache as the first call left it.
   */
  method SolveTwice(n: nat, cache: Cache) returns (first: real, second: real, warm: Cache, cache': Cache)
    requires Consistent(cache)
    ensures first == second == B(n)
    ensures n in warm && warm[n] == first
    ensures cache' == warm
    ensures Consistent(cache') && n in cache'
  {
    first, warm := Memoized(n, cache);
    second, cache' := Memoized(n, warm);
  }
}
