/**
 * The scans the scripts run over rows and columns: counting
 * (`hits += 1`, `sum(1 for ... if ...)`), filtering (`[i for i in ... if ...]`),
 * the first index that passes a test (a loop with an early `return`) and the
 * first index of highest score (`if score > best_score: ...`). Each is a
 * function over an index test, and the loops are methods proved against it.
 */
module Scans {
  import opened Wrappers

  /** The number of i in 1..n with p(i). */
  function Count(p: int -> bool, n: int): (k: nat)
    ensures k <= if n < 0 then 0 else n
    decreases n
  {
    if n <= 0 then 0 else Count(p, n - 1) + (if p(n) then 1 else 0)
  }

  /** The counting loop: `hits += 1` for every i in 1..n with p(i). */
  method CountUpTo(p: int -> bool, n: int) returns (hits: nat)
    ensures hits == Count(p, n)
  {
    hits := 0;
    var i := 1;
    while i <= n
      invariant i >= 1 && (i <= n + 1 || i == 1)
      invariant hits == Count(p, i - 1)
    {
      if p(i) {
        hits := hits + 1;
      }
      i := i + 1;
    }
  }

  lemma {:induction false} CountPositive(p: int -> bool, n: int)
    ensures Count(p, n) >= 1 <==> exists i :: 1 <= i <= n && p(i)
    decreases n
  {
    if n > 0 {
      CountPositive(p, n - 1);
      if exists i :: 1 <= i <= n && p(i) {
        var i :| 1 <= i <= n && p(i);
        if i < n {
          assert 1 <= i <= n - 1 && p(i);
        }
      }
    }
  }

  /** At least two hits exactly when two different indices satisfy p. */
  lemma {:induction false} CountAtLeastTwo(p: int -> bool, n: int)
    ensures Count(p, n) >= 2 <==> exists i, j :: 1 <= i < j <= n && p(i) && p(j)
    decreases n
  {
    if n > 0 {
      CountAtLeastTwo(p, n - 1);
      if p(n) {
        CountPositive(p, n - 1);
        assert Count(p, n) == Count(p, n - 1) + 1;
        if Count(p, n) >= 2 {
          var i :| 1 <= i <= n - 1 && p(i);
          assert 1 <= i < n <= n && p(i) && p(n);
        }
        if exists i, j :: 1 <= i < j <= n && p(i) && p(j) {
          var i, j :| 1 <= i < j <= n && p(i) && p(j);
          assert 1 <= i <= n - 1 && p(i);
        }
      } else {
        assert Count(p, n) == Count(p, n - 1);
        if exists i, j :: 1 <= i < j <= n && p(i) && p(j) {
          var i, j :| 1 <= i < j <= n && p(i) && p(j);
          assert 1 <= i < j <= n - 1 && p(i) && p(j);
        }
      }
    }
  }

  // ---------------------------------------------------------------------------
  // Filtering

  /** The indices lo..hi that pass p, in ascending order. */
  function Where(p: int -> bool, lo: int, hi: int): seq<int>
    decreases hi - lo
  {
    if hi < lo then [] else Where(p, lo, hi - 1) + (if p(hi) then [hi] else [])
  }

  /** w lists, in strictly ascending order, exactly the indices of lo..hi that pass p. */
  ghost predicate IsFilter(p: int -> bool, lo: int, hi: int, w: seq<int>)
  {
    && (forall i :: i in w <==> lo <= i <= hi && p(i))
    && (forall k, l :: 0 <= k < l < |w| ==> w[k] < w[l])
  }

  lemma {:induction false} WhereIsFilter(p: int -> bool, lo: int, hi: int)
    ensures IsFilter(p, lo, hi, Where(p, lo, hi))
    decreases hi - lo
  {
    if hi >= lo {
      WhereIsFilter(p, lo, hi - 1);
      var w := Where(p, lo, hi - 1);
      assert Where(p, lo, hi) == w + (if p(hi) then [hi] else []);
      assert forall k :: 0 <= k < |w| ==> w[k] in w;
    }
  }

  /** Two tests that agree on lo..hi select the same indices. */
  lemma {:induction false} WhereCongruent(p: int -> bool, q: int -> bool, lo: int, hi: int)
    requires forall i :: lo <= i <= hi ==> p(i) == q(i)
    ensures Where(p, lo, hi) == Where(q, lo, hi)
    decreases hi - lo
  {
    if hi >= lo {
      WhereCongruent(p, q, lo, hi - 1);
    }
  }

  // ---------------------------------------------------------------------------
  // The first index that passes a test

  /** The least index of lo..hi that passes p, None when there is none. */
  function FirstWhere(p: int -> bool, lo: int, hi: int): Option<int>
    decreases hi - lo
  {
    if hi < lo then None
    else if p(lo) then Some(lo)
    else FirstWhere(p, lo + 1, hi)
  }

  /** Found: the index passes and no earlier one does. Not found: no index passes. */
  lemma {:induction false} FirstWhereShape(p: int -> bool, lo: int, hi: int)
    ensures var r := FirstWhere(p, lo, hi);
      && (r.Some? ==> lo <= r.value <= hi && p(r.value))
      && (r.Some? ==> forall j :: lo <= j < r.value ==> !p(j))
      && (r.None? <==> forall j :: lo <= j <= hi ==> !p(j))
    decreases hi - lo
  {
    if hi >= lo && !p(lo) {
      FirstWhereShape(p, lo + 1, hi);
    }
  }

  /** The loop `for i in lo..hi: if p(i): return i`. */
  method FindFirst(p: int -> bool, lo: int, hi: int) returns (r: Option<int>)
    ensures r == FirstWhere(p, lo, hi)
  {
    var i := lo;
    while i <= hi
      invariant lo <= i && (i <= hi + 1 || i == lo)
      invariant FirstWhere(p, lo, hi) == FirstWhere(p, i, hi)
      decreases hi - i
    {
      if p(i) {
        return Some(i);
      }
      i := i + 1;
    }
    return None;
  }

  /** The greatest index of lo..hi that passes p, None when there is none: the
      value a loop leaves in a variable it sets on every index that passes. */
  function LastWhere(p: int -> bool, lo: int, hi: int): Option<int>
    decreases hi - lo
  {
    if hi < lo then None
    else if p(hi) then Some(hi)
    else LastWhere(p, lo, hi - 1)
  }

  /** Found: the index passes and no later one does. Not found: no index passes. */
  lemma {:induction false} LastWhereShape(p: int -> bool, lo: int, hi: int)
    ensures var r := LastWhere(p, lo, hi);
      && (r.Some? ==> lo <= r.value <= hi && p(r.value))
      && (r.Some? ==> forall j :: r.value < j <= hi ==> !p(j))
      && (r.None? <==> forall j :: lo <= j <= hi ==> !p(j))
    decreases hi - lo
  {
    if hi >= lo && !p(hi) {
      LastWhereShape(p, lo, hi - 1);
    }
  }

  // ---------------------------------------------------------------------------
  // The first index of highest score

  /** `best, best_score = None, -1; for i in 1..n: if f(i) > best_score: best_score, best = f(i), i`
      for non-negative scores. */
  function ArgMaxFirst(f: int -> nat, n: int): (best: Option<int>)
    ensures best.None? <==> n < 1
    ensures best.Some? ==> 1 <= best.value <= n
    ensures best.Some? ==> forall i :: 1 <= i <= n ==> f(i) <= f(best.value)
    ensures best.Some? ==> forall i :: 1 <= i < best.value ==> f(i) < f(best.value)
    decreases n
  {
    if n < 1 then None
    else
      var b := ArgMaxFirst(f, n - 1);
      if b.None? || f(n) > f(b.value) then Some(n) else b
  }

  /** The loop that computes ArgMaxFirst. */
  method FirstArgMax(f: int -> nat, n: int) returns (best: Option<int>)
    ensures best == ArgMaxFirst(f, n)
  {
    best := None;
    var bestScore: int := -1;
    var i := 1;
    while i <= n
      invariant i >= 1 && (i <= n + 1 || i == 1)
      invariant best == ArgMaxFirst(f, i - 1)
      invariant bestScore == if best.None? then -1 else f(best.value)
    {
      var score := f(i);
      if score > bestScore {
        bestScore, best := score, Some(i);
      }
      i := i + 1;
    }
  }
}
