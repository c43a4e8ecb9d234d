// FABA's iterated removal of the update farthest from the mean of whatever remains (robust.rs).
module Faba {
  import opened Reals
  import opened Vectors
  import opened Updates
  import opened Sorting
  import opened OrderStatistics
  import opened Krum
  import opened Bulyan
  import GeometricMedian

  function MeanOf(vs: seq<Vec>, dim: nat, pool: seq<nat>): (m: Vec)
    requires Rect(vs, dim) && Valid(pool, |vs|) && |pool| > 0
    ensures |m| == dim
  {
    Mean(Pool(vs, dim, pool), dim)
  }

  /** Squared deviation of each pool member from the pool's mean. */
  function Deviations(vs: seq<Vec>, dim: nat, pool: seq<nat>): (d: Vec)
    requires Rect(vs, dim) && Valid(pool, |vs|) && |pool| > 0
    ensures |d| == |pool|
  {
    seq(|pool|, i requires 0 <= i < |pool| => SqDist(vs[pool[i]], MeanOf(vs, dim, pool)))
  }

  /** The last index with the largest value: what `max_by` returns. */
  function LastMax(s: Vec): (best: nat)
    requires |s| > 0
    ensures LastMaximum(s, best)
  {
    if |s| == 1 then 0
    else
      var b := LastMax(s[..|s|-1]);
      if s[|s|-1] >= s[b] then |s| - 1 else b
  }

  predicate LastMaximum(s: Vec, best: nat) {
    && best < |s|
    && (forall i | 0 <= i < |s| :: s[i] <= s[best])
    && (forall i | best < i < |s| :: s[i] < s[best])
  }

  /** The position removed next. */
  function Farthest(vs: seq<Vec>, dim: nat, pool: seq<nat>): (pos: nat)
    requires Rect(vs, dim) && Valid(pool, |vs|) && |pool| > 0
    ensures pos < |pool|
  {
    LastMax(Deviations(vs, dim, pool))
  }

  /** The pool after up to f removals, stopping at one. */
  function Remaining(vs: seq<Vec>, dim: nat, f: nat): (pool: seq<nat>)
    requires |vs| > 0 && Rect(vs, dim)
    ensures Valid(pool, |vs|) && |pool| == if f < |vs| then |vs| - f else 1
  {
    if f == 0 then Indices(|vs|)
    else
      var pool := Remaining(vs, dim, f - 1);
      if |pool| <= 1 then pool
      else
        WithoutIsValid(pool, Farthest(vs, dim, pool), |vs|);
        Without(pool, Farthest(vs, dim, pool))
  }

  lemma WithoutIsValid(pool: seq<nat>, k: nat, n: nat)
    requires Valid(pool, n) && k < |pool|
    ensures Valid(Without(pool, k), n)
  {
  }

  lemma SqrtOrder(sqrt: real -> real, a: real, b: real)
    requires IsSqrt(sqrt) && a >= 0.0 && b >= 0.0
    ensures sqrt(a) <= sqrt(b) <==> a <= b
  {
    if sqrt(a) <= sqrt(b) { SquareMonotone(sqrt(a), sqrt(b)); }
    if sqrt(a) > sqrt(b) { SquareStrictlyMonotone(sqrt(b), sqrt(a)); }
  }

  /** One pass: the mean of the pool, and the position farthest from it by `l2_distance`. */
  method FindFarthest(sqrt: real -> real, vs: seq<Vec>, dim: nat, pool: seq<nat>) returns (worst: nat)
    requires IsSqrt(sqrt) && Rect(vs, dim) && Valid(pool, |vs|) && |pool| > 0
    ensures worst == Farthest(vs, dim, pool)
  {
    hide Comb, SqDist, Total;
    var mean := WeightedSum(EqualShares(|pool|), Pool(vs, dim, pool), dim);
    ghost var d := Deviations(vs, dim, pool);
    worst := 0;
    var largest := sqrt(SqDist(vs[pool[0]], mean));
    for i := 1 to |pool|
      invariant worst < i && largest == sqrt(d[worst])
      invariant forall j | 0 <= j < i :: d[j] <= d[worst]
      invariant forall j | worst < j < i :: d[j] < d[worst]
    {
      var distance := sqrt(SqDist(vs[pool[i]], mean));
      SqDistLaws(vs[pool[i]], mean);
      SqDistLaws(vs[pool[worst]], mean);
      SqrtOrder(sqrt, d[worst], d[i]);
      if distance >= largest { worst, largest := i, distance; }
    }
    assert LastMaximum(d, worst) && LastMaximum(d, LastMax(d));
  }

  /** `FabaFilter::filter` on a decoded batch. */
  method FabaFilter(sqrt: real -> real, fraction: real, vs: seq<Vec>, dim: nat) returns (selected: seq<nat>)
    requires IsSqrt(sqrt) && |vs| > 0 && Rect(vs, dim)
    ensures selected == SortBy(Remaining(vs, dim, ByzantineCount(fraction, |vs|)), IndexKey())
  {
    hide Farthest, SortBy;
    var f := ByzantineCount(fraction, |vs|);
    var remaining := Indices(|vs|);
    for t := 0 to f
      invariant remaining == Remaining(vs, dim, t)
    {
      if |remaining| <= 1 { break; }
      var worst := FindFarthest(sqrt, vs, dim, remaining);
      remaining := remaining[..worst] + remaining[worst + 1..];
    }
    selected := SortBy(remaining, IndexKey());
  }

  // ----- what is selected -----

  /** FABA removes exactly f updates, and its pool needs no sorting. */
  lemma FabaSelects(fraction: real, vs: seq<Vec>, dim: nat)
    requires |vs| > 0 && Rect(vs, dim)
    ensures var pool := Remaining(vs, dim, ByzantineCount(fraction, |vs|));
      && SortBy(pool, IndexKey()) == pool
      && |pool| == |vs| - ByzantineCount(fraction, |vs|)
      && Ascending(pool, |vs|)
  {
    var pool := Remaining(vs, dim, ByzantineCount(fraction, |vs|));
    SortRestores(pool, pool, IndexKey());
  }

  // ----- the spread only shrinks -----

  function Ones(n: nat): (v: Vec)
    ensures |v| == n
  {
    seq(n, _ => 1.0)
  }

  /** Σ ‖v − x‖² over the pool. */
  function SpreadAbout(vs: seq<Vec>, x: Vec): real
    requires Rect(vs, |x|)
  {
    GeometricMedian.Spread(Ones(|vs|), vs, x, |vs|)
  }

  /** The mean squared deviation of the pool from its own mean. */
  function Variance(vs: seq<Vec>, dim: nat): real
    requires |vs| > 0 && Rect(vs, dim)
  {
    SpreadAbout(vs, Mean(vs, dim)) / |vs| as real
  }

  lemma MeanIsBest(vs: seq<Vec>, dim: nat, x: Vec)
    requires |vs| > 0 && Rect(vs, dim) && |x| == dim
    ensures SpreadAbout(vs, Mean(vs, dim)) <= SpreadAbout(vs, x)
  {
    var n := |vs|;
    TotalConstant(n, 1.0);
    assert Ones(n) == seq(n, _ => 1.0);
    assert Over(Ones(n), n as real) == EqualShares(n);
    GeometricMedian.MeanMinimizesSpread(Ones(n), vs, x);
  }

  /** Each member contributes its own squared distance. */
  lemma {:induction false} SpreadIsTotal(vs: seq<Vec>, x: Vec, d: Vec, n: nat)
    requires Rect(vs, |x|) && |d| == |vs| && n <= |vs|
    requires forall i | 0 <= i < |vs| :: d[i] == SqDist(vs[i], x)
    ensures GeometricMedian.Spread(Ones(|vs|), vs, x, n) == Total(d[..n])
  {
    if n > 0 {
      SpreadIsTotal(vs, x, d, n - 1);
      assert d[..n][..n-1] == d[..n-1];
      OneTimes(Sq(Sub(vs[n-1], x)));
    }
  }

  lemma {:induction false} TotalWithout(d: Vec, k: nat)
    requires k < |d|
    ensures Total(Without(d, k)) == Total(d) - d[k]
  {
    var last := |d| - 1;
    if k == last {
      assert Without(d, k) == d[..last];
    } else {
      TotalWithout(d[..last], k);
      assert Without(d, k)[..last - 1] == Without(d[..last], k);
    }
  }

  /** Each removal takes the last of the updates farthest from the mean of those still there, and the first
      pool is everybody. */
  lemma RemovalIs(vs: seq<Vec>, dim: nat, f: nat) returns (k: nat)
    requires |vs| > 0 && Rect(vs, dim) && f + 1 < |vs|
    ensures Remaining(vs, dim, 0) == Indices(|vs|)
    ensures var pool, after := Remaining(vs, dim, f), Remaining(vs, dim, f + 1);
      && |pool| == |vs| - f && Valid(pool, |vs|) && k < |pool| && after == Without(pool, k)
      && var mean := Mean(Pool(vs, dim, pool), dim);
         && (forall i | 0 <= i < |pool| :: SqDist(vs[pool[i]], mean) <= SqDist(vs[pool[k]], mean))
         && (forall i | k < i < |pool| :: SqDist(vs[pool[i]], mean) < SqDist(vs[pool[k]], mean))
  {
    hide Mean, SqDist, LastMax, Without;
    var pool := Remaining(vs, dim, f);
    k := Farthest(vs, dim, pool);
    var d := Deviations(vs, dim, pool);
    assert LastMaximum(d, k);
    forall i | 0 <= i < |pool| ensures d[i] == SqDist(vs[pool[i]], Mean(Pool(vs, dim, pool), dim)) {
    }
  }

  /** Removing the farthest update leaves at most (n−1)/n of the spread. */
  lemma RemovalShrinksSpread(vs: seq<Vec>, dim: nat, pool: seq<nat>)
    requires Rect(vs, dim) && Valid(pool, |vs|) && |pool| > 1
    ensures var rest := Without(pool, Farthest(vs, dim, pool));
      Valid(rest, |vs|) && Variance(Pool(vs, dim, rest), dim) <= Variance(Pool(vs, dim, pool), dim)
  {
    hide Mean, SqDist, Total, Comb, Without, Times, Valid, SpreadAbout, Deviations, Pool;
    var worst := Farthest(vs, dim, pool);
    WithoutIsValid(pool, worst, |vs|);
    var rest, m := Without(pool, worst), MeanOf(vs, dim, pool);
    var all, others := Pool(vs, dim, pool), Pool(vs, dim, rest);
    var d := Deviations(vs, dim, pool);
    var n := |pool|;
    WholeSpread(vs, dim, pool);
    RestSpread(vs, dim, pool, rest, worst);
    TotalWithout(d, worst);
    MeanIsBest(others, dim, m);
    TotalAtMost(d, d[worst]);
    ShrinkArithmetic(SpreadAbout(others, Mean(others, dim)), Total(d), d[worst], n);
  }

  lemma WholeSpread(vs: seq<Vec>, dim: nat, pool: seq<nat>)
    requires Rect(vs, dim) && Valid(pool, |vs|) && |pool| > 0
    ensures SpreadAbout(Pool(vs, dim, pool), MeanOf(vs, dim, pool)) == Total(Deviations(vs, dim, pool))
  {
    hide Mean, SqDist;
    var d := Deviations(vs, dim, pool);
    SpreadIsTotal(Pool(vs, dim, pool), MeanOf(vs, dim, pool), d, |pool|);
    assert d[..|pool|] == d;
  }

  lemma RestSpread(vs: seq<Vec>, dim: nat, pool: seq<nat>, rest: seq<nat>, k: nat)
    requires Rect(vs, dim) && Valid(pool, |vs|) && k < |pool| && rest == Without(pool, k) && Valid(rest, |vs|)
    ensures SpreadAbout(Pool(vs, dim, rest), MeanOf(vs, dim, pool)) == Total(Without(Deviations(vs, dim, pool), k))
  {
    hide Mean, SqDist;
    var d := Without(Deviations(vs, dim, pool), k);
    SpreadIsTotal(Pool(vs, dim, rest), MeanOf(vs, dim, pool), d, |rest|);
    assert d[..|rest|] == d;
  }

  lemma ShrinkArithmetic(after: real, before: real, largest: real, n: nat)
    requires n > 1 && after <= before - largest && before <= Times(n as real, largest)
    ensures after / (n - 1) as real <= before / n as real
  {
    var x, y := n as real, (n - 1) as real;
    // before ≤ n·largest, so (n−1)·before ≥ n·(before − largest).
    Divide(before, x);
    DivideBound(after, y, before / x);
    DivideBound(before, x, largest);
    Commute(x, largest);
    Distribute(x, 1.0, before / x);
    Commute(before / x, y);
    OneTimes(before / x);
  }

  /** Over the whole filter the mean squared deviation of the survivors only goes down. */
  lemma {:induction false} FabaShrinksSpread(vs: seq<Vec>, dim: nat, f: nat)
    requires |vs| > 0 && Rect(vs, dim)
    ensures Variance(Pool(vs, dim, Remaining(vs, dim, f)), dim) <= Variance(vs, dim)
  {
    hide Variance, Farthest;
    if f == 0 {
      assert Pool(vs, dim, Indices(|vs|)) == vs;
    } else {
      FabaShrinksSpread(vs, dim, f - 1);
      var pool := Remaining(vs, dim, f - 1);
      if |pool| > 1 { RemovalShrinksSpread(vs, dim, pool); }
    }
  }
}
