// Bulyan's selection from a shrinking pool (robust.rs).
module Bulyan {
  import opened Reals
  import opened Vectors
  import opened Sorting
  import opened OrderStatistics
  import opened Krum

  /** The index `min_by` returns. */
  function FirstMin(s: Vec): (best: nat)
    requires |s| > 0
    ensures FirstMinimum(s, best)
  {
    if |s| == 1 then 0
    else
      var b := FirstMin(s[..|s|-1]);
      if s[|s|-1] < s[b] then |s| - 1 else b
  }

  lemma FirstMinimumIsUnique(s: Vec, a: nat, b: nat)
    requires FirstMinimum(s, a) && FirstMinimum(s, b)
    ensures a == b
  {
    assert s[a] <= s[b] <= s[a];
  }

  predicate Valid(remaining: seq<nat>, n: nat) {
    && (forall i | 0 <= i < |remaining| :: remaining[i] < n)
    && (forall i, j | 0 <= i < j < |remaining| :: remaining[i] < remaining[j])
  }

  function Pool(vs: seq<Vec>, dim: nat, remaining: seq<nat>): (p: seq<Vec>)
    requires Rect(vs, dim) && Valid(remaining, |vs|)
    ensures |p| == |remaining| && Rect(p, dim)
  {
    seq(|remaining|, i requires 0 <= i < |remaining| => vs[remaining[i]])
  }

  function Without<T>(s: seq<T>, k: nat): (r: seq<T>)
    requires k < |s|
    ensures |r| == |s| - 1
  {
    s[..k] + s[k + 1..]
  }

  /** The position in the pool of Krum's choice, scored afresh on the pool alone. */
  function Choice(fraction: real, vs: seq<Vec>, dim: nat, remaining: seq<nat>): (best: nat)
    requires Rect(vs, dim) && Valid(remaining, |vs|) && |remaining| > 0
    ensures best < |remaining|
  {
    FirstMin(Scores(fraction, Pool(vs, dim, remaining), dim))
  }

  /** The selection in the order it is made; a last lone candidate is taken unscored. */
  function Picks(fraction: real, vs: seq<Vec>, dim: nat, remaining: seq<nat>, wanted: nat): (picks: seq<nat>)
    requires Rect(vs, dim) && Valid(remaining, |vs|) && wanted <= |remaining|
    ensures |picks| == wanted
    decreases wanted
  {
    if wanted == 0 then []
    else if |remaining| == 1 then remaining
    else
      var best := Choice(fraction, vs, dim, remaining);
      [remaining[best]] + Picks(fraction, vs, dim, Without(remaining, best), wanted - 1)
  }

  lemma PicksStep(fraction: real, vs: seq<Vec>, dim: nat, remaining: seq<nat>, wanted: nat)
    requires Rect(vs, dim) && Valid(remaining, |vs|) && 0 < wanted <= |remaining| && |remaining| > 1
    ensures var best := Choice(fraction, vs, dim, remaining);
      && Valid(Without(remaining, best), |vs|)
      && Picks(fraction, vs, dim, remaining, wanted)
         == [remaining[best]] + Picks(fraction, vs, dim, Without(remaining, best), wanted - 1)
  {
  }

  lemma PicksEnd(fraction: real, vs: seq<Vec>, dim: nat, remaining: seq<nat>, wanted: nat)
    requires Rect(vs, dim) && Valid(remaining, |vs|) && wanted <= |remaining|
    requires wanted == 0 || |remaining| <= 1
    ensures Picks(fraction, vs, dim, remaining, wanted) == if wanted == 0 then [] else remaining
  {
  }

  /** `n.saturating_sub(2 * f).max(1)` */
  function Theta(fraction: real, n: nat): (t: nat)
    requires n > 0
    ensures 1 <= t <= n
  {
    var f := ByzantineCount(fraction, n);
    if n >= 2 * f + 1 then n - 2 * f else 1
  }

  /** `BulyanFilter::filter` */
  method BulyanFilter(sqrt: real -> real, fraction: real, vs: seq<Vec>, dim: nat) returns (selected: seq<nat>)
    requires IsSqrt(sqrt) && |vs| > 0 && Rect(vs, dim)
    ensures selected == SortBy(Picks(fraction, vs, dim, Indices(|vs|), Theta(fraction, |vs|)), IndexKey())
  {
    hide Scores, SortBy, Picks, FirstMin, Theta, IsSqrt, Pool;
    var n := |vs|;
    var theta := Theta(fraction, n);
    var remaining := Indices(n);
    var chosen: seq<nat> := [];
    ghost var all := Picks(fraction, vs, dim, remaining, theta);
    while |chosen| < theta && |remaining| > 1
      invariant Valid(remaining, n) && |chosen| <= theta && theta - |chosen| <= |remaining|
      invariant all == chosen + Picks(fraction, vs, dim, remaining, theta - |chosen|)
      invariant |remaining| > 0 || |chosen| == theta
      decreases |remaining|
    {
      var scores := KrumScores(sqrt, fraction, Pool(vs, dim, remaining), dim);
      var best := ArgMin(scores);
      FirstMinimumIsUnique(scores, best, Choice(fraction, vs, dim, remaining));
      PicksStep(fraction, vs, dim, remaining, theta - |chosen|);
      chosen := chosen + [remaining[best]];
      remaining := remaining[..best] + remaining[best + 1..];
    }
    PicksEnd(fraction, vs, dim, remaining, theta - |chosen|);
    if |chosen| < theta {
      chosen := chosen + remaining;
    }
    assert chosen == all;
    selected := SortBy(chosen, IndexKey());
  }

  // ----- what is selected -----

  /** Who is still in the pool when pick t is made. */
  function PoolAt(fraction: real, vs: seq<Vec>, dim: nat, remaining: seq<nat>, t: nat): (r: seq<nat>)
    requires Rect(vs, dim) && Valid(remaining, |vs|) && t < |remaining|
    ensures Valid(r, |vs|) && |r| == |remaining| - t
    decreases t
  {
    if t == 0 then remaining
    else PoolAt(fraction, vs, dim, Without(remaining, Choice(fraction, vs, dim, remaining)), t - 1)
  }

  /** i has the least Krum score of everyone in the pool. */
  predicate KrumMinimal(fraction: real, vs: seq<Vec>, dim: nat, pool: seq<nat>, i: nat)
    requires Rect(vs, dim) && Valid(pool, |vs|)
  {
    exists k :: 0 <= k < |pool| && pool[k] == i
      && forall j | 0 <= j < |pool| ::
        Score(fraction, Pool(vs, dim, pool), dim, k) <= Score(fraction, Pool(vs, dim, pool), dim, j)
  }

  /** Every pick made while more than one candidate remains is Krum-minimal in the pool at its turn. */
  lemma {:induction false} EachPickIsMinimal(fraction: real, vs: seq<Vec>, dim: nat, remaining: seq<nat>,
        wanted: nat, t: nat)
    requires Rect(vs, dim) && Valid(remaining, |vs|) && t < wanted <= |remaining| && |remaining| - t > 1
    ensures KrumMinimal(fraction, vs, dim, PoolAt(fraction, vs, dim, remaining, t),
      Picks(fraction, vs, dim, remaining, wanted)[t])
    decreases t
  {
    hide Choice, Picks, KrumMinimal;
    var best := Choice(fraction, vs, dim, remaining);
    PicksStep(fraction, vs, dim, remaining, wanted);
    if t == 0 {
      ChoiceIsMinimal(fraction, vs, dim, remaining);
    } else {
      EachPickIsMinimal(fraction, vs, dim, Without(remaining, best), wanted - 1, t - 1);
    }
  }

  lemma ChoiceIsMinimal(fraction: real, vs: seq<Vec>, dim: nat, remaining: seq<nat>)
    requires Rect(vs, dim) && Valid(remaining, |vs|) && |remaining| > 0
    ensures KrumMinimal(fraction, vs, dim, remaining, remaining[Choice(fraction, vs, dim, remaining)])
  {
    hide Score;
    var pool := Pool(vs, dim, remaining);
    var scores, best := Scores(fraction, pool, dim), Choice(fraction, vs, dim, remaining);
    forall j | 0 <= j < |remaining| ensures Score(fraction, pool, dim, best) <= Score(fraction, pool, dim, j) {
      assert scores[best] <= scores[j];
    }
  }

  /** The picks are distinct members of the pool. */
  lemma {:induction false} PicksAreDistinct(fraction: real, vs: seq<Vec>, dim: nat, remaining: seq<nat>, wanted: nat)
    requires Rect(vs, dim) && Valid(remaining, |vs|) && wanted <= |remaining|
    ensures forall i | 0 <= i < wanted :: Picks(fraction, vs, dim, remaining, wanted)[i] in remaining
    ensures forall i, j | 0 <= i < j < wanted ::
      Picks(fraction, vs, dim, remaining, wanted)[i] != Picks(fraction, vs, dim, remaining, wanted)[j]
    decreases wanted
  {
    hide Choice;
    if wanted > 0 && |remaining| > 1 {
      var best := Choice(fraction, vs, dim, remaining);
      var rest := Without(remaining, best);
      PicksAreDistinct(fraction, vs, dim, rest, wanted - 1);
      assert remaining[best] !in rest;
      assert forall x | x in rest :: x in remaining;
    }
  }

  /** What a filter may hand on: strictly ascending indices into the batch. */
  predicate Ascending(selected: seq<nat>, n: nat) {
    && (forall i | 0 <= i < |selected| :: selected[i] < n)
    && (forall i, j | 0 <= i < j < |selected| :: selected[i] < selected[j])
  }

  /** Sorting distinct indices gives them in ascending order, none lost and none added. */
  lemma SortedIndices(picks: seq<nat>, n: nat)
    requires forall i | 0 <= i < |picks| :: picks[i] < n
    requires forall i, j | 0 <= i < j < |picks| :: picks[i] != picks[j]
    ensures Ascending(SortBy(picks, IndexKey()), n)
    ensures forall x: nat :: x in SortBy(picks, IndexKey()) <==> x in picks
  {
    var r := SortBy(picks, IndexKey());
    SortByPermutes(picks, IndexKey());
    SortByIsSorted(picks, IndexKey());
    hide SortBy;
    forall x: nat ensures x in r <==> x in picks {
      assert x in r <==> x in multiset(r);
      assert x in picks <==> x in multiset(picks);
    }
    forall i | 0 <= i < |r| ensures r[i] < n {
      assert r[i] in r;
    }
    forall i, j | 0 <= i < j < |r| ensures r[i] < r[j] {
      assert IndexKey()(r[i]) <= IndexKey()(r[j]);
      if r[i] == r[j] {
        TwiceCounts(r, i, j);
        DistinctCountsOnce(picks, r[i]);
      }
    }
  }

  lemma {:induction false} DistinctCountsOnce(s: seq<nat>, x: nat)
    requires forall i, j | 0 <= i < j < |s| :: s[i] != s[j]
    ensures multiset(s)[x] <= 1
  {
    if |s| > 0 {
      DistinctCountsOnce(s[..|s|-1], x);
      assert s == s[..|s|-1] + [s[|s|-1]];
      assert x in multiset(s[..|s|-1]) <==> x in s[..|s|-1];
    }
  }

  /** Bulyan's selection: exactly max(1, n − 2f) distinct indices in ascending order. */
  lemma BulyanSelects(fraction: real, vs: seq<Vec>, dim: nat)
    requires |vs| > 0 && Rect(vs, dim)
    ensures var selected := SortBy(Picks(fraction, vs, dim, Indices(|vs|), Theta(fraction, |vs|)), IndexKey());
      |selected| == Theta(fraction, |vs|) && Ascending(selected, |vs|)
  {
    var n := |vs|;
    var picks := Picks(fraction, vs, dim, Indices(n), Theta(fraction, n));
    PicksAreDistinct(fraction, vs, dim, Indices(n), Theta(fraction, n));
    SortedIndices(picks, n);
  }
}
