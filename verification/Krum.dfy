// Krum and Multi-Krum (robust.rs), and the batch sizes their citations ask for (preconditions.rs).
module Krum {
  import opened Reals
  import opened Vectors
  import opened Wrappers
  import opened Sorting
  import opened OrderStatistics

  // ----- scores -----

  function SqDist(u: Vec, v: Vec): real
    requires |u| == |v|
  {
    Sq(Sub(u, v))
  }

  lemma SqDistLaws(u: Vec, v: Vec)
    requires |u| == |v|
    ensures SqDist(u, v) == SqDist(v, u) >= 0.0 && SqDist(u, u) == 0.0
  {
    SqSubComm(u, v);
    SqNonNegative(Sub(u, v));
    assert Sub(u, u) == Zero(|u|);
    DotZero(Zero(|u|));
  }

  /** Squared distances from update i to every update, itself included. */
  function Row(vs: seq<Vec>, dim: nat, i: nat): (r: Vec)
    requires Rect(vs, dim) && i < |vs|
    ensures |r| == |vs|
  {
    seq(|vs|, j requires 0 <= j < |vs| => SqDist(vs[i], vs[j]))
  }

  /** The same without the entry for i itself. */
  function Others(vs: seq<Vec>, dim: nat, i: nat): (r: Vec)
    requires Rect(vs, dim) && i < |vs|
    ensures |r| == |vs| - 1
  {
    Row(vs, dim, i)[..i] + Row(vs, dim, i)[i + 1..]
  }

  /** `n.saturating_sub(f + 2).clamp(1, n.saturating_sub(1).max(1))` */
  function Neighbours(fraction: real, n: nat): (k: nat)
    ensures 1 <= k && (n > 1 ==> k < n)
  {
    var f := ByzantineCount(fraction, n);
    var wanted := if n >= f + 2 then n - (f + 2) else 0;
    var high := if n > 2 then n - 1 else 1;
    Clamp(wanted, 1, high)
  }

  /** How many neighbours count: n − f − 2, but at least one and never more than there are others. */
  lemma NeighboursAre(fraction: real, n: nat)
    ensures var k, f := Neighbours(fraction, n), ByzantineCount(fraction, n);
      if n >= f + 3 then k + f + 2 == n else k == 1
  {
  }

  function Clamp(x: nat, low: nat, high: nat): (c: nat)
    requires low <= high
    ensures low <= c <= high
  {
    if x < low then low else if x > high then high else x
  }

  /** Krum's score: the sum of the squared distances to the nearest others (`take` stops early). */
  function Score(fraction: real, vs: seq<Vec>, dim: nat, i: nat): real
    requires Rect(vs, dim) && i < |vs|
  {
    var k := Neighbours(fraction, |vs|);
    SmallestSum(Others(vs, dim, i), if k <= |vs| - 1 then k else |vs| - 1)
  }

  function Scores(fraction: real, vs: seq<Vec>, dim: nat): (s: Vec)
    requires Rect(vs, dim)
    ensures |s| == |vs|
  {
    seq(|vs|, i requires 0 <= i < |vs| => Score(fraction, vs, dim, i))
  }

  /** `DistanceMatrix::from_updates`: each pair computed once and stored at both places. */
  method DistanceMatrix(sqrt: real -> real, vs: seq<Vec>, dim: nat) returns (d: array2<real>)
    requires IsSqrt(sqrt) && Rect(vs, dim)
    ensures fresh(d) && d.Length0 == d.Length1 == |vs|
    ensures forall i, j | 0 <= i < |vs| && 0 <= j < |vs| :: d[i, j] >= 0.0
    ensures forall i, j | 0 <= i < |vs| && 0 <= j < |vs| :: Square(d[i, j]) == SqDist(vs[i], vs[j])
  {
    SquareSign(0.0);
    hide SqDist, Square;
    var n := |vs|;
    d := new real[n, n]((i, j) => 0.0);
    forall i, j | 0 <= i < n && 0 <= j < n
      ensures SqDist(vs[i], vs[j]) == SqDist(vs[j], vs[i]) >= 0.0 && SqDist(vs[i], vs[i]) == 0.0
    {
      SqDistLaws(vs[i], vs[j]);
      SqDistLaws(vs[i], vs[i]);
    }
    for i := 0 to n
      invariant forall a, b | 0 <= a < n && 0 <= b < n :: d[a, b] >= 0.0
      invariant forall a | 0 <= a < n :: d[a, a] == 0.0
      invariant forall a, b | 0 <= a < n && 0 <= b < n && a != b && (a < i || b < i) ::
        Square(d[a, b]) == SqDist(vs[a], vs[b])
    {
      for j := i + 1 to n
        invariant forall a, b | 0 <= a < n && 0 <= b < n :: d[a, b] >= 0.0
        invariant forall a | 0 <= a < n :: d[a, a] == 0.0
        invariant forall a, b | 0 <= a < n && 0 <= b < n && a != b && (a < i || b < i) ::
          Square(d[a, b]) == SqDist(vs[a], vs[b])
        invariant forall b | i < b < j :: Square(d[i, b]) == SqDist(vs[i], vs[b])
        invariant forall b | i < b < j :: Square(d[b, i]) == SqDist(vs[b], vs[i])
      {
        var x := sqrt(SqDist(vs[i], vs[j]));
        d[i, j] := x;
        d[j, i] := x;
      }
    }
  }

  /** One client's distances to the others, squared again. */
  method OtherSquares(d: array2<real>, vs: seq<Vec>, dim: nat, i: nat) returns (dists: Vec)
    requires Rect(vs, dim) && i < |vs| == d.Length0 == d.Length1
    requires forall j | 0 <= j < |vs| :: Square(d[i, j]) == SqDist(vs[i], vs[j])
    ensures dists == Others(vs, dim, i)
  {
    hide SqDist, Square;
    ghost var row := Row(vs, dim, i);
    dists := [];
    for j := 0 to |vs|
      invariant dists == if j <= i then row[..j] else row[..i] + row[i + 1..j]
    {
      if j != i {
        dists := dists + [Square(d[i, j])];
        assert row[j] == SqDist(vs[i], vs[j]);
        assert j < i ==> row[..j] + [row[j]] == row[..j + 1];
        assert j > i ==> row[i + 1..j] + [row[j]] == row[i + 1..j + 1];
      }
    }
  }

  /** `krum_scores`: distances squared again, sorted, and the nearest summed. */
  method KrumScores(sqrt: real -> real, fraction: real, vs: seq<Vec>, dim: nat) returns (scores: Vec)
    requires IsSqrt(sqrt) && Rect(vs, dim)
    ensures scores == Scores(fraction, vs, dim)
  {
    hide SqDist, Square, Sort, Total, Neighbours, Others;
    var n := |vs|;
    var d := DistanceMatrix(sqrt, vs, dim);
    var k := Neighbours(fraction, n);
    scores := [];
    for i := 0 to n
      invariant |scores| == i
      invariant forall a, b | 0 <= a < n && 0 <= b < n :: Square(d[a, b]) == SqDist(vs[a], vs[b])
      invariant forall a | 0 <= a < i :: scores[a] == Score(fraction, vs, dim, a)
    {
      var dists := OtherSquares(d, vs, dim, i);
      var sorted := Sort(dists);
      var sum := SumOf(sorted[..if k <= n - 1 then k else n - 1]);
      scores := scores + [sum];
    }
  }

  // ----- selection -----

  /** The first index with the smallest score: what `min_by` returns. */
  predicate FirstMinimum(s: Vec, best: nat) {
    && best < |s|
    && (forall i | 0 <= i < |s| :: s[best] <= s[i])
    && (forall i | 0 <= i < best :: s[best] < s[i])
  }

  method ArgMin(s: Vec) returns (best: nat)
    requires |s| > 0
    ensures FirstMinimum(s, best)
  {
    best := 0;
    for i := 1 to |s|
      invariant best < i
      invariant forall j | 0 <= j < i :: s[best] <= s[j]
      invariant forall j | 0 <= j < best :: s[best] < s[j]
    {
      if s[i] < s[best] { best := i; }
    }
  }

  /** `KrumFilter::filter` */
  method KrumFilter(sqrt: real -> real, fraction: real, vs: seq<Vec>, dim: nat) returns (best: nat)
    requires IsSqrt(sqrt) && |vs| > 0 && Rect(vs, dim)
    ensures FirstMinimum(Scores(fraction, vs, dim), best)
  {
    var scores := KrumScores(sqrt, fraction, vs, dim);
    best := ArgMin(scores);
  }

  /** `MultiKrumFilter::filter` */
  method MultiKrumFilter(sqrt: real -> real, fraction: real, vs: seq<Vec>, dim: nat)
      returns (selected: seq<nat>)
    requires IsSqrt(sqrt) && |vs| > 0 && Rect(vs, dim)
    ensures selected
      == SortBy(LowestScores(Scores(fraction, vs, dim), |vs| - ByzantineCount(fraction, |vs|)), IndexKey())
  {
    var scores := KrumScores(sqrt, fraction, vs, dim);
    var n := |vs|;
    var f := ByzantineCount(fraction, n);
    var m := if n - f >= 1 then n - f else 1;
    var indices := SortBy<nat>(Indices(n), ScoreKey(scores));
    indices := indices[..m];
    selected := SortBy(indices, IndexKey());
  }

  // ----- resilience -----

  /** Honest updates are pairwise within squared distance D. */
  predicate HonestCluster(vs: seq<Vec>, dim: nat, byz: set<nat>, d: real)
    requires Rect(vs, dim)
  {
    forall i: nat, j: nat | i < |vs| && j < |vs| && i !in byz && j !in byz :: SqDist(vs[i], vs[j]) <= d
  }

  /** Krum's hypotheses: at most f Byzantine updates out of n ≥ 2f + 3. */
  predicate KrumRegime(fraction: real, n: nat, byz: set<nat>) {
    var f := ByzantineCount(fraction, n);
    n >= 2 * f + 3 && |byz| <= f && forall i | i in byz :: i < n
  }

  lemma CountOthers(vs: seq<Vec>, dim: nat, i: nat, p: real -> bool)
    requires Rect(vs, dim) && i < |vs|
    ensures CountIf(Others(vs, dim, i), p)
         == CountIf(Row(vs, dim, i), p) - if p(SqDist(vs[i], vs[i])) then 1 else 0
  {
    var r := Row(vs, dim, i);
    CountConcat(r[..i], r[i + 1..], p);
    CountConcat(r[..i], [r[i]] + r[i + 1..], p);
    CountConcat([r[i]], r[i + 1..], p);
    assert r == r[..i] + ([r[i]] + r[i + 1..]);
    assert CountIf([r[i]], p) == if p(r[i]) then 1 else 0;
  }

  /** In the regime an honest update scores at most (n − f − 2)·D. */
  lemma HonestScore(fraction: real, vs: seq<Vec>, dim: nat, byz: set<nat>, d: real, h: nat)
    requires Rect(vs, dim) && h < |vs| && h !in byz
    requires KrumRegime(fraction, |vs|, byz) && HonestCluster(vs, dim, byz, d)
    ensures Score(fraction, vs, dim, h)
         <= Times((|vs| - ByzantineCount(fraction, |vs|) - 2) as real, d)
  {
    var f := ByzantineCount(fraction, |vs|);
    CountWithin(Row(vs, dim, h), Above(d), byz);
    CountOthers(vs, dim, h, Above(d));
    SmallestSumAtMost(Others(vs, dim, h), |vs| - f - 2, |byz|, d);
  }

  /** The honest update nearest to i. */
  lemma NearestHonest(vs: seq<Vec>, dim: nat, byz: set<nat>, i: nat) returns (h: nat)
    requires Rect(vs, dim) && i < |vs| && |byz| < |vs| && forall j | j in byz :: j < |vs|
    ensures h < |vs| && h !in byz
    ensures forall j: nat | j < |vs| && j !in byz :: SqDist(vs[i], vs[h]) <= SqDist(vs[i], vs[j])
  {
    h := SomeoneHonest(|vs|, byz);
    for j := 0 to |vs|
      invariant h < |vs| && h !in byz
      invariant forall a: nat | a < j && a !in byz :: SqDist(vs[i], vs[h]) <= SqDist(vs[i], vs[a])
    {
      if j !in byz && SqDist(vs[i], vs[j]) < SqDist(vs[i], vs[h]) { h := j; }
    }
  }

  lemma {:induction false} SomeoneHonest(n: nat, byz: set<nat>) returns (h: nat)
    requires |byz| < n && forall j | j in byz :: j < n
    ensures h < n && h !in byz
  {
    if n - 1 in byz {
      h := SomeoneHonest(n - 1, byz - {n - 1});
    } else {
      h := n - 1;
    }
  }

  /** A Byzantine update scores at least (n − 2f − 1) times its squared distance to any honest one
      nearest to it. */
  lemma ByzantineScore(fraction: real, vs: seq<Vec>, dim: nat, byz: set<nat>, i: nat, h: nat)
    requires Rect(vs, dim) && i < |vs| && h < |vs| && i in byz && KrumRegime(fraction, |vs|, byz)
    requires forall j: nat | j < |vs| && j !in byz :: SqDist(vs[i], vs[h]) <= SqDist(vs[i], vs[j])
    ensures Times((|vs| - 2 * ByzantineCount(fraction, |vs|) - 1) as real, SqDist(vs[i], vs[h]))
         <= Score(fraction, vs, dim, i)
  {
    hide Times, Sort, CountIf, Total, SqDist, Below, ByzantineCount;
    var n, f, m := |vs|, ByzantineCount(fraction, |vs|), SqDist(vs[i], vs[h]);
    var others := Others(vs, dim, i);
    forall j | 0 <= j < n ensures Row(vs, dim, i)[j] >= 0.0 {
      SqDistLaws(vs[i], vs[j]);
    }
    SqDistLaws(vs[i], vs[h]);
    if m > 0.0 {
      FewNearer(vs, dim, byz, i, m);
      SmallestSumAtLeast(others, n - f - 2, f - 1, m);
    } else {
      NothingBelow(others, 0.0);
      SmallestSumAtLeast(others, n - f - 2, 0, 0.0);
      ZeroProduct((n - 2 * f - 1) as real);
      ZeroProduct((n - f - 2) as real);
    }
  }

  lemma ZeroProduct(x: real)
    ensures Times(x, 0.0) == 0.0
  {
  }

  /** If every honest update is at least `m` away from the Byzantine i, fewer than |byz| others
      are nearer. */
  lemma FewNearer(vs: seq<Vec>, dim: nat, byz: set<nat>, i: nat, m: real)
    requires Rect(vs, dim) && i < |vs| && i in byz && m > 0.0
    requires forall j: nat | j < |vs| && j !in byz :: m <= SqDist(vs[i], vs[j])
    ensures CountIf(Others(vs, dim, i), Below(m)) <= |byz| - 1
  {
    SqDistLaws(vs[i], vs[i]);
    CountWithin(Row(vs, dim, i), Below(m), byz);
    CountOthers(vs, dim, i, Below(m));
  }

  /** i is honest, or close to an honest update: (n − 2f − 1)·‖v_i − v_h‖² ≤ (n − f − 2)·D. */
  predicate Resilient(fraction: real, vs: seq<Vec>, dim: nat, byz: set<nat>, d: real, i: nat)
    requires Rect(vs, dim) && i < |vs|
  {
    i !in byz || exists h: nat :: h < |vs| && h !in byz && NearEnough(fraction, vs, dim, d, i, h)
  }

  predicate NearEnough(fraction: real, vs: seq<Vec>, dim: nat, d: real, i: nat, h: nat)
    requires Rect(vs, dim) && i < |vs| && h < |vs|
  {
    var n, f := |vs|, ByzantineCount(fraction, |vs|);
    Times((n - 2 * f - 1) as real, SqDist(vs[i], vs[h])) <= Times((n - f - 2) as real, d)
  }

  lemma LowScoreIsResilient(fraction: real, vs: seq<Vec>, dim: nat, byz: set<nat>, d: real, i: nat)
    requires Rect(vs, dim) && i < |vs| && KrumRegime(fraction, |vs|, byz)
    requires Score(fraction, vs, dim, i) <= Times((|vs| - ByzantineCount(fraction, |vs|) - 2) as real, d)
    ensures Resilient(fraction, vs, dim, byz, d, i)
  {
    if i in byz {
      var h := NearestHonest(vs, dim, byz, i);
      ByzantineScore(fraction, vs, dim, byz, i, h);
      assert NearEnough(fraction, vs, dim, d, i, h);
    }
  }

  /** Krum's theorem: the update it picks is honest or near an honest one. */
  lemma KrumIsResilient(fraction: real, vs: seq<Vec>, dim: nat, byz: set<nat>, d: real, best: nat)
    requires Rect(vs, dim) && KrumRegime(fraction, |vs|, byz) && HonestCluster(vs, dim, byz, d)
    requires FirstMinimum(Scores(fraction, vs, dim), best)
    ensures Resilient(fraction, vs, dim, byz, d, best)
  {
    var h := SomeoneHonest(|vs|, byz);
    HonestScore(fraction, vs, dim, byz, d, h);
    assert Scores(fraction, vs, dim)[best] <= Scores(fraction, vs, dim)[h];
    LowScoreIsResilient(fraction, vs, dim, byz, d, best);
  }

  /** The same for every survivor of Multi-Krum. */
  lemma MultiKrumIsResilient(fraction: real, vs: seq<Vec>, dim: nat, byz: set<nat>, d: real, r: nat)
    requires Rect(vs, dim) && KrumRegime(fraction, |vs|, byz) && HonestCluster(vs, dim, byz, d)
    requires r < |vs| - ByzantineCount(fraction, |vs|)
    ensures var kept := LowestScores(Scores(fraction, vs, dim), |vs| - ByzantineCount(fraction, |vs|));
      kept[r] < |vs| && Resilient(fraction, vs, dim, byz, d, kept[r])
  {
    hide Score, HonestCluster, Resilient, Times, ByzantineCount, LowestScores;
    var n, f := |vs|, ByzantineCount(fraction, |vs|);
    var scores := Scores(fraction, vs, dim);
    forall i: nat | i < n && i !in byz ensures scores[i] <= Times((n - f - 2) as real, d) {
      HonestScore(fraction, vs, dim, byz, d, i);
    }
    LowScoresSurvive(scores, byz, f, Times((n - f - 2) as real, d), r);
    LowScoreIsResilient(fraction, vs, dim, byz, d, LowestScores(scores, n - f)[r]);
  }

  /** With at most f scores above a bound, the n − f lowest are within it. */
  lemma LowScoresSurvive(scores: Vec, byz: set<nat>, f: nat, bound: real, r: nat)
    requires |byz| <= f <= |scores| && r < |scores| - f
    requires forall i: nat | i < |scores| && i !in byz :: scores[i] <= bound
    ensures var i := LowestScores(scores, |scores| - f)[r]; i < |scores| && scores[i] <= bound
  {
    hide SortBy, CountIf;
    var n, key := |scores|, ScoreKey(scores);
    var tooHigh := (i: nat) => key(i) > bound;
    RankingIsPermutation(n, key);
    CountWithin<nat>(Indices(n), tooHigh, byz);
    RankKeyFromAbove<nat>(Indices(n), key, tooHigh, f, bound);
  }

  // ----- what the citations ask of a batch (preconditions.rs) -----

  datatype BatchRequirement = BatchRequirement(required: nat, excluded: nat, citation: string) {
    predicate SatisfiedBy(n: nat) {
      n >= required
    }
  }

  /** `excluded_at` */
  function ExcludedAt(fraction: real, n: nat): nat {
    var floor := FloorToNat(fraction * n as real);
    var cap := if n >= 1 then n - 1 else 0;
    if floor <= cap then floor else cap
  }

  /** `batch_requirement` */
  function Requirement(aggregator: string, fraction: real, n: nat): Option<BatchRequirement> {
    if n == 0 || !(0.0 <= fraction <= 1.0) then None
    else
      var excluded := ExcludedAt(fraction, n);
      if aggregator == "krum" || aggregator == "multi_krum" then
        Some(BatchRequirement(2 * excluded + 3, excluded, "Krum requires n >= 2f + 3"))
      else if aggregator == "bulyan" then
        Some(BatchRequirement(4 * excluded + 3, excluded, "Bulyan requires n >= 4f + 3"))
      else if aggregator == "trimmed_mean" then
        Some(BatchRequirement(2 * excluded + 1, excluded, "the trimmed mean must keep >= 1 value"))
      else None
  }

  /** A reported and satisfied requirement is exactly the hypothesis of the matching theorem, for
      up to `excluded` attackers; the two crates' copies of the count agree. Bulyan's is another matter:
      see `BulyanTolerance`. */
  lemma RequirementIsTheHypothesis(fraction: real, n: nat, byz: set<nat>)
    requires n > 0 && 0.0 <= fraction <= 1.0 && forall i | i in byz :: i < n
    ensures ExcludedAt(fraction, n) == ByzantineCount(fraction, n)
    ensures var r := Requirement("krum", fraction, n);
      r.Some? && (KrumRegime(fraction, n, byz) <==> r.value.SatisfiedBy(n) && |byz| <= r.value.excluded)
    ensures var r := Requirement("trimmed_mean", fraction, n);
      r.Some? && (r.value.SatisfiedBy(n) <==> TrimCount(fraction, n) == r.value.excluded)
  {
  }

  /** Below one half, Krum's requirement is met by every n ≥ 3/(1 − 2·fraction). */
  lemma KrumRequirementIsMet(fraction: real, n: nat)
    requires 0.0 <= fraction < 0.5 && n as real >= 3.0 / (1.0 - 2.0 * fraction)
    ensures n > 0 && Requirement("krum", fraction, n).Some?
    ensures Requirement("krum", fraction, n).value.SatisfiedBy(n)
  {
    var slack := 1.0 - 2.0 * fraction;
    Divide(3.0, slack);
    DivideNonNegative(3.0, slack);
    Monotone(3.0 / slack, n as real, slack);
    Distribute(1.0, 2.0 * fraction, n as real);
    Associate(2.0, fraction, n as real);
    Commute(slack, n as real);
    var share := Times(fraction, n as real);
    assert n as real - 2.0 * share >= 3.0;
    NonNegative(fraction, n as real);
    assert ExcludedAt(fraction, n) as real <= share;
  }
}
