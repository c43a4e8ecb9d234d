// The coordinate-wise robust statistics of robust.rs: trimmed mean, median and median of means.
// The honest-range theorems: with few enough Byzantine clients, every output coordinate lies
// between the smallest and the largest honest value at that coordinate.
module OrderStatistics {
  import opened Reals
  import opened Vectors
  import opened Wrappers
  import opened Updates
  import opened Sorting

  /** `byzantine_count`: floor of the assumed share, leaving at least one update. */
  function ByzantineCount(fraction: real, n: nat): (f: nat)
    ensures n > 0 ==> f < n
  {
    var floor := FloorToNat(fraction * n as real);
    var cap := if n == 0 then 0 else n - 1;
    if floor <= cap then floor else cap
  }

  /** The number trimmed from each end: never so many that nothing survives. */
  function TrimCount(fraction: real, n: nat): (t: nat)
    requires n > 0
    ensures 2 * t < n
  {
    var f := ByzantineCount(fraction, n);
    if f <= (n - 1) / 2 then f else (n - 1) / 2
  }

  datatype Statistic = TrimmedMean(fraction: real) | Median | MedianOfMeans(groupSize: nat)

  function Average(v: Vec): real
    requires |v| > 0
  {
    Total(v) / |v| as real
  }

  /** The middle of a sorted list, or the mean of its two middles. */
  function Middle(s: Vec): real
    requires |s| > 0
  {
    var n := |s|;
    if n % 2 == 1 then s[n / 2] else (s[n / 2 - 1] + s[n / 2]) / 2.0
  }

  /** `chunks(size)`: how many there are, and the k-th of them. */
  function GroupCount(n: nat, size: nat): nat
    requires size > 0
  {
    (n + size - 1) / size
  }

  function Group(v: Vec, size: nat, k: nat): (g: Vec)
    requires size > 0 && k < GroupCount(|v|, size)
    ensures 0 < |g| <= size
  {
    GroupStart(|v|, size, k);
    v[k * size..if (k + 1) * size <= |v| then (k + 1) * size else |v|]
  }

  lemma GroupStart(n: nat, size: nat, k: nat)
    requires size > 0 && k < GroupCount(n, size)
    ensures 0 <= k * size < n && (k + 1) * size == k * size + size
  {
    var q := (n + size - 1) / size;
    assert q * size <= n + size - 1;
    assert (k + 1) * size <= q * size by { NatMonotone(k + 1, q, size); }
  }

  lemma NatMonotone(a: nat, b: nat, c: nat)
    requires a <= b
    ensures a * c <= b * c
  {
  }

  function GroupMeans(v: Vec, size: nat): (m: Vec)
    requires size > 0
    ensures |m| == GroupCount(|v|, size)
  {
    seq(GroupCount(|v|, size), k requires 0 <= k < GroupCount(|v|, size) => Average(Group(v, size, k)))
  }

  /** What `combine` computes for one coordinate's values. */
  function Combined(stat: Statistic, v: Vec): real
    requires |v| > 0
  {
    match stat
    case TrimmedMean(fraction) =>
      var t := TrimCount(fraction, |v|);
      Average(Sort(v)[t..|v| - t])
    case Median => Middle(Sort(v))
    case MedianOfMeans(size) =>
      var g := if size >= 1 then size else 1;
      SomeGroup(|v|, g);
      Middle(Sort(GroupMeans(v, g)))
  }

  lemma SomeGroup(n: nat, size: nat)
    requires n > 0 && size > 0
    ensures GroupCount(n, size) > 0
  {
  }

  /** `combine`: the slice is scratch space, and the order-based statistics leave it sorted. */
  method Combine(stat: Statistic, values: array<real>) returns (r: real)
    requires values.Length > 0
    modifies values
    ensures r == Combined(stat, old(values[..]))
    ensures values[..] == if stat.MedianOfMeans? then old(values[..]) else Sort(old(values[..]))
  {
    hide Sort, TrimCount, GroupCount, GroupMeans;
    var n := values.Length;
    match stat
    case TrimmedMean(fraction) =>
      SortInPlace(values);
      var trim := TrimCount(fraction, n);
      var sum := SumOf(values[trim..n - trim]);
      r := sum / (n - 2 * trim) as real;
    case Median =>
      SortInPlace(values);
      r := Middle(values[..]);
    case MedianOfMeans(size) =>
      var g := if size >= 1 then size else 1;
      SomeGroup(n, g);
      var means := MeansOfGroups(values, g);
      SortInPlace(means);
      r := Middle(means[..]);
  }

  /** `chunks(size).map(..)`: the mean of each group. */
  method MeansOfGroups(values: array<real>, size: nat) returns (means: array<real>)
    requires size > 0
    ensures fresh(means) && means[..] == GroupMeans(values[..], size)
  {
    hide Group;
    means := new real[GroupCount(values.Length, size)];
    for k := 0 to means.Length
      invariant forall j | 0 <= j < k :: means[j] == Average(Group(values[..], size, j))
    {
      var group := Group(values[..], size, k);
      var sum := SumOf(group);
      means[k] := sum / |group| as real;
    }
    assert means[..] == GroupMeans(values[..], size);
  }

  /** `iter().sum()` */
  method SumOf(v: Vec) returns (s: real)
    ensures s == Total(v)
  {
    s := 0.0;
    for i := 0 to |v|
      invariant s == Total(v[..i])
    {
      s := s + v[i];
      assert v[..i + 1][..i] == v[..i];
    }
    assert v[..|v|] == v;
  }

  // ----- honest range -----

  /** Everyone outside `byz` reports a value between lo and hi. */
  predicate HonestBetween(v: Vec, byz: set<nat>, lo: real, hi: real) {
    forall i: nat | i < |v| && i !in byz :: lo <= v[i] <= hi
  }

  lemma FewOutliers(v: Vec, byz: set<nat>, lo: real, hi: real)
    requires HonestBetween(v, byz, lo, hi)
    ensures CountIf(v, Below(lo)) <= |byz| && CountIf(v, Above(hi)) <= |byz|
  {
    CountWithin(v, Below(lo), byz);
    CountWithin(v, Above(hi), byz);
  }

  /** Ranks at distance |byz| from both ends are honest-bounded. */
  lemma InnerRanksHonest(v: Vec, byz: set<nat>, lo: real, hi: real)
    requires HonestBetween(v, byz, lo, hi)
    ensures forall i | |byz| <= i < |v| - |byz| :: lo <= Sort(v)[i] <= hi
  {
    FewOutliers(v, byz, lo, hi);
    RankFromBelow(v, |byz|, lo);
    RankFromAbove(v, |byz|, hi);
  }

  lemma AverageBetween(v: Vec, lo: real, hi: real)
    requires |v| > 0 && forall i | 0 <= i < |v| :: lo <= v[i] <= hi
    ensures lo <= Average(v) <= hi
  {
    var n := |v| as real;
    TotalBetween(v, lo, hi);
    Commute(n, lo);
    Commute(n, hi);
    DivideBound(Total(v), n, lo);
    DivideBound(Total(v), n, hi);
  }

  lemma {:induction false} TotalBetween(v: Vec, lo: real, hi: real)
    requires forall i | 0 <= i < |v| :: lo <= v[i] <= hi
    ensures Times(|v| as real, lo) <= Total(v) <= Times(|v| as real, hi)
  {
    if |v| > 0 {
      TotalBetween(v[..|v|-1], lo, hi);
      Distribute((|v| - 1) as real, 1.0, lo);
      Distribute((|v| - 1) as real, 1.0, hi);
    }
  }

  /** Trimmed mean: safe while the Byzantine clients number at most the trim count. */
  lemma TrimmedMeanHonest(fraction: real, v: Vec, byz: set<nat>, lo: real, hi: real)
    requires |v| > 0 && HonestBetween(v, byz, lo, hi)
    requires |byz| <= TrimCount(fraction, |v|)
    ensures lo <= Combined(TrimmedMean(fraction), v) <= hi
  {
    InnerRanksHonest(v, byz, lo, hi);
    var t := TrimCount(fraction, |v|);
    AverageBetween(Sort(v)[t..|v| - t], lo, hi);
  }

  /** Median: safe while the Byzantine clients are fewer than half the batch. */
  lemma MedianHonest(v: Vec, byz: set<nat>, lo: real, hi: real)
    requires |v| > 0 && HonestBetween(v, byz, lo, hi) && 2 * |byz| < |v|
    ensures lo <= Middle(Sort(v)) <= hi
  {
    InnerRanksHonest(v, byz, lo, hi);
  }

  // ----- median of means -----

  /** The groups that hold a member of `byz`. */
  function GroupOf(i: nat, size: nat): nat
    requires size > 0
  {
    i / size
  }

  function Touched(byz: set<nat>, size: nat): set<nat>
    requires size > 0
  {
    set i | i in byz :: GroupOf(i, size)
  }

  /** b clients touch at most b groups. */
  lemma {:induction false} TouchesFew(byz: set<nat>, size: nat)
    requires size > 0
    ensures |Touched(byz, size)| <= |byz|
  {
    if byz == {} {
      assert Touched(byz, size) == {};
    } else {
      var i :| i in byz;
      TouchesFew(byz - {i}, size);
      assert Touched(byz, size) == Touched(byz - {i}, size) + {GroupOf(i, size)};
    }
  }

  lemma GroupIndex(k: nat, size: nat, j: nat)
    requires size > 0 && j < size
    ensures GroupOf(k * size + j, size) == k
  {
    var x := k * size + j;
    var q := x / size;
    assert x == q * size + x % size;
    if q > k { NatMonotone(k + 1, q, size); }
    if q < k { NatMonotone(q + 1, k, size); }
  }

  lemma UntouchedMeansHonest(v: Vec, size: nat, byz: set<nat>, lo: real, hi: real)
    requires size > 0 && HonestBetween(v, byz, lo, hi)
    ensures HonestBetween(GroupMeans(v, size), Touched(byz, size), lo, hi)
  {
    forall k: nat | k < GroupCount(|v|, size) && k !in Touched(byz, size)
      ensures lo <= GroupMeans(v, size)[k] <= hi
    {
      var g := Group(v, size, k);
      GroupStart(|v|, size, k);
      forall j | 0 <= j < |g| ensures lo <= g[j] <= hi {
        GroupIndex(k, size, j);
        assert g[j] == v[k * size + j];
      }
      AverageBetween(g, lo, hi);
    }
  }

  /** Median of means: safe while the Byzantine clients are fewer than half the groups. */
  lemma MedianOfMeansHonest(groupSize: nat, v: Vec, byz: set<nat>, lo: real, hi: real)
    requires |v| > 0 && HonestBetween(v, byz, lo, hi)
    requires 2 * |byz| < GroupCount(|v|, if groupSize >= 1 then groupSize else 1)
    ensures lo <= Combined(MedianOfMeans(groupSize), v) <= hi
  {
    var g := if groupSize >= 1 then groupSize else 1;
    UntouchedMeansHonest(v, g, byz, lo, hi);
    TouchesFew(byz, g);
    MedianHonest(GroupMeans(v, g), Touched(byz, g), lo, hi);
  }

  // ----- degenerate parameters -----

  lemma {:induction false} TotalInsert(s: Vec, x: real)
    ensures Total(Insert(s, x, Itself())) == Total(s) + x
  {
    if |s| == 0 || Itself()(s[|s|-1]) <= Itself()(x) {
      assert (s + [x])[..|s|] == s;
    } else {
      TotalInsert(s[..|s|-1], x);
      var r := Insert(s[..|s|-1], x, Itself());
      assert (r + [s[|s|-1]])[..|r|] == r;
    }
  }

  lemma {:induction false} TotalSort(s: Vec)
    ensures Total(Sort(s)) == Total(s)
  {
    if |s| > 0 {
      TotalSort(s[..|s|-1]);
      TotalInsert(Sort(s[..|s|-1]), s[|s|-1]);
    }
  }

  /** With no Byzantine client assumed the trimmed mean is the mean. */
  lemma NoTrimIsMean(fraction: real, v: Vec)
    requires |v| > 0 && TrimCount(fraction, |v|) == 0
    ensures Combined(TrimmedMean(fraction), v) == Average(v)
  {
    TotalSort(v);
    assert Sort(v)[0..|v|] == Sort(v);
  }

  /** With groups of one the median of means is the median. */
  lemma GroupsOfOne(v: Vec)
    requires |v| > 0
    ensures Combined(MedianOfMeans(1), v) == Combined(Median, v)
  {
    forall k | 0 <= k < |v| ensures GroupMeans(v, 1)[k] == v[k] {
      GroupStart(|v|, 1, k);
      var g := Group(v, 1, k);
      assert |g| == 1 && g[0] == v[k];
      assert g[..0] == [] && Total(g) == v[k];
    }
    assert GroupMeans(v, 1) == v;
  }

  // ----- what the statistics are -----

  /** x is what a sorted list of the values would hold at position i. */
  ghost predicate HasRank(v: Vec, i: nat, x: real) {
    i < |v| && x in v && CountIf(v, Below(x)) <= i && CountIf(v, Above(x)) <= |v| - 1 - i
  }

  lemma SortedHasRank(v: Vec, i: nat)
    requires i < |v|
    ensures HasRank(v, i, Sort(v)[i])
  {
    hide Sort, CountIf, Below, Above;
    var s := Sort(v);
    SortIsSorted(v);
    SortPermutes(v);
    assert s[i] in multiset(s);
    CountSorted(v, Below(s[i]));
    CountSorted(v, Above(s[i]));
    RankInSorted(s, i);
  }

  lemma RankInSorted(s: Vec, i: nat)
    requires i < |s| && forall a, b | 0 <= a < b < |s| :: s[a] <= s[b]
    ensures CountIf(s, Below(s[i])) <= i && CountIf(s, Above(s[i])) <= |s| - 1 - i
  {
    hide CountIf, Below, Above;
    var x := s[i];
    var head, tail := s[..i + 1], s[i..];
    forall j | 0 <= j < |tail| ensures tail[j] >= x {
      assert tail[j] == s[i + j] && (j > 0 ==> s[i] <= s[i + j]);
    }
    NothingBelow(tail, x);
    forall j | 0 <= j < |head| ensures head[j] <= x {
      assert j < i ==> s[j] <= s[i];
    }
    NoneAbove(head, x);
    assert s == s[..i] + s[i..] && s == s[..i + 1] + s[i + 1..];
    CountConcat(s[..i], s[i..], Below(x));
    CountConcat(s[..i + 1], s[i + 1..], Above(x));
  }

  lemma {:induction false} NoneAbove(s: Vec, hi: real)
    requires forall i | 0 <= i < |s| :: s[i] <= hi
    ensures CountIf(s, Above(hi)) == 0
  {
    if |s| > 0 { NoneAbove(s[..|s|-1], hi); }
  }

  /** Only one value has a rank. */
  lemma RankIsUnique(v: Vec, i: nat, x: real, y: real)
    requires HasRank(v, i, x) && HasRank(v, i, y)
    ensures x == y
  {
    if x < y { LowAndHigh(v, x, y); }
    if y < x { LowAndHigh(v, y, x); }
  }

  /** With x < y every value is below y or above x. */
  lemma {:induction false} LowAndHigh(v: Vec, x: real, y: real)
    requires x < y
    ensures CountIf(v, Below(y)) + CountIf(v, Above(x)) >= |v|
  {
    if |v| > 0 { LowAndHigh(v[..|v|-1], x, y); }
  }

  /** The median is halfway between the two values of middle rank, which for an odd number are one. */
  lemma MedianIs(v: Vec) returns (lo: real, hi: real)
    requires |v| > 0
    ensures HasRank(v, (|v| - 1) / 2, lo) && HasRank(v, |v| / 2, hi) && 2.0 * Combined(Median, v) == lo + hi
  {
    hide HasRank, Sort;
    lo, hi := Sort(v)[(|v| - 1) / 2], Sort(v)[|v| / 2];
    SortedHasRank(v, (|v| - 1) / 2);
    SortedHasRank(v, |v| / 2);
  }

  /** low, kept and high are the values, t of them low and t high, and none out of order. */
  ghost predicate Trims(v: Vec, t: nat, low: Vec, kept: Vec, high: Vec) {
    && multiset(v) == multiset(low) + multiset(kept) + multiset(high)
    && |low| == |high| == t && |kept| > 0
    && (forall i, j | 0 <= i < |low| && 0 <= j < |kept| :: low[i] <= kept[j])
    && (forall i, j | 0 <= i < |kept| && 0 <= j < |high| :: kept[i] <= high[j])
  }

  /** The trimmed mean is the mean of what is left when the t least and the t greatest are gone. */
  lemma TrimmedMeanIs(fraction: real, v: Vec) returns (low: Vec, kept: Vec, high: Vec)
    requires |v| > 0
    ensures Trims(v, TrimCount(fraction, |v|), low, kept, high) && |kept| == |v| - 2 * TrimCount(fraction, |v|)
    ensures Times(|kept| as real, Combined(TrimmedMean(fraction), v)) == Total(kept)
  {
    hide Sort, TrimCount;
    var s, t, n := Sort(v), TrimCount(fraction, |v|), |v|;
    low, kept, high := s[..t], s[t..n - t], s[n - t..];
    SortIsSorted(v);
    SortPermutes(v);
    assert s == low + kept + high;
    Divide(Total(kept), |kept| as real);
  }

  lemma SortPermutes(v: Vec)
    ensures multiset(Sort(v)) == multiset(v)
  {
    SortByPermutes(v, Itself());
  }

  /** How many are trimmed: the assumed share rounded down, but never so many that nothing is left. */
  lemma TrimCountIs(fraction: real, n: nat)
    requires n > 0 && fraction >= 0.0
    ensures var t := TrimCount(fraction, n);
      && 2 * t < n && t as real <= Times(fraction, n as real)
      && (Times(fraction, n as real) < (t + 1) as real || 2 * (t + 1) >= n)
  {
    NonNegative(fraction, n as real);
  }

  /** m holds the means of the consecutive chunks of `size` values, the last of which may be shorter. */
  ghost predicate ChunkMeans(v: Vec, size: nat, m: Vec) {
    && |m| > 0 && (|m| - 1) * size < |v| <= |m| * size
    && forall k: nat | k < |m| :: ChunkMean(v, k * size, if k == |m| - 1 then |v| else (k + 1) * size, m[k])
  }

  ghost predicate ChunkMean(v: Vec, lo: nat, hi: nat, mean: real) {
    lo < hi <= |v| && Times((hi - lo) as real, mean) == Total(v[lo..hi])
  }

  lemma GroupMeansAreMeans(v: Vec, size: nat)
    requires |v| > 0 && size > 0
    ensures ChunkMeans(v, size, GroupMeans(v, size))
  {
    hide GroupMeans, ChunkMean;
    var m, n := GroupMeans(v, size), |v|;
    SomeGroup(n, size);
    EnoughGroups(n, size);
    GroupStart(n, size, |m| - 1);
    forall k: nat | k < |m|
      ensures ChunkMean(v, k * size, if k == |m| - 1 then n else (k + 1) * size, m[k])
    {
      GroupMeanIs(v, size, k);
    }
  }

  lemma EnoughGroups(n: nat, size: nat)
    requires size > 0
    ensures n <= GroupCount(n, size) * size
  {
    var q := (n + size - 1) / size;
    assert n + size - 1 == q * size + (n + size - 1) % size;
  }

  lemma GroupMeanIs(v: Vec, size: nat, k: nat)
    requires size > 0 && k < GroupCount(|v|, size)
    ensures ChunkMean(v, k * size, if k == GroupCount(|v|, size) - 1 then |v| else (k + 1) * size,
                      GroupMeans(v, size)[k])
  {
    var n, last := |v|, GroupCount(|v|, size) - 1;
    GroupStart(n, size, k);
    EnoughGroups(n, size);
    if k < last { GroupStart(n, size, k + 1); }
    hide GroupCount;
    var g := Group(v, size, k);
    assert k == last ==> g == v[k * size..n];
    Divide(Total(g), |g| as real);
  }

  /** The median of means is the median of the chunks' means; one chunk gives the plain mean. */
  lemma MedianOfMeansIs(v: Vec, size: nat)
    requires |v| > 0
    ensures exists m ::
      ChunkMeans(v, if size >= 1 then size else 1, m) && Combined(MedianOfMeans(size), v) == Combined(Median, m)
    ensures size >= |v| ==> Times(|v| as real, Combined(MedianOfMeans(size), v)) == Total(v)
  {
    hide GroupMeans, ChunkMeans, GroupCount, Sort;
    var g := if size >= 1 then size else 1;
    GroupMeansAreMeans(v, g);
    var m := GroupMeans(v, g);
    SomeGroup(|v|, g);
    assert Combined(MedianOfMeans(size), v) == Combined(Median, m);
    if size >= |v| { OneChunkMean(v, size, m); }
  }

  lemma OneChunkMean(v: Vec, size: nat, m: Vec)
    requires 0 < |v| <= size && ChunkMeans(v, size, m)
    ensures Times(|v| as real, Combined(Median, m)) == Total(v)
  {
    hide Times;
    OneChunk(|v|, size, |m|);
    assert v[0..|v|] == v;
    assert ChunkMean(v, 0 * size, |v|, m[0]);
    SortedOne(m);
  }

  lemma OneChunk(n: nat, size: nat, chunks: nat)
    requires 0 < n <= size && chunks > 0 && (chunks - 1) * size < n
    ensures chunks == 1
  {
    if chunks > 1 { NatMonotone(1, chunks - 1, size); }
  }

  lemma SortedOne(m: Vec)
    requires |m| == 1
    ensures Sort(m) == m
  {
    assert m[..0] == [];
  }

  // ----- the aggregator -----

  function PerCoordinate(stat: Statistic, vs: seq<Vec>, dim: nat): (r: Vec)
    requires |vs| > 0 && Rect(vs, dim)
    ensures |r| == dim
  {
    seq(dim, k requires 0 <= k < dim => Combined(stat, Coordinate(vs, dim, k)))
  }

  function CoordinateWise(stat: Statistic, updates: seq<ClientDelta>): Outcome {
    if |updates| == 0 then Err(EmptyBatch)
    else
      match DecodeAndValidate(updates)
      case Err(e) => Err(e)
      case Ok(vs) =>
        Ok(PerCoordinate(stat, vs, Dim(updates)))
  }

  lemma PerCoordinateAt(stat: Statistic, vs: seq<Vec>, dim: nat, k: nat)
    requires |vs| > 0 && Rect(vs, dim) && k < dim
    ensures PerCoordinate(stat, vs, dim)[k] == Combined(stat, Coordinate(vs, dim, k))
  {
    hide Combined;
  }

  /** `CoordinateWiseAggregator::aggregate` */
  method Aggregate(stat: Statistic, updates: seq<ClientDelta>) returns (r: Outcome)
    ensures r == CoordinateWise(stat, updates)
  {
    hide Combined, Decoded, PerCoordinate, DecodeAndValidate;
    if |updates| == 0 { return Err(EmptyBatch); }
    var decoded := DecodeAndValidate(updates);
    if decoded.Err? { return Err(decoded.error); }
    var vs, dim := decoded.value, Dim(updates);
    var result: Vec := [];
    for k := 0 to dim
      invariant result == PerCoordinate(stat, vs, dim)[..k]
    {
      var column := new real[|vs|](i requires 0 <= i < |vs| => vs[i][k]);
      assert column[..] == Coordinate(vs, dim, k);
      PerCoordinateAt(stat, vs, dim, k);
      var x := Combine(stat, column);
      result := result + [x];
    }
    assert result == PerCoordinate(stat, vs, dim);
    r := Ok(result);
  }

  /** How many Byzantine clients the statistic withstands in a batch of n. */
  predicate Withstands(stat: Statistic, n: nat, b: nat)
    requires n > 0
  {
    match stat
    case TrimmedMean(fraction) => b <= TrimCount(fraction, n)
    case Median => 2 * b < n
    case MedianOfMeans(size) => 2 * b < GroupCount(n, if size >= 1 then size else 1)
  }

  /** The honest-range theorem, for every statistic, batch, coordinate and attacker set. */
  lemma HonestRange(stat: Statistic, updates: seq<ClientDelta>, byz: set<nat>, k: nat, lo: real, hi: real)
    requires |updates| > 0 && Acceptable(updates) && k < Dim(updates)
    requires forall i: nat | i < |updates| && i !in byz :: lo <= Decoded(updates)[i][k] <= hi
    requires Withstands(stat, |updates|, |byz|)
    ensures CoordinateWise(stat, updates).Ok?
    ensures lo <= CoordinateWise(stat, updates).value[k] <= hi
  {
    var v := Coordinate(Decoded(updates), Dim(updates), k);
    assert HonestBetween(v, byz, lo, hi);
    match stat
    case TrimmedMean(fraction) => TrimmedMeanHonest(fraction, v, byz, lo, hi);
    case Median => MedianHonest(v, byz, lo, hi);
    case MedianOfMeans(size) => MedianOfMeansHonest(size, v, byz, lo, hi);
  }

  // ----- the tolerance is exact -----

  /** b clients, one at the head of each of the first b groups, report 1; everyone else reports 0. */
  function Attack(n: nat, size: nat, b: nat): (v: Vec)
    requires size > 0
    ensures |v| == n
  {
    seq(n, i requires 0 <= i < n => if i % size == 0 && GroupOf(i, size) < b then 1.0 else 0.0)
  }

  function Attackers(n: nat, size: nat, b: nat): set<nat>
    requires size > 0
  {
    set i: nat | i < n && i % size == 0 && GroupOf(i, size) < b
  }

  lemma {:induction false} AttackersAreFew(n: nat, size: nat, b: nat)
    requires size > 0
    ensures |Attackers(n, size, b)| <= b
  {
    if b == 0 {
      assert Attackers(n, size, b) == {};
    } else {
      AttackersAreFew(n, size, b - 1);
      var last: nat := (b - 1) * size;
      forall i | i in Attackers(n, size, b) ensures i in Attackers(n, size, b - 1) + {last} {
        assert i == GroupOf(i, size) * size + i % size;
      }
      assert Attackers(n, size, b) <= Attackers(n, size, b - 1) + {last};
      SubsetSize(Attackers(n, size, b), Attackers(n, size, b - 1) + {last});
    }
  }

  lemma {:induction false} SubsetSize<T>(a: set<T>, b: set<T>)
    requires a <= b
    ensures |a| <= |b|
  {
    if a != {} {
      var x :| x in a;
      SubsetSize(a - {x}, b - {x});
    }
  }

  /** When at most half of non-negative values are below lo > 0, their median is positive. */
  lemma MiddleLifted(m: Vec, lo: real)
    requires |m| > 0 && lo > 0.0 && forall i | 0 <= i < |m| :: m[i] >= 0.0
    requires CountIf(m, Below(lo)) <= |m| / 2
    ensures Middle(Sort(m)) > 0.0
  {
    RankFromBelow(m, |m| / 2, lo);
    NothingBelow(m, 0.0);
    RankFromBelow(m, 0, 0.0);
  }

  /** A sum of non-negative values with a positive one is positive. */
  lemma AverageLifted(v: Vec, i: nat, lo: real)
    requires i < |v| && lo > 0.0 && v[i] >= lo && forall j | 0 <= j < |v| :: v[j] >= 0.0
    ensures Average(v) > 0.0 && Average(v) >= lo / |v| as real
  {
    TotalNonNegative(v);
    var n := |v| as real;
    Divide(lo, n);
    DivideBound(Total(v), n, lo / n);
    DivideNonNegative(lo, n);
  }

  lemma AttackOnRanks(n: nat, b: nat)
    requires b <= n
    ensures CountIf(Attack(n, 1, b), Below(1.0)) <= n - b
  {
    var v := Attack(n, 1, b);
    assert forall i | 0 <= i < n :: GroupOf(i, 1) == i;
    assert v[..b] + v[b..] == v;
    CountConcat(v[..b], v[b..], Below(1.0));
    NothingBelow(v[..b], 1.0);
  }

  lemma AttackOnGroup(n: nat, size: nat, b: nat, k: nat)
    requires size > 0 && b <= GroupCount(n, size) && k < GroupCount(n, size)
    ensures var mean := GroupMeans(Attack(n, size, b), size)[k];
      mean >= 0.0 && (k < b ==> mean >= 1.0 / size as real)
  {
    var v := Attack(n, size, b);
    var g := Group(v, size, k);
    GroupStart(n, size, k);
    GroupIndex(k, size, 0);
    assert k * size % size == 0 by { MultipleHasNoRemainder(k, size); }
    forall j | 0 <= j < |g| ensures g[j] >= 0.0 {
      assert g[j] == v[k * size + j];
    }
    assert g[0] == v[k * size];
    TotalNonNegative(g);
    DivideNonNegative(Total(g), |g| as real);
    if k < b {
      AverageLifted(g, 0, 1.0);
      SmallerDivisor(|g| as real, size as real);
    }
  }

  lemma AttackOnGroups(n: nat, size: nat, b: nat)
    requires size > 0 && b <= GroupCount(n, size)
    ensures forall k | 0 <= k < GroupCount(n, size) :: GroupMeans(Attack(n, size, b), size)[k] >= 0.0
    ensures CountIf(GroupMeans(Attack(n, size, b), size), Below(1.0 / size as real)) <= GroupCount(n, size) - b
  {
    hide Attack, GroupMeans, GroupCount, CountIf;
    var v, lo := Attack(n, size, b), 1.0 / size as real;
    var m := GroupMeans(v, size);
    forall k | 0 <= k < |m| ensures m[k] >= 0.0 && (k < b ==> m[k] >= lo) {
      AttackOnGroup(n, size, b, k);
    }
    CountConcat(m[..b], m[b..], Below(lo));
    assert m[..b] + m[b..] == m;
    NothingBelow(m[..b], lo);
  }

  lemma MultipleHasNoRemainder(k: nat, size: nat)
    requires size > 0
    ensures k * size % size == 0
  {
    GroupIndex(k, size, 0);
    assert k * size == GroupOf(k * size, size) * size + k * size % size;
  }

  lemma SmallerDivisor(x: real, y: real)
    requires 0.0 < x <= y
    ensures 1.0 / x >= 1.0 / y
  {
    Divide(1.0, y);
    DivideNonNegative(1.0, y);
    Monotone(x, y, 1.0 / y);
    DivideBound(1.0, x, 1.0 / y);
  }

  /** Beyond the tolerance the guarantee fails: some b clients drag the statistic away from a value
      every honest client agrees on. With `HonestRange`, `Withstands` is exactly when it holds. */
  lemma ToleranceIsExact(stat: Statistic, n: nat, b: nat) returns (v: Vec, byz: set<nat>)
    requires n > 0 && b <= n && !Withstands(stat, n, b)
    ensures |v| == n && |byz| <= b && HonestBetween(v, byz, 0.0, 0.0)
    ensures Combined(stat, v) > 0.0
  {
    var size := match stat case MedianOfMeans(s) => if s >= 1 then s else 1 case _ => 1;
    SomeGroup(n, size);
    var c := if stat.MedianOfMeans? && b > GroupCount(n, size) then GroupCount(n, size) else b;
    v, byz := Attack(n, size, c), Attackers(n, size, c);
    AttackersAreFew(n, size, c);
    AttackSpares(n, size, c);
    match stat
    case TrimmedMean(fraction) => TrimmedMeanFalls(fraction, n, b);
    case Median => MedianFalls(n, b);
    case MedianOfMeans(_) => MedianOfMeansFalls(n, size, c);
  }

  lemma AttackSpares(n: nat, size: nat, b: nat)
    requires size > 0
    ensures HonestBetween(Attack(n, size, b), Attackers(n, size, b), 0.0, 0.0)
  {
  }

  lemma TrimmedMeanFalls(fraction: real, n: nat, b: nat)
    requires n > 0 && TrimCount(fraction, n) < b <= n
    ensures Combined(TrimmedMean(fraction), Attack(n, 1, b)) > 0.0
  {
    AttackOnRanks(n, b);
    hide CountIf, Combined;
    TrimmedMeanLifted(fraction, Attack(n, 1, b));
  }

  /** When more of non-negative values reach 1 than are trimmed, their trimmed mean is positive. */
  lemma TrimmedMeanLifted(fraction: real, v: Vec)
    requires |v| > 0 && forall i | 0 <= i < |v| :: v[i] >= 0.0
    requires CountIf(v, Below(1.0)) < |v| - TrimCount(fraction, |v|)
    ensures Combined(TrimmedMean(fraction), v) > 0.0
  {
    hide Sort, CountIf, TrimCount, Average;
    var n, t, s := |v|, TrimCount(fraction, |v|), Sort(v);
    RankFromBelow(v, n - t - 1, 1.0);
    NothingBelow(v, 0.0);
    RankFromBelow(v, 0, 0.0);
    SliceLifted(s, t);
  }

  lemma SliceLifted(s: Vec, t: nat)
    requires 2 * t < |s| && s[|s| - t - 1] >= 1.0 && forall i | 0 <= i < |s| :: s[i] >= 0.0
    ensures Average(s[t..|s| - t]) > 0.0
  {
    hide Average;
    var kept := s[t..|s| - t];
    assert kept[|kept| - 1] == s[|s| - t - 1];
    AverageLifted(kept, |kept| - 1, 1.0);
  }

  lemma MedianFalls(n: nat, b: nat)
    requires 0 < n <= 2 * b && b <= n
    ensures Combined(Median, Attack(n, 1, b)) > 0.0
  {
    AttackOnRanks(n, b);
    hide CountIf;
    MiddleLifted(Attack(n, 1, b), 1.0);
  }

  lemma MedianOfMeansFalls(n: nat, size: nat, b: nat)
    requires n > 0 && size > 0 && b <= GroupCount(n, size) <= 2 * b
    ensures Combined(MedianOfMeans(size), Attack(n, size, b)) > 0.0
  {
    hide GroupMeans, GroupCount, CountIf;
    SomeGroup(n, size);
    AttackOnGroups(n, size, b);
    DivideNonNegative(1.0, size as real);
    MiddleLifted(GroupMeans(Attack(n, size, b), size), 1.0 / size as real);
  }
}
