// A round's submissions and the checks every aggregator runs first (weights.rs), and the plain
// weighted mean they reduce to (averaging.rs).
module Updates {
  import opened Reals
  import opened Vectors
  import opened Wrappers

  /** One `f32` of a payload: a finite value, or NaN or an infinity. */
  datatype Weight = Finite(r: real) | NonFinite

  /** A weight payload as `decode_weights` sees it: any multiple of four bytes decodes. */
  datatype Payload = Weights(values: seq<Weight>) | Malformed(len: nat)

  datatype ClientDelta = ClientDelta(
    clientId: string,
    round: nat,
    weights: Payload,
    numSamples: nat,
    localSteps: Option<nat>,
    controlVariate: Option<Payload>)

  datatype AggregatorError =
    | EmptyBatch
    | MalformedWeights(clientId: string, len: nat)
    | MismatchedLength(clientId: string, expected: nat, got: nat)
    | NonFiniteWeights(clientId: string, index: nat)
    | ImplausibleSampleCount(clientId: string, got: nat)
    | ZeroWeightSum

  const MAX_PLAUSIBLE_SAMPLE_COUNT: nat := 0x100_0000_0000

  type Outcome = Result<Vec, AggregatorError>

  /** Every entry of a payload is finite. */
  predicate AllFinite(p: Payload) {
    p.Weights? && forall k | 0 <= k < |p.values| :: p.values[k].Finite?
  }

  function Plain(p: Payload): (v: Vec)
    requires AllFinite(p)
    ensures |v| == |p.values|
  {
    seq(|p.values|, k requires 0 <= k < |p.values| => p.values[k].r)
  }

  /** The payload that carries v. */
  function Wire(v: Vec): (p: Payload)
    ensures AllFinite(p) && Plain(p) == v
  {
    var p := Weights(seq(|v|, i requires 0 <= i < |v| => Finite(v[i])));
    assert Plain(p) == v;
    p
  }

  /** What a batch has to be: decodable, one length, finite, plausible sample counts. */
  predicate Acceptable(updates: seq<ClientDelta>) {
    forall i | 0 <= i < |updates| ::
      && AllFinite(updates[i].weights)
      && updates[0].weights.Weights?
      && |updates[i].weights.values| == |updates[0].weights.values|
      && updates[i].numSamples <= MAX_PLAUSIBLE_SAMPLE_COUNT
  }

  function Decoded(updates: seq<ClientDelta>): (vs: seq<Vec>)
    requires Acceptable(updates)
    ensures |vs| == |updates|
    ensures |updates| > 0 ==> Rect(vs, Dim(updates))
  {
    seq(|updates|, i requires 0 <= i < |updates| => Plain(updates[i].weights))
  }

  function Dim(updates: seq<ClientDelta>): nat
    requires |updates| > 0 && updates[0].weights.Weights?
  {
    |updates[0].weights.values|
  }

  /** `iter().position(..)`: the first non-finite entry from `k` on. */
  function FirstNonFinite(values: seq<Weight>, k: nat): (r: Option<nat>)
    requires k <= |values|
    ensures r.None? <==> forall j | k <= j < |values| :: values[j].Finite?
    ensures r.Some? ==> k <= r.value < |values| && values[r.value].NonFinite?
    ensures r.Some? ==> forall j | k <= j < r.value :: values[j].Finite?
    decreases |values| - k
  {
    if k == |values| then None
    else if values[k].NonFinite? then Some(k)
    else FirstNonFinite(values, k + 1)
  }

  /** The three passes of `decode_and_validate`, each stopping at its first offender. */
  function DecodeError(updates: seq<ClientDelta>, i: nat): (r: Option<AggregatorError>)
    requires i <= |updates|
    ensures r.None? <==> forall k | i <= k < |updates| :: updates[k].weights.Weights?
    ensures r.Some? ==> exists k ::
      && i <= k < |updates| && updates[k].weights.Malformed?
      && (forall j | i <= j < k :: updates[j].weights.Weights?)
      && r.value == MalformedWeights(updates[k].clientId, updates[k].weights.len)
    decreases |updates| - i
  {
    if i == |updates| then None
    else match updates[i].weights
      case Malformed(len) => Some(MalformedWeights(updates[i].clientId, len))
      case Weights(_) => DecodeError(updates, i + 1)
  }

  function LengthError(updates: seq<ClientDelta>, i: nat): (r: Option<AggregatorError>)
    requires i <= |updates| && forall k | 0 <= k < |updates| :: updates[k].weights.Weights?
    ensures r.None? <==>
      forall k | i <= k < |updates| :: |updates[k].weights.values| == |updates[0].weights.values|
    ensures r.Some? ==> exists k ::
      && i <= k < |updates| && |updates[k].weights.values| != |updates[0].weights.values|
      && (forall j | i <= j < k :: |updates[j].weights.values| == |updates[0].weights.values|)
      && r.value == MismatchedLength(updates[k].clientId, |updates[0].weights.values|, |updates[k].weights.values|)
    decreases |updates| - i
  {
    if i == |updates| then None
    else
      var expected, got := |updates[0].weights.values|, |updates[i].weights.values|;
      if got != expected then Some(MismatchedLength(updates[i].clientId, expected, got))
      else LengthError(updates, i + 1)
  }

  predicate Fit(u: ClientDelta) {
    AllFinite(u.weights) && u.numSamples <= MAX_PLAUSIBLE_SAMPLE_COUNT
  }

  /** What an unfit update is refused for: its first non-finite weight, or else its sample count. */
  ghost predicate Refused(u: ClientDelta, e: AggregatorError)
    requires u.weights.Weights?
  {
    !Fit(u) &&
    if AllFinite(u.weights) then e == ImplausibleSampleCount(u.clientId, u.numSamples)
    else exists x: nat ::
      && x < |u.weights.values| && u.weights.values[x].NonFinite?
      && (forall y | 0 <= y < x :: u.weights.values[y].Finite?) && e == NonFiniteWeights(u.clientId, x)
  }

  /** The error of the first unfit update from i on. */
  ghost predicate FirstRefused(updates: seq<ClientDelta>, i: nat, e: AggregatorError)
    requires forall k | 0 <= k < |updates| :: updates[k].weights.Weights?
  {
    exists k ::
      && i <= k < |updates|
      && (forall j | i <= j < k :: Fit(updates[j])) && Refused(updates[k], e)
  }

  function ValueError(updates: seq<ClientDelta>, i: nat): (r: Option<AggregatorError>)
    requires i <= |updates| && forall k | 0 <= k < |updates| :: updates[k].weights.Weights?
    ensures r.None? <==> forall k | i <= k < |updates| :: Fit(updates[k])
    ensures r.Some? ==> FirstRefused(updates, i, r.value)
    decreases |updates| - i
  {
    if i == |updates| then None
    else
      var bad := FirstNonFinite(updates[i].weights.values, 0);
      if bad.Some? then Some(NonFiniteWeights(updates[i].clientId, bad.value))
      else if updates[i].numSamples > MAX_PLAUSIBLE_SAMPLE_COUNT
      then Some(ImplausibleSampleCount(updates[i].clientId, updates[i].numSamples))
      else
        RefusedLater(updates, i);
        ValueError(updates, i + 1)
  }

  lemma RefusedLater(updates: seq<ClientDelta>, i: nat)
    requires i < |updates| && forall k | 0 <= k < |updates| :: updates[k].weights.Weights?
    requires Fit(updates[i])
    ensures forall e :: FirstRefused(updates, i + 1, e) ==> FirstRefused(updates, i, e)
  {
    hide Refused;
  }

  /** `decode_and_validate`: one unfit update refuses the whole batch. */
  function DecodeAndValidate(updates: seq<ClientDelta>): (r: Result<seq<Vec>, AggregatorError>)
    ensures r.Ok? <==> Acceptable(updates)
    ensures r.Ok? ==> r.value == Decoded(updates)
  {
    var e := DecodeError(updates, 0);
    if e.Some? then Err(e.value)
    else
      var l := LengthError(updates, 0);
      if l.Some? then Err(l.value)
      else
        var v := ValueError(updates, 0);
        if v.Some? then Err(v.value) else Ok(Decoded(updates))
  }

  // ----- weighted means -----

  /** Σ c[k]·vs[k] by the shared in-place loop. */
  method WeightedSum(c: Vec, vs: seq<Vec>, dim: nat) returns (w: Vec)
    requires |c| == |vs| && Rect(vs, dim)
    ensures w == Comb(c, vs, dim)
  {
    var acc := new real[dim](_ => 0.0);
    assert acc[..] == Zero(dim);
    for k := 0 to |c|
      invariant acc[..] == Comb(c[..k], vs[..k], dim)
    {
      AccumulateWeighted(acc, vs[k], c[k]);
      assert c[..k + 1][..k] == c[..k] && vs[..k + 1][..k] == vs[..k];
    }
    assert c[..|c|] == c && vs[..|c|] == vs;
    w := acc[..];
  }

  function SampleCounts(updates: seq<ClientDelta>): (c: Vec)
    ensures |c| == |updates| && forall i | 0 <= i < |c| :: c[i] >= 0.0
  {
    seq(|updates|, i requires 0 <= i < |updates| => updates[i].numSamples as real)
  }

  function EqualShares(n: nat): (s: Vec)
    requires n > 0
    ensures |s| == n
  {
    seq(n, _ => 1.0 / n as real)
  }

  /** Normalized non-negative weights are a convex combination. */
  lemma NormalizeIsConvex(c: Vec)
    requires Total(c) > 0.0 && forall i | 0 <= i < |c| :: c[i] >= 0.0
    ensures Total(Over(c, Total(c))) == 1.0
    ensures forall i | 0 <= i < |c| :: Over(c, Total(c))[i] >= 0.0
    ensures forall i | 0 <= i < |c| :: Over(c, Total(c))[i] > 0.0 <==> c[i] > 0.0
  {
    var t := Total(c);
    assert Over(c, t) == Scale(1.0 / t, c) by {
      forall i | 0 <= i < |c| ensures c[i] / t == Times(1.0 / t, c[i]) {
        QuotientAsProduct(c[i], t);
      }
    }
    TotalScale(1.0 / t, c);
    Divide(1.0, t);
    forall i | 0 <= i < |c|
      ensures Over(c, t)[i] >= 0.0 && (Over(c, t)[i] > 0.0 <==> c[i] > 0.0)
    {
      DivideNonNegative(c[i], t);
    }
  }

  lemma QuotientAsProduct(x: real, d: real)
    requires d != 0.0
    ensures x / d == Times(1.0 / d, x)
  {
  }

  lemma {:induction false} TotalConstant(n: nat, x: real)
    ensures Total(seq(n, _ => x)) == Times(n as real, x)
  {
    if n > 0 {
      TotalConstant(n - 1, x);
      assert seq(n, _ => x)[..n - 1] == seq(n - 1, _ => x);
      Distribute((n - 1) as real, 1.0, x);
    }
  }

  lemma EqualSharesAreConvex(n: nat)
    requires n > 0
    ensures Total(EqualShares(n)) == 1.0
    ensures forall i | 0 <= i < n :: EqualShares(n)[i] > 0.0
  {
    TotalConstant(n, 1.0 / n as real);
    assert EqualShares(n) == seq(n, _ => 1.0 / n as real);
    Divide(1.0, n as real);
    DivideNonNegative(1.0, n as real);
  }

  /** FedAvg: the sample-count-weighted mean, or why there is none. */
  function FedAvg(updates: seq<ClientDelta>): Outcome {
    if |updates| == 0 then Err(EmptyBatch)
    else
      match DecodeAndValidate(updates)
      case Err(e) => Err(e)
      case Ok(vs) =>
        var c := SampleCounts(updates);
        if Total(c) == 0.0 then Err(ZeroWeightSum)
        else Ok(Comb(Over(c, Total(c)), vs, Dim(updates)))
  }

  /** `WeightedAverageAggregator<SampleCountWeighting>::aggregate` */
  method FedAvgAggregate(updates: seq<ClientDelta>) returns (r: Outcome)
    ensures r == FedAvg(updates)
  {
    if |updates| == 0 { return Err(EmptyBatch); }
    var decoded := DecodeAndValidate(updates);
    if decoded.Err? { return Err(decoded.error); }
    var c := SampleCounts(updates);
    var total := Total(c);
    if total == 0.0 { return Err(ZeroWeightSum); }
    var mean := WeightedSum(Over(c, total), decoded.value, Dim(updates));
    r := Ok(mean);
  }

  /** Every update weighs in by its sample count: Σn times the mean is Σ n_k·x_k. */
  lemma FedAvgIsWeighted(updates: seq<ClientDelta>)
    requires FedAvg(updates).Ok?
    ensures |updates| > 0 && Acceptable(updates)
    ensures var c := SampleCounts(updates);
      Scale(Total(c), FedAvg(updates).value) == Comb(c, Decoded(updates), Dim(updates))
  {
    var c, vs := SampleCounts(updates), Decoded(updates);
    var t := Total(c);
    CombScale(t, Over(c, t), vs, Dim(updates));
    assert Scale(t, Over(c, t)) == c by {
      forall i | 0 <= i < |c| ensures Times(t, c[i] / t) == c[i] {
        Divide(c[i], t);
      }
    }
  }

  /** Coordinate by coordinate: the number of samples times the mean is the sum of samples times entries. */
  lemma FedAvgIsAverage(updates: seq<ClientDelta>, j: nat)
    requires FedAvg(updates).Ok? && j < |FedAvg(updates).value|
    ensures |updates| > 0 && Acceptable(updates) && |FedAvg(updates).value| == Dim(updates)
    ensures var c := SampleCounts(updates);
      Times(Total(c), FedAvg(updates).value[j]) == Total(Products(c, Coordinate(Decoded(updates), Dim(updates), j)))
  {
    var c := SampleCounts(updates);
    FedAvgIsWeighted(updates);
    CombAt(c, Decoded(updates), Dim(updates), j);
    hide FedAvg, Comb, Total, Products;
    assert Scale(Total(c), FedAvg(updates).value)[j] == Times(Total(c), FedAvg(updates).value[j]);
  }

  /** The number of samples times each entry is the sum over the clients of their samples times their entry. */
  ghost predicate IsWeightedMean(updates: seq<ClientDelta>, mean: Vec)
    requires |updates| > 0 && Acceptable(updates)
  {
    && |mean| == Dim(updates)
    && forall j | 0 <= j < |mean| ::
         var c := SampleCounts(updates);
         Times(Total(c), mean[j]) == Total(Products(c, Coordinate(Decoded(updates), |mean|, j)))
  }

  lemma FedAvgMeans(updates: seq<ClientDelta>)
    requires FedAvg(updates).Ok?
    ensures |updates| > 0 && Acceptable(updates) && IsWeightedMean(updates, FedAvg(updates).value)
  {
    forall j | 0 <= j < |FedAvg(updates).value|
      ensures var c := SampleCounts(updates);
        Times(Total(c), FedAvg(updates).value[j])
          == Total(Products(c, Coordinate(Decoded(updates), Dim(updates), j)))
    {
      FedAvgIsAverage(updates, j);
    }
  }

  /** FedAvg succeeds exactly on a non-empty acceptable batch with some samples, and its output
      lies coordinate by coordinate between the contributing updates. */
  lemma FedAvgIsConvex(updates: seq<ClientDelta>, j: nat, lo: real, hi: real)
    ensures FedAvg(updates).Ok? <==>
      |updates| > 0 && Acceptable(updates) && exists i :: 0 <= i < |updates| && updates[i].numSamples > 0
    ensures FedAvg(updates).Ok? && j < Dim(updates)
      && (forall i | 0 <= i < |updates| && updates[i].numSamples > 0 :: lo <= Decoded(updates)[i][j] <= hi)
      ==> lo <= FedAvg(updates).value[j] <= hi
  {
    var c := SampleCounts(updates);
    TotalNonNegative(c);
    TotalZero(c);
    if Total(c) != 0.0 {
      var i :| 0 <= i < |c| && c[i] != 0.0;
      assert updates[i].numSamples > 0;
    } else {
      forall i | 0 <= i < |updates| ensures updates[i].numSamples == 0 {
        assert c[i] == 0.0;
      }
    }
    if |updates| > 0 && Acceptable(updates) && Total(c) > 0.0 {
      NormalizeIsConvex(c);
      var vs := Decoded(updates);
      if j < Dim(updates)
         && (forall i | 0 <= i < |updates| && updates[i].numSamples > 0 :: lo <= vs[i][j] <= hi) {
        CombRange(Over(c, Total(c)), vs, Dim(updates), j, lo, hi);
      }
    }
  }

  lemma {:induction false} TotalZero(c: Vec)
    requires forall i | 0 <= i < |c| :: c[i] >= 0.0
    ensures Total(c) == 0.0 <==> forall i | 0 <= i < |c| :: c[i] == 0.0
  {
    if |c| > 0 {
      TotalZero(c[..|c|-1]);
      TotalNonNegative(c[..|c|-1]);
    }
  }

  /** The unweighted mean of a batch's vectors. */
  function Mean(vs: seq<Vec>, dim: nat): (m: Vec)
    requires |vs| > 0 && Rect(vs, dim)
    ensures |m| == dim
  {
    Comb(EqualShares(|vs|), vs, dim)
  }

  /** Coordinate by coordinate: n times the mean is the sum. */
  lemma MeanIsAverage(vs: seq<Vec>, dim: nat, j: nat)
    requires |vs| > 0 && Rect(vs, dim) && j < dim
    ensures Times(|vs| as real, Mean(vs, dim)[j]) == Total(Coordinate(vs, dim, j))
  {
    var n, s, v := |vs| as real, EqualShares(|vs|), Coordinate(vs, dim, j);
    CombAt(s, vs, dim, j);
    assert Products(s, v) == Scale(1.0 / n, v);
    TotalScale(1.0 / n, v);
    Divide(1.0, n);
    Associate(n, 1.0 / n, Total(v));
    OneTimes(Total(v));
  }

  /** With equal sample counts FedAvg is the unweighted mean. */
  lemma FedAvgOfEqualCounts(updates: seq<ClientDelta>, n: nat)
    requires |updates| > 0 && Acceptable(updates) && n > 0
    requires forall i | 0 <= i < |updates| :: updates[i].numSamples == n
    ensures FedAvg(updates) == Ok(Mean(Decoded(updates), Dim(updates)))
  {
    var c, m := SampleCounts(updates), |updates|;
    assert c == seq(m, _ => n as real);
    TotalConstant(m, n as real);
    Positive(m as real, n as real);
    EqualQuotients(n as real, m as real);
    assert Over(c, Total(c)) == EqualShares(m);
  }

  lemma EqualQuotients(x: real, m: real)
    requires x > 0.0 && m > 0.0
    ensures Times(m, x) != 0.0 && x / Times(m, x) == 1.0 / m
  {
    Positive(m, x);
    Divide(1.0, m);
    Associate(1.0 / m, m, x);
    DivideUnique(x, Times(m, x), 1.0 / m);
  }
}
