// FedNova's normalized averaging (optimization.rs) as a state machine over the global model.
module FedNova {
  import opened Reals
  import opened Vectors
  import opened Wrappers
  import opened Updates

  const MAX_PLAUSIBLE_LOCAL_STEPS: nat := 0x10_0000

  const OPTIMIZER: string := "<fednova server optimizer>"

  /** `local_steps.filter(|t| *t > 0)`: zero steps is a missing count. */
  function Reported(u: ClientDelta): Option<nat> {
    if u.localSteps.Some? && u.localSteps.value > 0 then u.localSteps else None
  }

  function ReportedSum(updates: seq<ClientDelta>): (s: nat) {
    if |updates| == 0 then 0
    else ReportedSum(updates[..|updates|-1]) + match Reported(updates[|updates|-1]) case Some(t) => t case None => 0
  }

  function ReportedCount(updates: seq<ClientDelta>): (n: nat) {
    if |updates| == 0 then 0
    else ReportedCount(updates[..|updates|-1]) + if Reported(updates[|updates|-1]).Some? then 1 else 0
  }

  /** The mean of the reported step counts, unclamped, substituted for the missing ones. */
  function DefaultTau(updates: seq<ClientDelta>): real
    requires ReportedCount(updates) > 0
  {
    Max(ReportedSum(updates) as real / ReportedCount(updates) as real, 1.0)
  }

  /** τ_k: the reported count, clamped, or the default. */
  function Taus(updates: seq<ClientDelta>): (t: Vec)
    requires ReportedCount(updates) > 0
    ensures |t| == |updates| && forall i | 0 <= i < |t| :: t[i] >= 1.0
  {
    seq(|updates|, i requires 0 <= i < |updates| =>
      match Reported(updates[i])
      case Some(t) => (if t <= MAX_PLAUSIBLE_LOCAL_STEPS then t else MAX_PLAUSIBLE_LOCAL_STEPS) as real
      case None => DefaultTau(updates))
  }

  /** p_k: the client's share of the samples, or an equal share when nobody has any. */
  function Shares(updates: seq<ClientDelta>): (p: Vec)
    requires |updates| > 0
    ensures |p| == |updates|
  {
    var c := SampleCounts(updates);
    if Total(c) > 0.0 then Over(c, Total(c)) else EqualShares(|updates|)
  }

  lemma SharesAreConvex(updates: seq<ClientDelta>)
    requires |updates| > 0
    ensures Total(Shares(updates)) == 1.0
    ensures forall i | 0 <= i < |updates| :: Shares(updates)[i] >= 0.0
  {
    if Total(SampleCounts(updates)) > 0.0 {
      NormalizeIsConvex(SampleCounts(updates));
    } else {
      EqualSharesAreConvex(|updates|);
    }
  }

  /** p_k/τ_k */
  function Ratios(p: Vec, t: Vec): (r: Vec)
    requires |p| == |t| && forall i | 0 <= i < |t| :: t[i] >= 1.0
    ensures |r| == |p|
  {
    seq(|p|, i requires 0 <= i < |p| => p[i] / t[i])
  }

  /** τ_eff = Σ p_k·τ_k */
  function TauEff(p: Vec, t: Vec): real
    requires |p| == |t|
  {
    Total(Products(p, t))
  }

  /** τ_eff·p_k/τ_k: the scale of client k's step. */
  function StepScales(p: Vec, t: Vec): (r: Vec)
    requires |p| == |t| && forall i | 0 <= i < |t| :: t[i] >= 1.0
    ensures |r| == |p|
  {
    seq(|p|, i requires 0 <= i < |p| => Times(TauEff(p, t), p[i]) / t[i])
  }

  /** x + τ_eff·Σ (p_k/τ_k)·(x_k − x) */
  function Normalized(p: Vec, t: Vec, vs: seq<Vec>, x: Vec): (next: Vec)
    requires |p| == |t| == |vs| && Rect(vs, |x|) && forall i | 0 <= i < |t| :: t[i] >= 1.0
    ensures |next| == |x|
  {
    Add(x, Comb(StepScales(p, t), Offsets(vs, x), |x|))
  }

  /** One round on an accepted batch. */
  function Round(state: Option<Vec>, updates: seq<ClientDelta>, overflow: Option<nat>): (r: (Option<Vec>, Outcome))
    requires |updates| > 0 && Acceptable(updates)
    ensures r.1.Err? ==> r.0 == state
    ensures r.1.Ok? ==> r.0 == Some(r.1.value)
  {
    var vs, dim := Decoded(updates), Dim(updates);
    if state.None? || |state.value| != dim || ReportedCount(updates) == 0 then
      var out := FedAvg(updates);
      if out.Ok? then (Some(out.value), out) else (state, out)
    else
      var p, t := Shares(updates), Taus(updates);
      if TauEff(p, t) <= 0.0 then
        var out := FedAvg(updates);
        if out.Ok? then (Some(out.value), out) else (state, out)
      else if overflow.Some? then (state, Err(NonFiniteWeights(OPTIMIZER, overflow.value)))
      else
        var next := Normalized(p, t, vs, state.value);
        (Some(next), Ok(next))
  }

  /** Without a stored model of the batch's dimension, or with no step count reported, the round answers the
      clients' sample-weighted mean and stores it. */
  lemma RoundFallsBack(state: Option<Vec>, updates: seq<ClientDelta>, overflow: Option<nat>)
    requires |updates| > 0 && Acceptable(updates)
    requires state.None? || |state.value| != Dim(updates)
      || forall k | 0 <= k < |updates| :: updates[k].localSteps.None? || updates[k].localSteps.value == 0
    ensures var (after, answer) := Round(state, updates, overflow);
      && (answer.Ok? <==> Total(SampleCounts(updates)) != 0.0)
      && (answer.Ok? ==> after == Some(answer.value) && IsWeightedMean(updates, answer.value))
      && (answer.Err? ==> after == state)
  {
    if forall k | 0 <= k < |updates| :: updates[k].localSteps.None? || updates[k].localSteps.value == 0 {
      NothingReported(updates);
    }
    if FedAvg(updates).Ok? { FedAvgMeans(updates); }
    hide Comb, Shares, Taus, Normalized, IsWeightedMean;
  }

  lemma {:induction false} NothingReported(updates: seq<ClientDelta>)
    requires forall k | 0 <= k < |updates| :: updates[k].localSteps.None? || updates[k].localSteps.value == 0
    ensures ReportedCount(updates) == 0
  {
    if |updates| > 0 { NothingReported(updates[..|updates|-1]); }
  }

  /** τ_k: a reported count up to the clamp, the clamp beyond it, and the mean of all reported counts for a
      client without one. */
  lemma TausAre(updates: seq<ClientDelta>, k: nat)
    requires ReportedCount(updates) > 0 && k < |updates|
    ensures var r, t := updates[k].localSteps, Taus(updates)[k];
      if r.Some? && 0 < r.value <= MAX_PLAUSIBLE_LOCAL_STEPS then t == r.value as real
      else if r.Some? && r.value > 0 then t == MAX_PLAUSIBLE_LOCAL_STEPS as real
      else Times(ReportedCount(updates) as real, t) == ReportedSum(updates) as real
  {
    SumAtLeastCount(updates);
    var n, s := ReportedCount(updates) as real, ReportedSum(updates) as real;
    Divide(s, n);
    DivideBound(s, n, 1.0);
    OneTimes(n);
  }

  lemma {:induction false} SumAtLeastCount(updates: seq<ClientDelta>)
    ensures ReportedSum(updates) >= ReportedCount(updates)
  {
    if |updates| > 0 { SumAtLeastCount(updates[..|updates|-1]); }
  }

  /** p_k: samples over all samples, or equal shares when nobody has any. */
  lemma SharesAre(updates: seq<ClientDelta>, k: nat)
    requires k < |updates|
    ensures var total, c := Total(SampleCounts(updates)), updates[k].numSamples as real;
      if total > 0.0 then Times(total, Shares(updates)[k]) == c
      else Times(|updates| as real, Shares(updates)[k]) == 1.0
  {
    var total := Total(SampleCounts(updates));
    if total > 0.0 { Divide(updates[k].numSamples as real, total); }
    Divide(1.0, |updates| as real);
  }

  /** The loop over clients: Σ τ_eff·p_k/τ_k·(x_k − x). */
  method WeightedDeltas(p: Vec, t: Vec, tauEff: real, vs: seq<Vec>, x: Vec) returns (r: Vec)
    requires |p| == |t| == |vs| && Rect(vs, |x|) && forall i | 0 <= i < |t| :: t[i] >= 1.0
    requires tauEff == TauEff(p, t)
    ensures r == Comb(StepScales(p, t), Offsets(vs, x), |x|)
  {
    hide TauEff, Total, Times, Scale, Add;
    var delta := new real[|x|](_ => 0.0);
    assert delta[..] == Zero(|x|);
    ghost var scales, offsets := StepScales(p, t), Offsets(vs, x);
    for k := 0 to |p|
      invariant delta[..] == Comb(scales[..k], offsets[..k], |x|)
    {
      var scale := Times(tauEff, p[k]) / t[k];
      assert scale == scales[k];
      AccumulateScaledDifference(delta, vs[k], x, scale);
      CombPrefix(scales, offsets, |x|, k);
    }
    assert scales[..|p|] == scales && offsets[..|p|] == offsets;
    r := delta[..];
  }

  class FedNovaAggregator {
    var state: Option<Vec>

    constructor ()
      ensures state.None?
    {
      state := None;
    }

    /** `aggregate`: a rejected batch leaves the model as it was. */
    method Aggregate(updates: seq<ClientDelta>, overflow: Option<nat>) returns (r: Outcome)
      modifies this
      ensures r.Err? ==> state == old(state)
      ensures r.Ok? ==> state == Some(r.value)
      ensures |updates| == 0 ==> r == Err(EmptyBatch)
      ensures |updates| > 0 && !Acceptable(updates) ==> r.Err? && r.error == DecodeAndValidate(updates).error
      ensures |updates| > 0 && Acceptable(updates) ==> (state, r) == Round(old(state), updates, overflow)
    {
      hide Comb, Total, StepScales, TauEff, Shares, Taus, FedAvg;
      if |updates| == 0 { return Err(EmptyBatch); }
      var decoded := DecodeAndValidate(updates);
      if decoded.Err? { return Err(decoded.error); }
      var dim := Dim(updates);
      if state.None? || |state.value| != dim {
        r := FedAvgAggregate(updates);
        if r.Ok? { state := Some(r.value); }
        return;
      }
      if ReportedCount(updates) == 0 {
        r := FedAvgAggregate(updates);
        if r.Ok? { state := Some(r.value); }
        return;
      }
      var p, t := Shares(updates), Taus(updates);
      var tauEff := TauEff(p, t);
      if tauEff <= 0.0 {
        r := FedAvgAggregate(updates);
        if r.Ok? { state := Some(r.value); }
        return;
      }
      var global := state.value;
      var delta := WeightedDeltas(p, t, tauEff, decoded.value, global);
      if overflow.Some? { return Err(NonFiniteWeights(OPTIMIZER, overflow.value)); }
      var next := Add(global, delta);
      state := Some(next);
      r := Ok(next);
    }
  }

  // ----- what the update is -----

  /** A batch that reaches the normalized step: every weight convex, every τ at least one. */
  predicate Weighted(p: Vec, t: Vec) {
    && |p| == |t| && Total(p) == 1.0
    && (forall i | 0 <= i < |p| :: p[i] >= 0.0)
    && (forall i | 0 <= i < |t| :: t[i] >= 1.0)
  }

  /** S = Σ p_k/τ_k */
  function S(p: Vec, t: Vec): real
    requires |p| == |t| && forall i | 0 <= i < |t| :: t[i] >= 1.0
  {
    Total(Ratios(p, t))
  }

  lemma ScalesAreScaledRatios(p: Vec, t: Vec)
    requires Weighted(p, t)
    ensures StepScales(p, t) == Scale(TauEff(p, t), Ratios(p, t))
    ensures Total(StepScales(p, t)) == Times(TauEff(p, t), S(p, t))
  {
    var e := TauEff(p, t);
    forall i | 0 <= i < |p| ensures Times(e, p[i]) / t[i] == Times(e, p[i] / t[i]) {
      Divide(p[i], t[i]);
      Associate(e, p[i] / t[i], t[i]);
      DivideUnique(Times(e, p[i]), t[i], Times(e, p[i] / t[i]));
    }
    assert StepScales(p, t) == Scale(e, Ratios(p, t));
    TotalScale(e, Ratios(p, t));
  }

  /** The new model is (1 − τ_eff·S)·x + τ_eff·Σ (p_k/τ_k)·x_k. */
  lemma UpdateIsAffine(p: Vec, t: Vec, vs: seq<Vec>, x: Vec)
    requires Weighted(p, t) && |vs| == |p| && Rect(vs, |x|)
    ensures Normalized(p, t, vs, x)
      == Add(Scale(1.0 - Times(TauEff(p, t), S(p, t)), x), Scale(TauEff(p, t), Comb(Ratios(p, t), vs, |x|)))
  {
    hide Comb, Total, Ratios, StepScales, TauEff, Offsets;
    var e, s := TauEff(p, t), S(p, t);
    ScalesAreScaledRatios(p, t);
    CombOffsets(StepScales(p, t), vs, x);
    CombScale(e, Ratios(p, t), vs, |x|);
    var c := Comb(StepScales(p, t), vs, |x|);
    hide Times;
    var u := Times(e, s);
    forall j | 0 <= j < |x| ensures x[j] + (c[j] - Times(u, x[j])) == Times(1.0 - u, x[j]) + c[j] {
      Distribute(1.0, u, x[j]);
      OneTimes(x[j]);
      Commute(1.0, x[j]);
    }
  }

  /** e/τ ≥ 2 − τ/e, with equality only at τ = e. */
  lemma Tangent(e: real, t: real)
    requires e > 0.0 && t > 0.0
    ensures e / t + t / e >= 2.0
    ensures e / t + t / e == 2.0 <==> e == t
  {
    var q, r := e / t, t / e;
    Divide(e, t);
    Divide(t, e);
    Positive(e, t);
    SquareSign(e - t);
    SquareOfSum(e, t);
    // (q + r − 2)·e·t = (e − t)²
    var et := Times(e, t);
    Distribute(q + r, 2.0, et);
    Distribute(q, r, et);
    Commute(e, t);
    Associate(q, t, e);
    Associate(r, e, t);
    assert Times(2.0, et) == 2.0 * et;
    Commute(q + r - 2.0, et);
    SignOfFactor(et, q + r - 2.0);
  }

  /** Σ p_k·(τ_k/e) and Σ p_k·(e/τ_k) over the first n clients. */
  function Forward(p: Vec, t: Vec, e: real, n: nat): real
    requires |p| == |t| && n <= |p| && e > 0.0
  {
    if n == 0 then 0.0 else Forward(p, t, e, n - 1) + Times(p[n-1], t[n-1] / e)
  }

  function Backward(p: Vec, t: Vec, e: real, n: nat): real
    requires |p| == |t| && n <= |p| && forall i | 0 <= i < |t| :: t[i] >= 1.0
  {
    if n == 0 then 0.0 else Backward(p, t, e, n - 1) + Times(p[n-1], e / t[n-1])
  }

  lemma {:induction false} SumsAreScaled(p: Vec, t: Vec, e: real, n: nat)
    requires |p| == |t| && n <= |p| && e > 0.0 && forall i | 0 <= i < |t| :: t[i] >= 1.0
    ensures Times(e, Forward(p, t, e, n)) == Total(Products(p, t)[..n])
    ensures Backward(p, t, e, n) == Times(e, Total(Ratios(p, t)[..n]))
  {
    if n > 0 {
      var k := n - 1;
      SumsAreScaled(p, t, e, k);
      assert Products(p, t)[..n][..k] == Products(p, t)[..k];
      assert Ratios(p, t)[..n][..k] == Ratios(p, t)[..k];
      ScaledTerm(p[k], t[k], e);
      Distribute(Forward(p, t, e, k), Times(p[k], t[k] / e), e);
      Distribute(Total(Ratios(p, t)[..k]), p[k] / t[k], e);
    }
  }

  lemma ScaledTerm(p: real, t: real, e: real)
    requires e > 0.0 && t > 0.0
    ensures Times(e, Times(p, t / e)) == Times(p, t)
    ensures Times(p, e / t) == Times(e, p / t)
  {
    Divide(t, e);
    Commute(e, Times(p, t / e));
    Associate(p, t / e, e);
    Divide(p, t);
    Divide(e, t);
    Associate(p, e / t, t);
    Associate(e, p / t, t);
    Commute(p, e);
    DivideUnique(Times(e, p), t, Times(p, e / t));
    DivideUnique(Times(e, p), t, Times(e, p / t));
  }

  lemma {:induction false} TangentSum(p: Vec, t: Vec, e: real, n: nat)
    requires |p| == |t| && n <= |p| && e > 0.0
    requires (forall i | 0 <= i < |p| :: p[i] >= 0.0) && (forall i | 0 <= i < |t| :: t[i] >= 1.0)
    ensures Forward(p, t, e, n) + Backward(p, t, e, n) >= 2.0 * Total(p[..n])
    ensures Forward(p, t, e, n) + Backward(p, t, e, n) == 2.0 * Total(p[..n])
      <==> forall i | 0 <= i < n && p[i] > 0.0 :: t[i] == e
  {
    if n > 0 {
      var k := n - 1;
      TangentSum(p, t, e, k);
      assert p[..n][..k] == p[..k];
      Tangent(e, t[k]);
      TangentTerm(p[k], e / t[k], t[k] / e);
    }
  }

  lemma TangentTerm(p: real, q: real, r: real)
    requires p >= 0.0 && q + r >= 2.0
    ensures Times(p, q) + Times(p, r) >= 2.0 * p
    ensures Times(p, q) + Times(p, r) == 2.0 * p <==> p == 0.0 || q + r == 2.0
  {
    Distribute(q, r, p);
    if p > 0.0 {
      if q + r > 2.0 { StrictlyMonotone(2.0, q + r, p); }
    }
  }

  lemma TauEffIsPositive(p: Vec, t: Vec)
    requires Weighted(p, t)
    ensures TauEff(p, t) >= 1.0
  {
    ProductsDominate(p, t, |p|);
    assert p[..|p|] == p && Products(p, t)[..|p|] == Products(p, t);
  }

  lemma {:induction false} ProductsDominate(p: Vec, t: Vec, n: nat)
    requires |p| == |t| && n <= |p|
    requires (forall i | 0 <= i < |p| :: p[i] >= 0.0) && (forall i | 0 <= i < |t| :: t[i] >= 1.0)
    ensures Total(Products(p, t)[..n]) >= Total(p[..n])
  {
    if n > 0 {
      ProductsDominate(p, t, n - 1);
      assert p[..n][..n-1] == p[..n-1] && Products(p, t)[..n][..n-1] == Products(p, t)[..n-1];
      Monotone(1.0, t[n-1], p[n-1]);
    }
  }

  /** τ_eff·S ≥ 1, with equality exactly when every client that carries weight took τ_eff steps. */
  lemma OvershootIsAtLeastOne(p: Vec, t: Vec)
    requires Weighted(p, t)
    ensures Times(TauEff(p, t), S(p, t)) >= 1.0
    ensures Times(TauEff(p, t), S(p, t)) == 1.0
      <==> forall i | 0 <= i < |p| && p[i] > 0.0 :: t[i] == TauEff(p, t)
  {
    var e, n := TauEff(p, t), |p|;
    TauEffIsPositive(p, t);
    SumsAreScaled(p, t, e, n);
    TangentSum(p, t, e, n);
    assert p[..n] == p && Products(p, t)[..n] == Products(p, t) && Ratios(p, t)[..n] == Ratios(p, t);
    // e·Forward = e, so Forward = 1.
    Distribute(Forward(p, t, e, n), 1.0, e);
    OneTimes(e);
    SignOfFactor(e, Forward(p, t, e, n) - 1.0);
  }

  /** Clients that carry weight agree on τ exactly when each of them took τ_eff steps. */
  lemma {:induction false} AgreementMeansTauEff(p: Vec, t: Vec)
    requires Weighted(p, t)
    ensures (forall i | 0 <= i < |p| && p[i] > 0.0 :: t[i] == TauEff(p, t))
      <==> (forall i, j | 0 <= i < |p| && 0 <= j < |p| && p[i] > 0.0 && p[j] > 0.0 :: t[i] == t[j])
  {
    if forall i, j | 0 <= i < |p| && 0 <= j < |p| && p[i] > 0.0 && p[j] > 0.0 :: t[i] == t[j] {
      if k: nat :| k < |p| && p[k] > 0.0 {
        CommonTau(p, t, t[k], |p|);
        assert p[..|p|] == p && Products(p, t)[..|p|] == Products(p, t);
        OneTimes(t[k]);
      }
    }
  }

  lemma {:induction false} CommonTau(p: Vec, t: Vec, e: real, n: nat)
    requires |p| == |t| && n <= |p| && (forall i | 0 <= i < |p| :: p[i] >= 0.0)
    requires forall i | 0 <= i < |p| && p[i] > 0.0 :: t[i] == e
    ensures Total(Products(p, t)[..n]) == Times(e, Total(p[..n]))
  {
    if n > 0 {
      CommonTau(p, t, e, n - 1);
      assert p[..n][..n-1] == p[..n-1] && Products(p, t)[..n][..n-1] == Products(p, t)[..n-1];
      Distribute(Total(p[..n-1]), p[n-1], e);
      Commute(p[n-1], e);
      if p[n-1] == 0.0 { assert Times(0.0, t[n-1]) == 0.0 && Times(e, 0.0) == 0.0; }
    }
  }

  /** When the weighted clients agree on τ, FedNova's update is the plain weighted mean. */
  lemma AgreementGivesMean(p: Vec, t: Vec, vs: seq<Vec>, x: Vec)
    requires Weighted(p, t) && |vs| == |p| && Rect(vs, |x|)
    requires forall i, j | 0 <= i < |p| && 0 <= j < |p| && p[i] > 0.0 && p[j] > 0.0 :: t[i] == t[j]
    ensures Normalized(p, t, vs, x) == Comb(p, vs, |x|)
  {
    AgreementMeansTauEff(p, t);
    OvershootIsAtLeastOne(p, t);
    ScalesAreScaledRatios(p, t);
    forall k | 0 <= k < |p| ensures StepScales(p, t)[k] == p[k] {
      WeightedAsFedAvgIff(p, t, k);
    }
    hide StepScales, TauEff, S, Total, Comb, Offsets;
    assert StepScales(p, t) == p;
    CombOffsets(p, vs, x);
    OneScale(x);
    hide Times;
    var c := Comb(p, vs, |x|);
    assert Add(x, Sub(c, x)) == c;
  }

  lemma OneScale(x: Vec)
    ensures Scale(1.0, x) == x
  {
    forall i | 0 <= i < |x| ensures Times(1.0, x[i]) == x[i] {
      OneTimes(x[i]);
      Commute(1.0, x[i]);
    }
  }

  /** With a model stored and a step count reported, the round takes the normalized step. */
  lemma RoundTakesNormalizedStep(x: Vec, updates: seq<ClientDelta>)
    requires |updates| > 0 && Acceptable(updates) && |x| == Dim(updates) && ReportedCount(updates) > 0
    ensures Weighted(Shares(updates), Taus(updates))
    ensures Round(Some(x), updates, None).1 == Ok(Normalized(Shares(updates), Taus(updates), Decoded(updates), x))
  {
    hide Total, TauEff, FedAvg, Normalized, Shares, Taus;
    SharesAreConvex(updates);
    TauEffIsPositive(Shares(updates), Taus(updates));
  }

  /** The round-level theorem: with some samples and a reported step count, the new model is the
      affine combination above. */
  lemma RoundIsNormalizedAveraging(x: Vec, updates: seq<ClientDelta>)
    requires |updates| > 0 && Acceptable(updates) && |x| == Dim(updates) && ReportedCount(updates) > 0
    ensures Weighted(Shares(updates), Taus(updates))
    ensures var p, t, vs := Shares(updates), Taus(updates), Decoded(updates);
      Round(Some(x), updates, None).1 == Ok(Add(Scale(1.0 - Times(TauEff(p, t), S(p, t)), x),
                                                Scale(TauEff(p, t), Comb(Ratios(p, t), vs, |x|))))
  {
    RoundTakesNormalizedStep(x, updates);
    UpdateIsAffine(Shares(updates), Taus(updates), Decoded(updates), x);
  }

  /** When all clients with weight took the same number of steps, the round is FedAvg's. */
  lemma AgreeingRoundIsFedAvg(x: Vec, updates: seq<ClientDelta>)
    requires |updates| > 0 && Acceptable(updates) && |x| == Dim(updates) && ReportedCount(updates) > 0
    requires Total(SampleCounts(updates)) > 0.0
    requires var p, t := Shares(updates), Taus(updates);
      forall i, j | 0 <= i < |p| && 0 <= j < |p| && p[i] > 0.0 && p[j] > 0.0 :: t[i] == t[j]
    ensures Round(Some(x), updates, None).1 == FedAvg(updates)
  {
    RoundTakesNormalizedStep(x, updates);
    AgreementGivesMean(Shares(updates), Taus(updates), Decoded(updates), x);
  }

  // ----- the substituted step count -----

  /** A client's influence on the step is its FedAvg share exactly when it carries no weight or its
      τ equals τ_eff: what the documentation says of every client without a step count. */
  lemma WeightedAsFedAvgIff(p: Vec, t: Vec, k: nat)
    requires Weighted(p, t) && k < |p|
    ensures StepScales(p, t)[k] == p[k] <==> p[k] == 0.0 || t[k] == TauEff(p, t)
  {
    var e := TauEff(p, t);
    Divide(Times(e, p[k]), t[k]);
    if p[k] == 0.0 {
      assert Times(e, 0.0) == 0.0;
      DivideUnique(0.0, t[k], 0.0);
    } else {
      Commute(e, p[k]);
      Distribute(e, t[k], p[k]);
      SignOfFactor(p[k], e - t[k]);
      if t[k] == e { DivideUnique(Times(e, p[k]), t[k], p[k]); }
    }
  }

  function Client(samples: nat, steps: Option<nat>): ClientDelta {
    ClientDelta("c", 1, Weights([]), samples, steps, None)
  }

  lemma TotalOfThree(a: real, b: real, c: real)
    ensures Total([a, b, c]) == a + b + c
  {
    var v := [a, b, c];
    assert v[..2] == [a, b] && v[..2][..1] == [a] && v[..2][..1][..0] == [];
    assert Total(v[..2][..1]) == a;
    assert Total(v[..2]) == a + b;
  }

  /** The documentation's claim fails when step counts and sample counts are unequal: clients with
      (3 samples, 1 step), (1 sample, 3 steps) and (4 samples, no count). */
  lemma DefaultTauIsNotNeutral()
    ensures var batch := [Client(3, Some(1)), Client(1, Some(3)), Client(4, None)];
      && ReportedCount(batch) == 2 && DefaultTau(batch) == 2.0
      && Weighted(Shares(batch), Taus(batch))
      && StepScales(Shares(batch), Taus(batch))[2] != Shares(batch)[2]
  {
    var batch := [Client(3, Some(1)), Client(1, Some(3)), Client(4, None)];
    assert batch[..2] == [Client(3, Some(1)), Client(1, Some(3))];
    assert batch[..2][..1] == [Client(3, Some(1))];
    assert ReportedSum(batch[..2][..1]) == 1 && ReportedCount(batch[..2][..1]) == 1;
    assert ReportedSum(batch[..2]) == 4 && ReportedCount(batch[..2]) == 2;
    var c := SampleCounts(batch);
    assert c == [3.0, 1.0, 4.0];
    TotalOfThree(3.0, 1.0, 4.0);
    SharesAreConvex(batch);
    var p, t := Shares(batch), Taus(batch);
    assert p == [3.0 / 8.0, 1.0 / 8.0, 4.0 / 8.0];
    assert t == [1.0, 3.0, 2.0];
    var m := Products(p, t);
    assert m == [0.375, 0.375, 1.0];
    TotalOfThree(0.375, 0.375, 1.0);
    WeightedAsFedAvgIff(p, t, 2);
  }
}
