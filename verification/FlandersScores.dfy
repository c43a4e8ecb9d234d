// Where a FLANDERS round's scores come from (flanders.rs): what the model of the aggregator computes, said
// again in terms of the batch, the rounds remembered and the fitted factors alone.
module FlandersScores {
  import opened Reals
  import opened Vectors
  import opened Matrices
  import opened Wrappers
  import opened Updates
  import opened Flanders
  import GaussJordan
  import RidgeFit
  import RidgeExistence

  /** The ids of the batch that every remembered round holds, sorted, each once. */
  ghost predicate IsOrder(ids: seq<string>, updates: seq<ClientDelta>, history: seq<Snapshot>) {
    && (forall i, j | 0 <= i < j < |ids| :: Before(ids[i], ids[j]))
    && forall id :: id in ids <==>
         (exists k :: 0 <= k < |updates| && updates[k].clientId == id) && forall h | h in history :: id in h
  }

  /** The round holds a model of this dimension for each of the ids. */
  ghost predicate Seen(h: Snapshot, ids: seq<string>, dim: nat) {
    forall k | 0 <= k < |ids| :: ids[k] in h && |h[ids[k]]| == dim
  }

  /** Rounds t and t + 1 do. */
  ghost predicate SeenTwice(history: seq<Snapshot>, ids: seq<string>, dim: nat, t: nat) {
    t + 1 < |history| && Seen(history[t], ids, dim) && Seen(history[t+1], ids, dim)
  }

  /** There is something to fit, and something to apply the fit to. */
  ghost predicate Forecastable(history: seq<Snapshot>, ids: seq<string>, dim: nat) {
    && |ids| >= 2 && |history| >= 2 && Seen(history[|history|-1], ids, dim)
    && exists t: nat :: SeenTwice(history, ids, dim, t)
  }

  /** Entry (r, k) is what client k held at the r-th sampled coordinate. */
  ghost predicate Samples(theta: Matrix, h: Snapshot, ids: seq<string>, dim: nat, cs: seq<nat>) {
    && Seen(h, ids, dim) && (forall r | 0 <= r < |cs| :: cs[r] < dim)
    && Is(theta, |cs|, |ids|)
    && forall r, k | 0 <= r < |cs| && 0 <= k < |ids| :: theta[r][k] == h[ids[k]][cs[r]]
  }

  /** The pairs are those of the rounds t and t + 1 for exactly the times t at which both can be observed. */
  ghost predicate Stacked(pairs: seq<RidgeFit.Pair>, at: seq<nat>, history: seq<Snapshot>, ids: seq<string>,
                          dim: nat, cs: seq<nat>, n: nat)
  {
    && |at| == |pairs| && (forall i, j | 0 <= i < j < |at| :: at[i] < at[j])
    && (forall t: nat :: t in at <==> t + 1 < n && SeenTwice(history, ids, dim, t))
    && forall p | 0 <= p < |pairs| ::
         && at[p] + 1 < |history|
         && Samples(pairs[p].0, history[at[p]], ids, dim, cs) && Samples(pairs[p].1, history[at[p]+1], ids, dim, cs)
  }

  /** f is A·Θ·B for the last round Θ and factors fitted to the stacked pairs. */
  ghost predicate IsForecast(s: Settings, history: seq<Snapshot>, ids: seq<string>, dim: nat, cs: seq<nat>,
                             f: Matrix)
  {
    exists pairs, at, theta :: IsForecastOf(s, history, ids, dim, cs, f, pairs, at, theta)
  }

  ghost predicate IsForecastOf(s: Settings, history: seq<Snapshot>, ids: seq<string>, dim: nat, cs: seq<nat>,
                               f: Matrix, pairs: seq<RidgeFit.Pair>, at: seq<nat>, theta: Matrix)
  {
    && |cs| > 0 && |ids| > 0 && |history| > 0
    && Stacked(pairs, at, history, ids, dim, cs, |history|)
    && Samples(theta, history[|history|-1], ids, dim, cs) && RidgeFit.Shaped(pairs, |cs|, |ids|)
    && var fit := RidgeFit.FitOf(pairs, s.ridge, |cs|, |ids|, s.alsIterations);
       && fit.Some? && RidgeFit.Fitted(pairs, s.ridge, |cs|, |ids|, s.alsIterations)
       && f == Mul(Mul(fit.value.0, theta), fit.value.1)
  }

  /** Σ (w[c_r] − f[r][col])² over the first n sampled coordinates. */
  function Surprise(w: Vec, cs: seq<nat>, f: Matrix, col: nat, n: nat): real
    requires n <= |cs| && n <= |f| && (forall r | 0 <= r < n :: cs[r] < |w| && col < |f[r]|)
  {
    if n == 0 then 0.0 else Surprise(w, cs, f, col, n - 1) + Square(w[cs[n-1]] - f[n-1][col])
  }

  /** Σ (a[j] − b[j])² over the first n coordinates. */
  function Gap(a: Vec, b: Vec, n: nat): real
    requires n <= |a| && n <= |b|
  {
    if n == 0 then 0.0 else Gap(a, b, n - 1) + Square(a[n-1] - b[n-1])
  }

  /** The distance to the current global model, as far as both reach; zero before there is one. */
  function Fallback(w: Vec, global: Option<Vec>): real {
    match global
    case None => 0.0
    case Some(g) => Gap(w, g, if |w| <= |g| then |w| else |g|)
  }

  /** What one client's diagnostics say. */
  ghost predicate Scored(d: Diagnostic, u: ClientDelta, ids: seq<string>, cs: seq<nat>, f: Option<Matrix>,
                         global: Option<Vec>)
    requires AllFinite(u.weights)
  {
    && d.clientId == u.clientId
    && if f.Some? && u.clientId in ids then d.forecastAvailable && Surprised(d.score, u, ids, cs, f.value)
       else !d.forecastAvailable && d.score == Fallback(Plain(u.weights), global)
  }

  /** The score is the squared distance to the client's own column of the forecast. */
  ghost predicate Surprised(score: real, u: ClientDelta, ids: seq<string>, cs: seq<nat>, f: Matrix)
    requires AllFinite(u.weights)
  {
    var w := Plain(u.weights);
    && Is(f, |cs|, |ids|) && (forall r | 0 <= r < |cs| :: cs[r] < |w|)
    && exists col: nat :: col < |ids| && ids[col] == u.clientId && score == Surprise(w, cs, f, col, |cs|)
  }

  // ----- the model's sums are these -----

  lemma {:induction false} SurpriseIsSq(w: Vec, cs: seq<nat>, f: Matrix, col: nat, n: nat)
    requires n <= |cs| && |f| == |cs|
    requires forall r | 0 <= r < |cs| :: cs[r] < |w| && col < |f[r]|
    ensures var d := Sub(At(w, cs), Column(f, col)); Sq(d[..n]) == Surprise(w, cs, f, col, n)
  {
    if n > 0 {
      SurpriseIsSq(w, cs, f, col, n - 1);
      var d := Sub(At(w, cs), Column(f, col));
      assert d[..n][..n-1] == d[..n-1];
    }
  }

  lemma {:induction false} GapIsSq(a: Vec, b: Vec, n: nat)
    requires n <= |a| && n <= |b|
    ensures Sq(Sub(a[..n], b[..n])) == Gap(a, b, n)
  {
    if n > 0 {
      GapIsSq(a, b, n - 1);
      var d := Sub(a[..n], b[..n]);
      assert d[..n-1] == Sub(a[..n-1], b[..n-1]);
    }
  }

  lemma FallbackIs(w: Vec, id: string, cs: seq<nat>, forecast: Option<Forecast>, global: Option<Vec>)
    requires forall r | 0 <= r < |cs| :: cs[r] < |w|
    requires forecast.None? || id !in forecast.value
    ensures Score(w, id, cs, forecast, global) == Fallback(w, global)
  {
    if global.Some? { GapIsSq(w, global.value, if |w| <= |global.value| then |w| else |global.value|); }
  }

  lemma SurpriseIs(w: Vec, id: string, cs: seq<nat>, forecast: Option<Forecast>, global: Option<Vec>, f: Matrix,
                   col: nat)
    requires (forall r | 0 <= r < |cs| :: cs[r] < |w|) && |f| == |cs| && forall r | 0 <= r < |f| :: col < |f[r]|
    requires forecast.Some? && id in forecast.value && forecast.value[id] == Column(f, col)
    ensures Score(w, id, cs, forecast, global) == Surprise(w, cs, f, col, |cs|)
  {
    SurpriseIsSq(w, cs, f, col, |cs|);
    var a, b := At(w, cs), Column(f, col);
    assert a[..|cs|] == a && b[..|cs|] == b && Sub(a, b)[..|cs|] == Sub(a, b);
  }

  lemma ObservationSamples(h: Snapshot, ids: seq<string>, dim: nat, cs: seq<nat>)
    requires Observable(h, ids, dim) && forall r | 0 <= r < |cs| :: cs[r] < dim
    ensures Samples(Observation(h, ids, dim, cs), h, ids, dim, cs)
  {
  }

  lemma ObservableIsSeen(h: Snapshot, ids: seq<string>, dim: nat)
    ensures Observable(h, ids, dim) <==> Seen(h, ids, dim)
  {
  }

  lemma {:induction false} PairsAreStacked(history: seq<Snapshot>, ids: seq<string>, dim: nat, cs: seq<nat>, n: nat)
      returns (at: seq<nat>)
    requires n <= |history| && forall r | 0 <= r < |cs| :: cs[r] < dim
    ensures Stacked(PairsOf(history, ids, dim, cs, n), at, history, ids, dim, cs, n)
  {
    hide Observation, Samples, Observable, Seen, Stacked;
    if n < 2 {
      at := [];
      NothingStacked(history, ids, dim, cs, n);
    } else {
      at := PairsAreStacked(history, ids, dim, cs, n - 1);
      var t := n - 2;
      var pairs := PairsOf(history, ids, dim, cs, n - 1);
      ObservableIsSeen(history[t], ids, dim);
      ObservableIsSeen(history[t+1], ids, dim);
      if SeenTwice(history, ids, dim, t) {
        ObservationSamples(history[t], ids, dim, cs);
        ObservationSamples(history[t+1], ids, dim, cs);
        var pair := (Observation(history[t], ids, dim, cs), Observation(history[t+1], ids, dim, cs));
        StackOneMore(pairs, at, history, ids, dim, cs, n, pair);
        at := at + [t];
      } else {
        StackNoMore(pairs, at, history, ids, dim, cs, n);
        assert PairsOf(history, ids, dim, cs, n) == pairs;
      }
    }
  }

  lemma NothingStacked(history: seq<Snapshot>, ids: seq<string>, dim: nat, cs: seq<nat>, n: nat)
    requires n < 2
    ensures Stacked([], [], history, ids, dim, cs, n)
  {
  }

  lemma StackNoMore(pairs: seq<RidgeFit.Pair>, at: seq<nat>, history: seq<Snapshot>, ids: seq<string>,
                    dim: nat, cs: seq<nat>, n: nat)
    requires 2 <= n <= |history| && Stacked(pairs, at, history, ids, dim, cs, n - 1)
    requires !SeenTwice(history, ids, dim, n - 2)
    ensures Stacked(pairs, at, history, ids, dim, cs, n)
  {
    hide Samples, Seen;
  }

  lemma StackOneMore(pairs: seq<RidgeFit.Pair>, at: seq<nat>, history: seq<Snapshot>, ids: seq<string>,
                     dim: nat, cs: seq<nat>, n: nat, pair: RidgeFit.Pair)
    requires 2 <= n <= |history| && Stacked(pairs, at, history, ids, dim, cs, n - 1)
    requires SeenTwice(history, ids, dim, n - 2)
    requires Samples(pair.0, history[n-2], ids, dim, cs) && Samples(pair.1, history[n-1], ids, dim, cs)
    ensures Stacked(pairs + [pair], at + [n - 2], history, ids, dim, cs, n)
  {
    hide Samples, SeenTwice;
    forall p | 0 <= p < |at| ensures at[p] < n - 2 {
      assert at[p] in at;
    }
  }

  // ----- the round -----

  /** The forecast a round makes, or none; the source's condition for it, and what it is. */
  lemma RoundForecastIs(s: Settings, history: seq<Snapshot>, updates: seq<ClientDelta>)
      returns (ids: seq<string>, f: Option<Matrix>)
    requires |updates| > 0 && Acceptable(updates) && CanForecast(s, history, updates) && s.ridge >= 0.0
    ensures IsOrder(ids, updates, history) && ids == CommonIds(updates, history, |updates|)
    ensures var dim, cs := Dim(updates), ForecastCoordinates(Dim(updates), s.maxForecastDim);
      && (f.Some? ==> Forecastable(history, ids, dim) && IsForecast(s, history, ids, dim, cs, f.value))
      && (EnoughRidge(s, |cs|, |ids|) ==> (f.Some? <==> Forecastable(history, ids, dim)))
      && (f.Some? <==> RoundForecast(s, history, updates).Some?)
      && (f.Some? ==>
            && Columnwise(RoundForecast(s, history, updates).value, f.value, ids) && Is(f.value, |cs|, |ids|)
            && forall id | id in RoundForecast(s, history, updates).value :: id in ids)
  {
    CommonIdsAre(updates, history, |updates|);
    ids := CommonIds(updates, history, |updates|);
    OrderIs(ids, updates, history);
    var dim, cs := Dim(updates), ForecastCoordinates(Dim(updates), s.maxForecastDim);
    hide Acceptable, CommonIds, SortedIds, Common, IsOrder, Before;
    f := ForecastIs(s, history, ids, dim, cs);
  }

  /** A ridge that keeps the solver from giving up; the default for up to a million clients. */
  predicate EnoughRidge(s: Settings, d: nat, h: nat) {
    s.ridge >= Times(d as real, GaussJordan.EPSILON) && s.ridge >= Times(h as real, GaussJordan.EPSILON)
  }

  lemma OrderIs(ids: seq<string>, updates: seq<ClientDelta>, history: seq<Snapshot>)
    requires SortedIds(ids) && forall id :: id in ids <==> Common(updates, history, |updates|, id)
    ensures IsOrder(ids, updates, history)
  {
    hide Before;
  }

  lemma ForecastIs(s: Settings, history: seq<Snapshot>, ids: seq<string>, dim: nat, cs: seq<nat>)
      returns (f: Option<Matrix>)
    requires (forall r | 0 <= r < |cs| :: cs[r] < dim) && HasRows(history, ids, dim, cs)
    requires SortedIds(ids) && s.ridge >= 0.0
    ensures var forecast := ForecastOf(s, history, ids, dim, cs);
      && (f.Some? <==> forecast.Some?)
      && (f.Some? ==> Forecastable(history, ids, dim) && IsForecast(s, history, ids, dim, cs, f.value))
      && (EnoughRidge(s, |cs|, |ids|) ==> (f.Some? <==> Forecastable(history, ids, dim)))
      && (f.Some? ==>
            && Columnwise(forecast.value, f.value, ids) && Is(f.value, |cs|, |ids|)
            && forall id | id in forecast.value :: id in ids)
  {
    hide HasRows, SortedIds;
    ExistsAsStated(s, history, ids, dim, cs);
    if ForecastOf(s, history, ids, dim, cs).None? {
      f := None;
    } else {
      var value := ForecastValue(s, history, ids, dim, cs);
      f := Some(value);
    }
  }

  lemma ExistsAsStated(s: Settings, history: seq<Snapshot>, ids: seq<string>, dim: nat, cs: seq<nat>)
    requires (forall r | 0 <= r < |cs| :: cs[r] < dim) && HasRows(history, ids, dim, cs)
    ensures ForecastOf(s, history, ids, dim, cs).Some? ==> Forecastable(history, ids, dim)
    ensures EnoughRidge(s, |cs|, |ids|) ==>
      (ForecastOf(s, history, ids, dim, cs).Some? <==> Forecastable(history, ids, dim))
  {
    PairsExist(history, ids, dim, cs, |history|);
    if EnoughRidge(s, |cs|, |ids|) { ForecastExistsIff(s, history, ids, dim, cs); }
    forall h | h in history ensures Observable(h, ids, dim) <==> Seen(h, ids, dim) {
      ObservableIsSeen(h, ids, dim);
    }
    hide Observable, Seen, RidgeFit.FitOf, Observation, Predictions, Mul, HasRows, Times;
    forall t: nat ensures ObservablePair(history, ids, dim, t) <==> SeenTwice(history, ids, dim, t) {
      if t + 1 < |history| { assert history[t] in history && history[t+1] in history; }
    }
    if |history| > 0 { assert history[|history|-1] in history; }
  }

  lemma ForecastValue(s: Settings, history: seq<Snapshot>, ids: seq<string>, dim: nat, cs: seq<nat>)
      returns (f: Matrix)
    requires (forall r | 0 <= r < |cs| :: cs[r] < dim) && HasRows(history, ids, dim, cs)
    requires SortedIds(ids) && s.ridge >= 0.0 && ForecastOf(s, history, ids, dim, cs).Some?
    ensures IsForecast(s, history, ids, dim, cs, f) && Is(f, |cs|, |ids|)
    ensures Columnwise(ForecastOf(s, history, ids, dim, cs).value, f, ids)
    ensures forall id | id in ForecastOf(s, history, ids, dim, cs).value :: id in ids
  {
    ForecastIsFitted(s, history, ids, dim, cs);
    hide RidgeFit.FitOf, RidgeFit.Fitted, HasRows, SortedIds, Columnwise;
    var pairs := PairsOf(history, ids, dim, cs, |history|);
    var (a, b) := RidgeFit.FitOf(pairs, s.ridge, |cs|, |ids|, s.alsIterations).value;
    var theta := Observation(history[|history|-1], ids, dim, cs);
    f := Mul(Mul(a, theta), b);
    var at := PairsAreStacked(history, ids, dim, cs, |history|);
    ObservationSamples(history[|history|-1], ids, dim, cs);
    OnlyPredicted(f, ids, |ids|);
    hide Mul, Stacked, Samples, Observation, PairsOf, Predictions;
    assert IsForecastOf(s, history, ids, dim, cs, f, pairs, at, theta);
  }

  lemma {:induction false} OnlyPredicted(predicted: Matrix, ids: seq<string>, n: nat)
    requires n <= |ids| && Rect(predicted, |ids|)
    ensures forall id | id in Predictions(predicted, ids, n) :: id in ids
  {
    if n > 0 { OnlyPredicted(predicted, ids, n - 1); }
  }

  /** Every score of a round. A client present in the forecast is scored by its squared distance to its own
      column of it, over the sampled coordinates; everybody else by the distance to the current global model,
      or zero before there is one. With enough ridge there is a forecast exactly when two clients of the
      batch are in every remembered round, and two consecutive of these rounds and the last one hold models
      of the batch's dimension for all of them. */
  lemma RoundScores(s: Settings, mem: Memory, updates: seq<ClientDelta>, base: seq<ClientDelta> -> Outcome)
      returns (ids: seq<string>, f: Option<Matrix>)
    requires |updates| > 0 && Acceptable(updates) && CanForecast(s, mem.history, updates) && s.ridge >= 0.0
    ensures IsOrder(ids, updates, mem.history)
    ensures var dim, cs := Dim(updates), ForecastCoordinates(Dim(updates), s.maxForecastDim);
      var d := Round(s, mem, updates, base).1;
      && (f.Some? ==> Forecastable(mem.history, ids, dim) && IsForecast(s, mem.history, ids, dim, cs, f.value))
      && (EnoughRidge(s, |cs|, |ids|) ==> (f.Some? <==> Forecastable(mem.history, ids, dim)))
      && |d| == |updates| && forall i | 0 <= i < |d| :: Scored(d[i], updates[i], ids, cs, f, mem.global)
  {
    ids, f := RoundForecastIs(s, mem.history, updates);
    var forecast := RoundForecast(s, mem.history, updates);
    var dim, cs := Dim(updates), ForecastCoordinates(Dim(updates), s.maxForecastDim);
    forall i | 0 <= i < |updates|
      ensures Scored(Round(s, mem, updates, base).1[i], updates[i], ids, cs, f, mem.global)
    {
      hide IsOrder, IsForecast, Forecastable, CanForecast, EnoughRidge;
      DiagnosedAs(s, mem, updates, base, i);
      ScoreIs(updates[i], ids, cs, forecast, f, mem.global, Round(s, mem, updates, base).1[i]);
    }
  }

  lemma DiagnosedAs(s: Settings, mem: Memory, updates: seq<ClientDelta>, base: seq<ClientDelta> -> Outcome, i: nat)
    requires |updates| > 0 && Acceptable(updates) && CanForecast(s, mem.history, updates) && i < |updates|
    ensures var d := Round(s, mem, updates, base).1[i];
      var cs, forecast := ForecastCoordinates(Dim(updates), s.maxForecastDim), RoundForecast(s, mem.history, updates);
      && |Plain(updates[i].weights)| == Dim(updates) && d.clientId == updates[i].clientId
      && d.score == Score(Plain(updates[i].weights), updates[i].clientId, cs, forecast, mem.global)
      && (d.forecastAvailable <==> forecast.Some? && updates[i].clientId in forecast.value)
  {
    hide Score, RoundForecast, CanForecast, KeptSet, KeepCount, Filtered, Remember, Current;
  }

  lemma ScoreIs(u: ClientDelta, ids: seq<string>, cs: seq<nat>, forecast: Option<Forecast>, f: Option<Matrix>,
                global: Option<Vec>, d: Diagnostic)
    requires AllFinite(u.weights) && forall r | 0 <= r < |cs| :: cs[r] < |Plain(u.weights)|
    requires f.Some? <==> forecast.Some?
    requires f.Some? ==> Columnwise(forecast.value, f.value, ids) && Is(f.value, |cs|, |ids|)
    requires f.Some? ==> forall id | id in forecast.value :: id in ids
    requires d.clientId == u.clientId && d.score == Score(Plain(u.weights), u.clientId, cs, forecast, global)
    requires d.forecastAvailable <==> forecast.Some? && u.clientId in forecast.value
    ensures Scored(d, u, ids, cs, f, global)
  {
    hide Score, Plain, AllFinite, Surprise;
    if f.Some? && u.clientId in ids {
      var col: nat :| col < |ids| && ids[col] == u.clientId;
      SurpriseIs(Plain(u.weights), u.clientId, cs, forecast, global, f.value, col);
    } else {
      FallbackIs(Plain(u.weights), u.clientId, cs, forecast, global);
    }
  }

  // ----- after any run -----

  /** The last `window` of the accepted rounds. */
  function LastOf(accepted: seq<Snapshot>, window: nat): seq<Snapshot> {
    accepted[if |accepted| <= window then 0 else |accepted| - window..]
  }

  /** After any run, the rounds remembered are the last `window` accepted ones and the global model the last
      accepted answer, and the next batch is scored against these. */
  lemma RunScores(s: Settings, inputs: seq<Input>, next: Input) returns (ids: seq<string>, f: Option<Matrix>)
    requires Run(s, inputs).Some? && |next.updates| > 0 && Acceptable(next.updates) && s.ridge >= 0.0
    requires CanForecast(s, Run(s, inputs).value.history, next.updates)
    ensures var history, global := LastOf(Accepted(s, inputs), s.historyWindow), LastResult(s, inputs);
      var dim, cs := Dim(next.updates), ForecastCoordinates(Dim(next.updates), s.maxForecastDim);
      var d := Round(s, Run(s, inputs).value, next.updates, next.base).1;
      && Run(s, inputs).value == Memory(history, global) && IsOrder(ids, next.updates, history)
      && (f.Some? ==> Forecastable(history, ids, dim) && IsForecast(s, history, ids, dim, cs, f.value))
      && (EnoughRidge(s, |cs|, |ids|) ==> (f.Some? <==> Forecastable(history, ids, dim)))
      && |d| == |next.updates| && forall i | 0 <= i < |d| :: Scored(d[i], next.updates[i], ids, cs, f, global)
  {
    RunRemembers(s, inputs);
    TrimIs(Accepted(s, inputs), s.historyWindow);
    hide Round, CanForecast, Run, Accepted, LastResult, IsOrder, IsForecast, Forecastable, Scored, EnoughRidge;
    ids, f := RoundScores(s, Run(s, inputs).value, next.updates, next.base);
  }

  lemma TrimIs(accepted: seq<Snapshot>, window: nat)
    ensures Trim(accepted, window) == LastOf(accepted, window)
  {
  }
}
