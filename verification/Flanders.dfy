// FLANDERS (flanders.rs): a filter that scores each client against a forecast fitted to the rounds
// so far, keeps the lowest scores, and hands them to a base aggregator.
module Flanders {
  import opened Integers
  import opened Reals
  import opened Vectors
  import opened Matrices
  import opened Wrappers
  import opened Updates
  import opened Sorting
  import GaussJordan
  import RidgeFit
  import RidgeExistence

  /** One round's accepted submissions, by client. */
  type Snapshot = map<string, Vec>

  /** A client's predicted values at the sampled coordinates. */
  type Forecast = map<string, Vec>

  // ----- sampled coordinates -----

  /** `forecast_coordinates` */
  function ForecastCoordinates(dim: nat, limit: nat): (cs: seq<nat>)
    ensures dim > 0 ==> |cs| > 0
    ensures forall r | 0 <= r < |cs| :: cs[r] < dim
  {
    if dim <= limit || limit == 0 then seq(dim, i requires 0 <= i < dim => i)
    else seq(limit, i requires 0 <= i < limit => SampleAt(dim, limit, i))
  }

  function SampleAt(dim: nat, limit: nat, i: nat): (c: nat)
    requires dim > 0 && i < limit
    ensures c < dim
  {
    GapIsEven(dim, limit, i);
    Prod(i, dim) / limit
  }

  /** The sampled coordinates are strictly increasing, in range, start at zero, and evenly spread:
      neighbours are ⌊dim/|cs|⌋ or one more apart, and so is the last one from the end. */
  lemma CoordinatesAreSpread(dim: nat, limit: nat)
    ensures var cs := ForecastCoordinates(dim, limit);
      && |cs| == (if dim <= limit || limit == 0 then dim else limit)
      && (forall i | 0 <= i < |cs| :: cs[i] < dim)
      && (forall i, j | 0 <= i < j < |cs| :: cs[i] < cs[j])
      && (|cs| > 0 ==> cs[0] == 0)
      && forall i | 0 <= i < |cs| :: EvenGap(cs, dim, i)
  {
    var cs := ForecastCoordinates(dim, limit);
    if dim > limit > 0 {
      hide Prod;
      assert forall i | 0 <= i < limit :: cs[i] == Prod(i, dim) / limit;
      ProdUnit(dim);
      ProdUnit(limit);
      ProdCommutes(limit, dim);
      DivUnique(Prod(0, dim), limit, 0);
      DivUnique(Prod(limit, dim), limit, dim);
      forall i | 0 <= i < limit ensures cs[i] < dim && EvenGap(cs, dim, i) {
        GapIsEven(dim, limit, i);
      }
      DivBounds(dim, limit);
      ProdCompare(0, dim / limit, limit);
      forall i, j | 0 <= i < j < limit ensures cs[i] < cs[j] {
        forall k | 0 <= k < limit - 1 ensures cs[k] < cs[k + 1] {
          assert EvenGap(cs, dim, k);
        }
        Increasing(cs, i, j);
      }
    } else if dim > 0 {
      ProdUnit(dim);
      DivUnique(dim, dim, 1);
    }
  }

  /** When there are more coordinates than the limit, the i-th sample is the last one at or before i·dim/limit. */
  lemma SampledAt(dim: nat, limit: nat, i: nat)
    requires dim > limit > 0 && i < limit
    ensures var c := ForecastCoordinates(dim, limit)[i]; c * limit <= i * dim < (c + 1) * limit
  {
    GapIsEven(dim, limit, i);
    var c := ForecastCoordinates(dim, limit)[i];
    DivBounds(Prod(i, dim), limit);
    ProdDistributes(c, 1, limit);
    ProdUnit(limit);
    assert Prod(c + 1, limit) == (c + 1) * limit;
  }

  /** The step from coordinate i to the next, or to the end. */
  predicate EvenGap(cs: seq<nat>, dim: nat, i: nat)
    requires i < |cs|
  {
    var next := if i + 1 < |cs| then cs[i + 1] else dim;
    dim / |cs| <= next - cs[i] <= dim / |cs| + 1
  }

  lemma GapIsEven(dim: nat, limit: nat, i: nat)
    requires dim > 0 && limit > 0 && i < limit
    ensures Prod(i, dim) >= 0 && Prod(i + 1, dim) >= 0
    ensures dim / limit <= Prod(i + 1, dim) / limit - Prod(i, dim) / limit <= dim / limit + 1
    ensures Prod(i, dim) / limit < dim
  {
    hide Prod;
    ProdNonNegative(i, dim);
    ProdNonNegative(i + 1, dim);
    var a, b, s := Prod(i, dim) / limit, Prod(i + 1, dim) / limit, dim / limit;
    DivBounds(Prod(i, dim), limit);
    DivBounds(Prod(i + 1, dim), limit);
    DivBounds(dim, limit);
    ProdDistributes(i, 1, dim);
    ProdUnit(dim);
    ProdUnit(limit);
    // (b − a − s)·limit lies strictly between −limit and 2·limit.
    ProdDistributes(b, a, limit);
    ProdDistributes(b - a, s, limit);
    ProdDistributes(0, 1, limit);
    ProdCompare(-1, b - a - s, limit);
    ProdCompare(b - a - s, 2, limit);
    // a·limit ≤ i·dim < limit·dim
    ProdCompare(i, limit, dim);
    ProdCommutes(limit, dim);
    ProdCompare(a, dim, limit);
  }

  lemma {:induction false} Increasing(cs: seq<nat>, i: nat, j: nat)
    requires i < j < |cs| && forall k | 0 <= k < |cs| - 1 :: cs[k] < cs[k + 1]
    ensures cs[i] < cs[j]
    decreases j
  {
    if i + 1 < j { Increasing(cs, i, j - 1); }
  }

  // ----- observations -----

  /** The |coords| × |order| matrix of one snapshot, or `None` when a client is missing or its model
      has another dimension. */
  predicate Observable(snapshot: Snapshot, order: seq<string>, dim: nat) {
    forall k | 0 <= k < |order| :: order[k] in snapshot && |snapshot[order[k]]| == dim
  }

  function Observation(snapshot: Snapshot, order: seq<string>, dim: nat, coords: seq<nat>): (m: Matrix)
    requires Observable(snapshot, order, dim) && forall r | 0 <= r < |coords| :: coords[r] < dim
    ensures Is(m, |coords|, |order|)
  {
    seq(|coords|, r requires 0 <= r < |coords| =>
      seq(|order|, k requires 0 <= k < |order| => snapshot[order[k]][coords[r]]))
  }

  /** `observation` */
  method Observe(snapshot: Snapshot, order: seq<string>, dim: nat, coords: seq<nat>) returns (m: Option<Matrix>)
    requires forall r | 0 <= r < |coords| :: coords[r] < dim
    ensures m.Some? <==> Observable(snapshot, order, dim)
    ensures m.Some? ==> m.value == Observation(snapshot, order, dim, coords)
  {
    var rows := new Vec[|coords|](_ => Zero(|order|));
    for k := 0 to |order|
      invariant forall c | 0 <= c < k :: order[c] in snapshot && |snapshot[order[c]]| == dim
      invariant forall r | 0 <= r < |coords| :: |rows[r]| == |order|
      invariant forall r, c | 0 <= r < |coords| && 0 <= c < k :: rows[r][c] == snapshot[order[c]][coords[r]]
    {
      if order[k] !in snapshot || |snapshot[order[k]]| != dim { return None; }
      var w := snapshot[order[k]];
      for r := 0 to |coords|
        invariant forall s | 0 <= s < |coords| :: |rows[s]| == |order|
        invariant forall s, c | 0 <= s < |coords| && 0 <= c < k :: rows[s][c] == snapshot[order[c]][coords[s]]
        invariant forall s | 0 <= s < r :: rows[s][k] == w[coords[s]]
      {
        rows[r] := rows[r][k := w[coords[r]]];
      }
    }
    forall r | 0 <= r < |coords| ensures rows[..][r] == Observation(snapshot, order, dim, coords)[r] {
    }
    m := Some(rows[..]);
  }

  // ----- column order -----

  /** Lexicographic order on client ids. */
  predicate Before(a: string, b: string) {
    if |b| == 0 then false
    else if |a| == 0 then true
    else a[0] < b[0] || (a[0] == b[0] && Before(a[1..], b[1..]))
  }

  function InsertId(s: seq<string>, x: string): (r: seq<string>)
    ensures |r| == |s| + 1
    ensures forall y :: y in r <==> y in s || y == x
  {
    if |s| == 0 then [x]
    else if Before(s[|s|-1], x) then s + [x]
    else
      var r := InsertId(s[..|s|-1], x);
      assert s == s[..|s|-1] + [s[|s|-1]];
      r + [s[|s|-1]]
  }

  /** The ids of this round that every snapshot of the window also holds, each once, sorted. */
  function CommonIds(updates: seq<ClientDelta>, history: seq<Snapshot>, n: nat): (ids: seq<string>)
    requires n <= |updates|
    ensures forall x | x in ids :: forall h | h in history :: x in h
  {
    if n == 0 then []
    else
      var ids := CommonIds(updates, history, n - 1);
      var id := updates[n-1].clientId;
      if id !in ids && (forall h | h in history :: id in h) then InsertId(ids, id) else ids
  }

  /** Some of the first n updates has this id, and so has every snapshot. */
  predicate Common(updates: seq<ClientDelta>, history: seq<Snapshot>, n: nat, id: string)
    requires n <= |updates|
  {
    (exists k :: 0 <= k < n && updates[k].clientId == id) && forall h | h in history :: id in h
  }

  predicate SortedIds(s: seq<string>) {
    forall i, j | 0 <= i < j < |s| :: Before(s[i], s[j])
  }

  lemma {:induction false} BeforeIsStrict(a: string, b: string)
    ensures !(Before(a, b) && Before(b, a))
    ensures a != b ==> Before(a, b) || Before(b, a)
  {
    if |a| > 0 && |b| > 0 {
      BeforeIsStrict(a[1..], b[1..]);
      assert a == [a[0]] + a[1..] && b == [b[0]] + b[1..];
    }
  }

  lemma {:induction false} BeforeIsTransitive(a: string, b: string, c: string)
    requires Before(a, b) && Before(b, c)
    ensures Before(a, c)
  {
    if |a| > 0 && a[0] == b[0] == c[0] { BeforeIsTransitive(a[1..], b[1..], c[1..]); }
  }

  lemma {:induction false} InsertKeepsSorted(s: seq<string>, x: string)
    requires SortedIds(s) && x !in s
    ensures SortedIds(InsertId(s, x))
  {
    if |s| > 0 {
      var k := |s| - 1;
      var last := s[k];
      BeforeIsStrict(last, x);
      if Before(last, x) {
        forall i | 0 <= i < |s| ensures Before(s[i], x) {
          if i < k { BeforeIsTransitive(s[i], last, x); }
        }
      } else {
        InsertKeepsSorted(s[..k], x);
        var r := InsertId(s[..k], x);
        forall i | 0 <= i < |r| ensures Before(r[i], last) {
          assert r[i] in r;
          if r[i] != x {
            var j :| 0 <= j < k && s[..k][j] == r[i];
          }
        }
      }
    }
  }

  /** The column order is canonical: strictly sorted, and exactly the ids present now and in every
      snapshot of the window. */
  lemma {:induction false} CommonIdsAre(updates: seq<ClientDelta>, history: seq<Snapshot>, n: nat)
    requires n <= |updates|
    ensures SortedIds(CommonIds(updates, history, n))
    ensures forall id :: id in CommonIds(updates, history, n) <==> Common(updates, history, n, id)
  {
    hide Before;
    if n > 0 {
      CommonIdsAre(updates, history, n - 1);
      var ids, x := CommonIds(updates, history, n - 1), updates[n-1].clientId;
      if x !in ids { InsertKeepsSorted(ids, x); }
      forall id ensures id in CommonIds(updates, history, n) <==> Common(updates, history, n, id) {
        CommonStep(updates, history, n, id);
      }
    }
  }

  lemma CommonStep(updates: seq<ClientDelta>, history: seq<Snapshot>, n: nat, id: string)
    requires 0 < n <= |updates|
    ensures Common(updates, history, n, id)
      <==> Common(updates, history, n - 1, id)
           || (id == updates[n-1].clientId && forall h | h in history :: id in h)
  {
    if exists k :: 0 <= k < n && updates[k].clientId == id {
      var k :| 0 <= k < n && updates[k].clientId == id;
      assert k == n - 1 || k < n - 1;
    }
    if id == updates[n-1].clientId {
      assert exists k :: 0 <= k < n && updates[k].clientId == id;
    }
  }

  /** `zip(&decoded)` collected into a map: a repeated id keeps its last update. */
  function Current(updates: seq<ClientDelta>, n: nat): Snapshot
    requires Acceptable(updates) && n <= |updates|
  {
    if n == 0 then map[]
    else Current(updates, n - 1)[updates[n-1].clientId := Plain(updates[n-1].weights)]
  }

  /** The snapshot holds the ids of the batch, each with its last update. */
  lemma {:induction false} CurrentHoldsLast(updates: seq<ClientDelta>, n: nat, k: nat)
    requires Acceptable(updates) && k < n <= |updates|
    requires forall j | k < j < n :: updates[j].clientId != updates[k].clientId
    ensures updates[k].clientId in Current(updates, n)
    ensures Current(updates, n)[updates[k].clientId] == Plain(updates[k].weights)
  {
    if k < n - 1 { CurrentHoldsLast(updates, n - 1, k); }
  }

  /** And nothing else. */
  lemma {:induction false} CurrentHoldsOnly(updates: seq<ClientDelta>, n: nat, id: string)
    requires Acceptable(updates) && n <= |updates| && id in Current(updates, n)
    ensures exists k :: 0 <= k < n && updates[k].clientId == id
  {
    if n > 0 && updates[n-1].clientId != id { CurrentHoldsOnly(updates, n - 1, id); }
  }

  // ----- scores -----

  function At(w: Vec, coords: seq<nat>): (s: Vec)
    requires forall r | 0 <= r < |coords| :: coords[r] < |w|
    ensures |s| == |coords|
  {
    seq(|coords|, r requires 0 <= r < |coords| => w[coords[r]])
  }

  /** Squared distance over `zip`: the longer vector's tail is ignored. */
  function ZipSq(a: Vec, b: Vec): real {
    var k := if |a| <= |b| then |a| else |b|;
    Sq(Sub(a[..k], b[..k]))
  }

  /** Equation (4): distance to the forecast if there is one for this client, else to the global
      model, else zero. */
  function Score(w: Vec, id: string, coords: seq<nat>, forecast: Option<Forecast>, global: Option<Vec>): real
    requires forall r | 0 <= r < |coords| :: coords[r] < |w|
  {
    if forecast.Some? && id in forecast.value then ZipSq(At(w, coords), forecast.value[id])
    else if global.Some? then ZipSq(w, global.value)
    else 0.0
  }

  lemma ZipSqZero(a: Vec, b: Vec)
    requires |a| == |b|
    ensures ZipSq(a, b) >= 0.0 && (ZipSq(a, b) == 0.0 <==> a == b)
  {
    assert a[..|a|] == a && b[..|b|] == b;
    SqNonNegative(Sub(a, b));
    if ZipSq(a, b) == 0.0 {
      forall i | 0 <= i < |a| ensures a[i] == b[i] {
        assert Sub(a, b)[i] == 0.0;
      }
    } else if a == b {
      assert Sub(a, b) == Zero(|a|);
      DotZero(Zero(|a|));
    }
  }

  /** A client scores zero exactly when it submitted what was predicted for it, or, with no prediction,
      the current global model; before there is either, everybody does. */
  lemma ScoreMeasuresSurprise(w: Vec, id: string, coords: seq<nat>, forecast: Option<Forecast>, global: Option<Vec>)
    requires forall r | 0 <= r < |coords| :: coords[r] < |w|
    ensures forecast.Some? && id in forecast.value && |forecast.value[id]| == |coords| ==>
      Score(w, id, coords, forecast, global) >= 0.0
      && (Score(w, id, coords, forecast, global) == 0.0
          <==> forall r | 0 <= r < |coords| :: w[coords[r]] == forecast.value[id][r])
    ensures (forecast.None? || id !in forecast.value) && global.Some? && |global.value| == |w| ==>
      Score(w, id, coords, forecast, global) >= 0.0
      && (Score(w, id, coords, forecast, global) == 0.0 <==> w == global.value)
    ensures forecast.None? && global.None? ==> Score(w, id, coords, forecast, global) == 0.0
  {
    hide ZipSq;
    if forecast.Some? && id in forecast.value {
      if |forecast.value[id]| == |coords| { ZipSqZero(At(w, coords), forecast.value[id]); }
    } else if global.Some? && |global.value| == |w| {
      ZipSqZero(w, global.value);
    }
  }

  datatype Diagnostic = Diagnostic(clientId: string, score: real, forecastAvailable: bool, kept: bool)

  function AllScores(updates: seq<ClientDelta>, coords: seq<nat>, forecast: Option<Forecast>,
        global: Option<Vec>): (s: Vec)
    requires |updates| > 0 && Acceptable(updates) && forall r | 0 <= r < |coords| :: coords[r] < Dim(updates)
    ensures |s| == |updates|
  {
    seq(|updates|, i requires 0 <= i < |updates| =>
      Score(Decoded(updates)[i], updates[i].clientId, coords, forecast, global))
  }

  // ----- the filter -----

  /** k = max(1, m − ⌈f·m⌉) once there is a signal; everyone before. */
  function KeepCount(fraction: real, m: nat, signal: bool): (k: nat)
    requires m > 0
    ensures 1 <= k <= m
  {
    if !signal then m
    else
      var excluded := CeilToNat(Times(fraction, m as real));
      if m >= excluded + 1 then m - excluded else 1
  }

  function KeptSet(scores: Vec, k: nat): set<nat>
    requires k <= |scores|
  {
    Members(LowestScores(scores, k))
  }

  /** Exactly k clients are kept, and nobody dropped scores less than anybody kept, or as much and came first. */
  lemma KeptAreLowest(scores: Vec, k: nat)
    requires k <= |scores|
    ensures |KeptSet(scores, k)| == k
    ensures forall i | i in KeptSet(scores, k) :: i < |scores|
    ensures forall i, j: nat | i in KeptSet(scores, k) && j < |scores| && j !in KeptSet(scores, k) ::
      scores[i] < scores[j] || (scores[i] == scores[j] && i < j)
  {
    LowestScoresAreLowest(scores, k);
    LowestScoresBreakTies(scores, k);
    DistinctSetSize(LowestScores(scores, k));
  }

  /** The kept updates in batch order. */
  function Filtered(updates: seq<ClientDelta>, kept: set<nat>, n: nat): (r: seq<ClientDelta>)
    requires n <= |updates|
  {
    if n == 0 then []
    else Filtered(updates, kept, n - 1) + if n - 1 in kept then [updates[n-1]] else []
  }

  lemma {:induction false} FilteredSize(updates: seq<ClientDelta>, kept: set<nat>, n: nat)
    requires n <= |updates| && forall i | i in kept :: i < n
    ensures |Filtered(updates, kept, n)| == |kept|
  {
    if n == 0 {
      assert kept == {};
    } else {
      FilteredSize(updates, kept - {n - 1}, n - 1);
      FilteredIgnores(updates, kept, n - 1, n - 1);
    }
  }

  lemma {:induction false} FilteredIgnores(updates: seq<ClientDelta>, kept: set<nat>, x: nat, n: nat)
    requires n <= |updates| && n <= x
    ensures Filtered(updates, kept, n) == Filtered(updates, kept - {x}, n)
  {
    if n > 0 { FilteredIgnores(updates, kept, x, n - 1); }
  }

  // ----- state -----

  /** What a round may change besides its diagnostics. */
  datatype Memory = Memory(history: seq<Snapshot>, global: Option<Vec>)

  function Trim(history: seq<Snapshot>, window: nat): (h: seq<Snapshot>)
    ensures |h| <= window
  {
    if |history| <= window then history else history[|history| - window..]
  }

  /** Only an accepted round is remembered. */
  function Remember(window: nat, mem: Memory, current: Snapshot, outcome: Outcome): Memory {
    match outcome
    case Err(_) => mem
    case Ok(result) => Memory(Trim(mem.history + [current], window), Some(result))
  }

  // ----- forecasts -----

  /** The consecutive snapshots among the first n that can both be observed. */
  function PairsOf(history: seq<Snapshot>, order: seq<string>, dim: nat, coords: seq<nat>,
        n: nat): (pairs: seq<RidgeFit.Pair>)
    requires n <= |history| && forall r | 0 <= r < |coords| :: coords[r] < dim
    ensures forall p | 0 <= p < |pairs| ::
      Is(pairs[p].0, |coords|, |order|) && Is(pairs[p].1, |coords|, |order|)
  {
    if n < 2 then []
    else
      var x, y := history[n-2], history[n-1];
      PairsOf(history, order, dim, coords, n - 1)
      + if Observable(x, order, dim) && Observable(y, order, dim)
        then [(Observation(x, order, dim, coords), Observation(y, order, dim, coords))]
        else []
  }

  /** The k-th id is predicted column k. */
  function Predictions(predicted: Matrix, order: seq<string>, n: nat): Forecast
    requires n <= |order| && Rect(predicted, |order|)
  {
    if n == 0 then map[] else Predictions(predicted, order, n - 1)[order[n-1] := Column(predicted, n - 1)]
  }

  /** The fit's first act is to look at the first row of its first pair. */
  predicate HasRows(history: seq<Snapshot>, order: seq<string>, dim: nat, coords: seq<nat>)
    requires forall r | 0 <= r < |coords| :: coords[r] < dim
  {
    |coords| > 0 || |order| < 2 || |PairsOf(history, order, dim, coords, |history|)| == 0
  }

  /** Â·Θ·B̂ for the last snapshot Θ and the factors fitted to the window, if there are any. */
  function ForecastOf(s: Settings, history: seq<Snapshot>, order: seq<string>, dim: nat,
        coords: seq<nat>): (f: Option<Forecast>)
    requires forall r | 0 <= r < |coords| :: coords[r] < dim
    requires HasRows(history, order, dim, coords)
  {
    if |order| < 2 || |history| < 2 then None
    else
      var pairs := PairsOf(history, order, dim, coords, |history|);
      if |pairs| == 0 then None
      else
        match RidgeFit.FitOf(pairs, s.ridge, |coords|, |order|, s.alsIterations)
        case None => None
        case Some((a, b)) =>
          var last := history[|history|-1];
          if !Observable(last, order, dim) then None
          else Some(Predictions(Mul(Mul(a, Observation(last, order, dim, coords)), b), order, |order|))
  }

  lemma {:induction false} PredictionsAreColumns(predicted: Matrix, order: seq<string>, n: nat, k: nat)
    requires k < n <= |order| && Rect(predicted, |order|) && SortedIds(order)
    ensures order[k] in Predictions(predicted, order, n)
    ensures Predictions(predicted, order, n)[order[k]] == Column(predicted, k)
  {
    if k < n - 1 {
      PredictionsAreColumns(predicted, order, n - 1, k);
      BeforeIsStrict(order[k], order[n-1]);
    }
  }

  /** Every forecast is Â·Θ·B̂ column by column, for the fitted factors: no worse than the identities,
      and each the best partner of the one it was fitted against. */
  lemma ForecastIsFitted(s: Settings, history: seq<Snapshot>, order: seq<string>, dim: nat, coords: seq<nat>)
    requires (forall r | 0 <= r < |coords| :: coords[r] < dim) && HasRows(history, order, dim, coords)
    requires SortedIds(order) && s.ridge >= 0.0 && ForecastOf(s, history, order, dim, coords).Some?
    ensures |coords| > 0 && |order| >= 2 && |history| >= 2 && Observable(history[|history|-1], order, dim)
    ensures var pairs := PairsOf(history, order, dim, coords, |history|);
      && RidgeFit.FitOf(pairs, s.ridge, |coords|, |order|, s.alsIterations).Some?
      && RidgeFit.Fitted(pairs, s.ridge, |coords|, |order|, s.alsIterations)
      && var (a, b) := RidgeFit.FitOf(pairs, s.ridge, |coords|, |order|, s.alsIterations).value;
         Columnwise(ForecastOf(s, history, order, dim, coords).value,
                    Mul(Mul(a, Observation(history[|history|-1], order, dim, coords)), b), order)
  {
    hide RidgeFit.FitOf, RidgeFit.Fitted, Mul, Observation, Predictions, Before;
    var pairs := PairsOf(history, order, dim, coords, |history|);
    RidgeFit.FitIsFitted(pairs, s.ridge, |coords|, |order|, s.alsIterations);
    var (a, b) := RidgeFit.FitOf(pairs, s.ridge, |coords|, |order|, s.alsIterations).value;
    var predicted := Mul(Mul(a, Observation(history[|history|-1], order, dim, coords)), b);
    var f := ForecastOf(s, history, order, dim, coords).value;
    assert f == Predictions(predicted, order, |order|);
    forall k | 0 <= k < |order| ensures order[k] in f && f[order[k]] == Column(predicted, k) {
      PredictionsAreColumns(predicted, order, |order|, k);
    }
    assert Columnwise(f, predicted, order);
  }

  ghost predicate Columnwise(f: Forecast, predicted: Matrix, order: seq<string>) {
    Rect(predicted, |order|) && forall k | 0 <= k < |order| :: order[k] in f && f[order[k]] == Column(predicted, k)
  }

  /** With a ridge of at least 1e-12 times the larger dimension, the default's for up to a million
      clients, there is a forecast exactly when two clients are common to a history of two rounds, some
      two consecutive snapshots can be observed, and so can the last. */
  lemma ForecastExistsIff(s: Settings, history: seq<Snapshot>, order: seq<string>, dim: nat, coords: seq<nat>)
    requires (forall r | 0 <= r < |coords| :: coords[r] < dim) && HasRows(history, order, dim, coords)
    requires s.ridge >= Times(|coords| as real, GaussJordan.EPSILON)
    requires s.ridge >= Times(|order| as real, GaussJordan.EPSILON)
    ensures ForecastOf(s, history, order, dim, coords).Some?
      <==> && |order| >= 2 && |history| >= 2 && Observable(history[|history|-1], order, dim)
           && exists t: nat :: ObservablePair(history, order, dim, t)
  {
    hide RidgeFit.FitOf, Observable, Observation, Times, Mul, Predictions;
    var pairs := PairsOf(history, order, dim, coords, |history|);
    PairsExist(history, order, dim, coords, |history|);
    if |order| >= 2 && |pairs| > 0 {
      RidgeExistence.FitExists(pairs, s.ridge, |coords|, |order|, s.alsIterations);
    }
  }

  /** Snapshots t and t + 1 can both be observed. */
  predicate ObservablePair(history: seq<Snapshot>, order: seq<string>, dim: nat, t: nat) {
    t + 1 < |history| && Observable(history[t], order, dim) && Observable(history[t+1], order, dim)
  }

  lemma {:induction false} PairsExist(history: seq<Snapshot>, order: seq<string>, dim: nat, coords: seq<nat>, n: nat)
    requires n <= |history| && forall r | 0 <= r < |coords| :: coords[r] < dim
    ensures |PairsOf(history, order, dim, coords, n)| > 0
      <==> exists t: nat :: t + 1 < n && ObservablePair(history, order, dim, t)
  {
    hide Observable, Observation;
    if n >= 2 {
      PairsExist(history, order, dim, coords, n - 1);
      assert ObservablePair(history, order, dim, n - 2)
        <==> Observable(history[n-2], order, dim) && Observable(history[n-1], order, dim);
    }
  }

  // ----- one round -----

  datatype Settings = Settings(
    historyWindow: nat,
    byzantineFraction: real,
    ridge: real,
    alsIterations: nat,
    maxForecastDim: nat)

  /** Whether the round reaches no forecast over zero coordinates, on which the source panics. */
  predicate CanForecast(s: Settings, history: seq<Snapshot>, updates: seq<ClientDelta>)
    requires |updates| > 0 && Acceptable(updates)
  {
    HasRows(history, CommonIds(updates, history, |updates|), Dim(updates),
            ForecastCoordinates(Dim(updates), s.maxForecastDim))
  }

  /** The source panics exactly on a batch of empty vectors when two of its clients are common to the
      history and two consecutive rounds of empty vectors are in it. */
  lemma PanicsIff(s: Settings, history: seq<Snapshot>, updates: seq<ClientDelta>)
    requires |updates| > 0 && Acceptable(updates)
    ensures !CanForecast(s, history, updates)
      <==> && Dim(updates) == 0 && |CommonIds(updates, history, |updates|)| >= 2
           && exists t: nat :: ObservablePair(history, CommonIds(updates, history, |updates|), 0, t)
  {
    hide Observable, PairsOf, CommonIds;
    var order := CommonIds(updates, history, |updates|);
    PairsExist(history, order, Dim(updates), ForecastCoordinates(Dim(updates), s.maxForecastDim), |history|);
  }

  function RoundForecast(s: Settings, history: seq<Snapshot>, updates: seq<ClientDelta>): Option<Forecast>
    requires |updates| > 0 && Acceptable(updates) && CanForecast(s, history, updates)
  {
    ForecastOf(s, history, CommonIds(updates, history, |updates|), Dim(updates),
               ForecastCoordinates(Dim(updates), s.maxForecastDim))
  }

  function Diagnose(updates: seq<ClientDelta>, scores: Vec, forecast: Option<Forecast>,
        kept: set<nat>): (d: seq<Diagnostic>)
    requires |scores| == |updates|
    ensures |d| == |updates|
  {
    seq(|updates|, i requires 0 <= i < |updates| =>
      Diagnostic(updates[i].clientId, scores[i], forecast.Some? && updates[i].clientId in forecast.value, i in kept))
  }

  /** What one accepted batch does: the memory, the diagnostics and the answer after it. */
  function Round(s: Settings, mem: Memory, updates: seq<ClientDelta>,
        base: seq<ClientDelta> -> Outcome): (r: (Memory, seq<Diagnostic>, Outcome))
    requires |updates| > 0 && Acceptable(updates) && CanForecast(s, mem.history, updates)
    ensures |r.1| == |updates|
  {
    var m, forecast := |updates|, RoundForecast(s, mem.history, updates);
    var scores := AllScores(updates, ForecastCoordinates(Dim(updates), s.maxForecastDim), forecast, mem.global);
    var kept := KeptSet(scores, KeepCount(s.byzantineFraction, m, forecast.Some? || mem.global.Some?));
    var answer := base(Filtered(updates, kept, m));
    (Remember(s.historyWindow, mem, Current(updates, m), answer), Diagnose(updates, scores, forecast, kept), answer)
  }

  /** The updates the diagnostics mark as kept, in batch order. */
  function Survivors(updates: seq<ClientDelta>, d: seq<Diagnostic>, n: nat): seq<ClientDelta>
    requires n <= |updates| == |d|
  {
    if n == 0 then [] else Survivors(updates, d, n - 1) + if d[n-1].kept then [updates[n-1]] else []
  }

  lemma {:induction false} SurvivorsAreFiltered(updates: seq<ClientDelta>, d: seq<Diagnostic>, kept: set<nat>, n: nat)
    requires n <= |updates| == |d| && forall i: nat | i < |d| :: d[i].kept <==> i in kept
    ensures Survivors(updates, d, n) == Filtered(updates, kept, n)
  {
    if n > 0 { SurvivorsAreFiltered(updates, d, kept, n - 1); }
  }

  /** The filter, read off the diagnostics: the base answers for exactly the survivors, k of them,
      none scoring more than anybody dropped; and everyone survives before there is a signal. */
  lemma RoundFilters(s: Settings, mem: Memory, updates: seq<ClientDelta>, base: seq<ClientDelta> -> Outcome)
    requires |updates| > 0 && Acceptable(updates) && CanForecast(s, mem.history, updates)
    ensures var (after, d, answer) := Round(s, mem, updates, base);
      var signal := RoundForecast(s, mem.history, updates).Some? || mem.global.Some?;
      && answer == base(Survivors(updates, d, |updates|))
      && |Survivors(updates, d, |updates|)| == KeepCount(s.byzantineFraction, |updates|, signal) >= 1
      && (forall i, j | 0 <= i < |d| && 0 <= j < |d| && d[i].kept && !d[j].kept ::
            d[i].score < d[j].score || (d[i].score == d[j].score && i < j))
      && (!signal ==> Survivors(updates, d, |updates|) == updates)
      && (answer.Err? ==> after == mem)
  {
    hide AllScores, RoundForecast, LowestScores, CanForecast, HasRows;
    var m, forecast := |updates|, RoundForecast(s, mem.history, updates);
    var signal := forecast.Some? || mem.global.Some?;
    var scores := AllScores(updates, ForecastCoordinates(Dim(updates), s.maxForecastDim), forecast, mem.global);
    var kept := KeptSet(scores, KeepCount(s.byzantineFraction, m, signal));
    BaseSeesKept(updates, scores, s.byzantineFraction, signal);
    KeptAreLowest(scores, KeepCount(s.byzantineFraction, m, signal));
    hide KeptSet, KeepCount;
    SurvivorsAreFiltered(updates, Diagnose(updates, scores, forecast, kept), kept, m);
  }

  // ----- the source's loops -----

  method ConsecutivePairs(history: seq<Snapshot>, order: seq<string>, dim: nat, coords: seq<nat>)
      returns (pairs: seq<RidgeFit.Pair>)
    requires forall r | 0 <= r < |coords| :: coords[r] < dim
    ensures pairs == PairsOf(history, order, dim, coords, |history|)
  {
    hide Observation, Observable;
    pairs := [];
    var t := 0;
    while t + 1 < |history|
      invariant t == 0 || t < |history|
      invariant pairs == PairsOf(history, order, dim, coords, if t == 0 then 0 else t + 1)
    {
      var x := Observe(history[t], order, dim, coords);
      var y := Observe(history[t + 1], order, dim, coords);
      if x.Some? && y.Some? { pairs := pairs + [(x.value, y.value)]; }
      t := t + 1;
    }
  }

  method ReadForecast(predicted: Matrix, order: seq<string>) returns (f: Forecast)
    requires Rect(predicted, |order|)
    ensures f == Predictions(predicted, order, |order|)
  {
    f := map[];
    for k := 0 to |order|
      invariant f == Predictions(predicted, order, k)
    {
      f := f[order[k] := Column(predicted, k)];
    }
  }

  class FlandersAggregator {
    const settings: Settings
    var history: seq<Snapshot>
    var global: Option<Vec>
    var lastDiagnostics: seq<Diagnostic>

    /** `new`, with the catalog's defaults. */
    constructor ()
      ensures history == [] && global.None? && lastDiagnostics == []
      ensures settings == Settings(5, 0.2, 0.000001, 5, 500)
    {
      settings := Settings(5, 0.2, 0.000001, 5, 500);
      history, global, lastDiagnostics := [], None, [];
    }

    /** The forecast branch of `aggregate`. */
    method MakeForecast(order: seq<string>, dim: nat, coords: seq<nat>) returns (f: Option<Forecast>)
      requires (forall r | 0 <= r < |coords| :: coords[r] < dim) && HasRows(history, order, dim, coords)
      ensures f == ForecastOf(settings, history, order, dim, coords)
    {
      hide Observation, PairsOf, Predictions, RidgeFit.FitOf, Mul;
      if |order| < 2 || |history| < 2 { return None; }
      var pairs := ConsecutivePairs(history, order, dim, coords);
      if |pairs| == 0 { return None; }
      var fit := RidgeFit.FitMar(pairs, settings.ridge, settings.alsIterations);
      if fit.None? { return None; }
      var previous := Observe(history[|history| - 1], order, dim, coords);
      if previous.None? { return None; }
      var left := Matmul(fit.value.0, previous.value);
      var predicted := Matmul(left, fit.value.1);
      var read := ReadForecast(predicted, order);
      f := Some(read);
    }

    /**
     * `aggregate`. `base` is what the wrapped aggregator answers this round. The base sees exactly
     * the kept clients in batch order, and the history and global model move only if it accepts;
     * the diagnostics are written before it is asked.
     */
    method Aggregate(updates: seq<ClientDelta>, base: seq<ClientDelta> -> Outcome) returns (r: Outcome)
      requires |updates| > 0 && Acceptable(updates) ==> CanForecast(settings, history, updates)
      modifies this
      ensures |updates| == 0 ==> r == Err(EmptyBatch)
      ensures |updates| > 0 && !Acceptable(updates) ==> r.Err? && r.error == DecodeAndValidate(updates).error
      ensures |updates| == 0 || !Acceptable(updates) ==>
        history == old(history) && global == old(global) && lastDiagnostics == old(lastDiagnostics)
      ensures |updates| > 0 && Acceptable(updates) ==>
        (Memory(history, global), lastDiagnostics, r)
          == Round(settings, Memory(old(history), old(global)), updates, base)
    {
      if |updates| == 0 { return Err(EmptyBatch); }
      var decoded := DecodeAndValidate(updates);
      if decoded.Err? { return Err(decoded.error); }
      hide Score, ForecastOf, HasRows, LowestScores, AllScores, KeepCount, Filtered, CommonIds, Current;
      var dim, m := Dim(updates), |updates|;
      var current := Current(updates, m);
      var order := CommonIds(updates, history, m);
      var coords := ForecastCoordinates(dim, settings.maxForecastDim);
      var forecast := MakeForecast(order, dim, coords);
      var scores := AllScores(updates, coords, forecast, global);
      var k := KeepCount(settings.byzantineFraction, m, forecast.Some? || global.Some?);
      var kept := KeptSet(scores, k);
      lastDiagnostics := Diagnose(updates, scores, forecast, kept);
      r := base(Filtered(updates, kept, m));
      if r.Err? { return; }
      PushTrimmed(current);
      global := Some(r.value);
    }

    /** `push_back`, then `pop_front` until the window fits. */
    method PushTrimmed(current: Snapshot)
      modifies this`history
      ensures history == Trim(old(history) + [current], settings.historyWindow)
    {
      history := history + [current];
      ghost var grown := history;
      ghost var dropped := 0;
      while |history| > settings.historyWindow
        invariant 0 <= dropped <= |grown| && history == grown[dropped..]
        invariant dropped > 0 ==> |history| >= settings.historyWindow
      {
        history := history[1..];
        dropped := dropped + 1;
      }
    }
  }

  /** Nobody is dropped before there is a signal; then the number dropped is the least integer that is
      at least f·m, but never everyone. */
  lemma DropIsLeast(fraction: real, m: nat, signal: bool)
    requires m > 0
    ensures var k, drop := KeepCount(fraction, m, signal), m - KeepCount(fraction, m, signal);
      && 1 <= k <= m && (!signal ==> k == m)
      && drop <= CeilToNat(Times(fraction, m as real))
      && (signal ==> drop == CeilToNat(Times(fraction, m as real)) || k == 1)
      && (drop > 0 ==> (drop - 1) as real < Times(fraction, m as real))
      && (signal && k > 1 ==> Times(fraction, m as real) <= drop as real)
  {
    var k := KeepCount(fraction, m, signal);
    CeilToNatIsLeast(Times(fraction, m as real), m - k);
    if m - k > 0 { CeilToNatIsLeast(Times(fraction, m as real), m - k - 1); }
  }

  /** The base is never given an empty batch: it sees exactly k ≥ 1 clients, all of them before
      there is a signal; and the number dropped is the least that covers f·m, unless one is left. */
  lemma BaseSeesKept(updates: seq<ClientDelta>, scores: Vec, fraction: real, signal: bool)
    requires |scores| == |updates| > 0
    ensures var m := |updates|;
      var k := KeepCount(fraction, m, signal);
      && |Filtered(updates, KeptSet(scores, k), m)| == k >= 1
      && (!signal ==> Filtered(updates, KeptSet(scores, k), m) == updates)
      && m - k <= CeilToNat(Times(fraction, m as real))
      && (signal ==> m - k == CeilToNat(Times(fraction, m as real)) || k == 1)
      && (m - k > 0 ==> (m - k - 1) as real < Times(fraction, m as real))
      && (signal && k > 1 ==> Times(fraction, m as real) <= (m - k) as real)
  {
    hide KeptSet, KeepCount, CeilToNat, Filtered, LowestScores, Times;
    var m := |updates|;
    var k := KeepCount(fraction, m, signal);
    DropIsLeast(fraction, m, signal);
    KeptAreLowest(scores, k);
    FilteredSize(updates, KeptSet(scores, k), m);
    if !signal {
      AllKept(updates, KeptSet(scores, m), m);
      assert updates[..m] == updates;
    }
  }

  lemma {:induction false} AllKept(updates: seq<ClientDelta>, kept: set<nat>, n: nat)
    requires n <= |updates| == |kept| && forall i | i in kept :: i < |updates|
    ensures Filtered(updates, kept, n) == updates[..n]
  {
    if n > 0 {
      AllKept(updates, kept, n - 1);
      FullSet(kept, |updates|);
      assert updates[..n] == updates[..n-1] + [updates[n-1]];
    }
  }

  lemma {:induction false} FullSet(s: set<nat>, n: nat)
    requires |s| == n && forall i | i in s :: i < n
    ensures forall i: nat | i < n :: i in s
  {
    if n > 0 {
      if n - 1 in s {
        FullSet(s - {n - 1}, n - 1);
      } else {
        SmallSet(s, n - 1);
      }
    }
  }

  lemma {:induction false} SmallSet(s: set<nat>, n: nat)
    requires forall i | i in s :: i < n
    ensures |s| <= n
  {
    if n == 0 {
      assert s == {};
    } else {
      SmallSet(s - {n - 1}, n - 1);
    }
  }

  // ----- runs -----

  /** A batch, and what the wrapped aggregator answers this round. */
  datatype Input = Input(updates: seq<ClientDelta>, base: seq<ClientDelta> -> Outcome)

  /** The batch reaches the base, and the base accepts what it is given. */
  predicate Taken(s: Settings, mem: Memory, input: Input) {
    && |input.updates| > 0 && Acceptable(input.updates) && CanForecast(s, mem.history, input.updates)
    && Round(s, mem, input.updates, input.base).2.Ok?
  }

  /** The memory after a call of `aggregate`; None once a call has panicked, which poisons the lock. */
  function Step(s: Settings, mem: Memory, input: Input): Option<Memory> {
    if |input.updates| == 0 || !Acceptable(input.updates) then Some(mem)
    else if !CanForecast(s, mem.history, input.updates) then None
    else Some(Round(s, mem, input.updates, input.base).0)
  }

  function Run(s: Settings, inputs: seq<Input>): Option<Memory> {
    if |inputs| == 0 then Some(Memory([], None))
    else
      match Run(s, inputs[..|inputs|-1])
      case None => None
      case Some(mem) => Step(s, mem, inputs[|inputs|-1])
  }

  /** The snapshots of the rounds whose base accepted, in order. */
  function Accepted(s: Settings, inputs: seq<Input>): seq<Snapshot>
    requires Run(s, inputs).Some?
  {
    if |inputs| == 0 then []
    else
      var before, last := inputs[..|inputs|-1], inputs[|inputs|-1];
      Accepted(s, before)
      + if Taken(s, Run(s, before).value, last) then [Current(last.updates, |last.updates|)] else []
  }

  /** What the last of those rounds answered. */
  function LastResult(s: Settings, inputs: seq<Input>): Option<Vec>
    requires Run(s, inputs).Some?
  {
    if |inputs| == 0 then None
    else
      var before, last := inputs[..|inputs|-1], inputs[|inputs|-1];
      var mem := Run(s, before).value;
      if Taken(s, mem, last) then Some(Round(s, mem, last.updates, last.base).2.value) else LastResult(s, before)
  }

  /** Over every run of batches the history is exactly the last `window` accepted rounds, and the global
      model the last accepted result; every other batch leaves no trace. */
  lemma {:induction false} RunRemembers(s: Settings, inputs: seq<Input>)
    requires Run(s, inputs).Some?
    ensures Run(s, inputs).value == Memory(Trim(Accepted(s, inputs), s.historyWindow), LastResult(s, inputs))
    ensures |Run(s, inputs).value.history| <= s.historyWindow
    ensures LastResult(s, inputs).Some? <==> |Accepted(s, inputs)| > 0
  {
    hide Round, CanForecast, Current;
    if |inputs| > 0 {
      var before, last := inputs[..|inputs|-1], inputs[|inputs|-1];
      RunRemembers(s, before);
      StepRemembers(s, Run(s, before).value, last);
      if Taken(s, Run(s, before).value, last) {
        TrimTwice(Accepted(s, before), Current(last.updates, |last.updates|), s.historyWindow);
      }
    }
  }

  lemma StepRemembers(s: Settings, mem: Memory, input: Input)
    requires Step(s, mem, input).Some?
    ensures Step(s, mem, input).value ==
      if Taken(s, mem, input)
      then Memory(Trim(mem.history + [Current(input.updates, |input.updates|)], s.historyWindow),
                  Some(Round(s, mem, input.updates, input.base).2.value))
      else mem
  {
    hide AllScores, RoundForecast, KeptSet, KeepCount, Filtered, Diagnose, CanForecast;
  }

  lemma TrimTwice(h: seq<Snapshot>, x: Snapshot, window: nat)
    ensures Trim(Trim(h, window) + [x], window) == Trim(h + [x], window)
  {
  }

  /** After any run, the next batch is filtered exactly when some round before it was accepted: then all
      but ⌈f·m⌉ survive, at least one, and none of them scores above anybody dropped; until then everybody
      does. The base answers for the survivors. */
  lemma RunFilters(s: Settings, inputs: seq<Input>, next: Input)
    requires Run(s, inputs).Some? && |next.updates| > 0 && Acceptable(next.updates)
    requires CanForecast(s, Run(s, inputs).value.history, next.updates)
    ensures var (after, d, answer) := Round(s, Run(s, inputs).value, next.updates, next.base);
      var survivors, m := Survivors(next.updates, d, |next.updates|), |next.updates|;
      && Run(s, inputs + [next]) == Some(after)
      && answer == next.base(survivors)
      && |survivors| >= 1 && m - |survivors| <= CeilToNat(Times(s.byzantineFraction, m as real))
      && (|Accepted(s, inputs)| == 0 ==> survivors == next.updates)
      && (|Accepted(s, inputs)| > 0 ==>
            m - |survivors| == CeilToNat(Times(s.byzantineFraction, m as real)) || |survivors| == 1)
      && (forall i, j | 0 <= i < |d| && 0 <= j < |d| && d[i].kept && !d[j].kept ::
            d[i].score < d[j].score || (d[i].score == d[j].score && i < j))
  {
    hide Round, RoundForecast, Accepted, LastResult, Run, Survivors, CanForecast, Acceptable;
    var mem := Run(s, inputs).value;
    RunRemembers(s, inputs);
    RoundFilters(s, mem, next.updates, next.base);
    RunExtends(s, inputs, next);
    SignalIsMemory(s, mem, next.updates);
  }

  lemma RunExtends(s: Settings, inputs: seq<Input>, next: Input)
    requires Run(s, inputs).Some?
    ensures Run(s, inputs + [next]) == Step(s, Run(s, inputs).value, next)
    ensures Run(s, inputs + [next]).Some? ==>
      Accepted(s, inputs + [next])
        == Accepted(s, inputs)
           + if Taken(s, Run(s, inputs).value, next) then [Current(next.updates, |next.updates|)] else []
  {
    hide Round, CanForecast, Acceptable, Current;
    assert (inputs + [next])[..|inputs|] == inputs;
  }

  /** A forecast needs a history, so the only signal that can be missing is the global model. */
  lemma SignalIsMemory(s: Settings, mem: Memory, updates: seq<ClientDelta>)
    requires |updates| > 0 && Acceptable(updates) && CanForecast(s, mem.history, updates)
    ensures RoundForecast(s, mem.history, updates).Some? ==> |mem.history| >= 2
  {
    hide CommonIds, PairsOf, HasRows, Acceptable;
  }

  // ----- the panic -----

  /** A client submitting an empty weight vector. */
  function Hollow(id: string): ClientDelta {
    ClientDelta(id, 1, Weights([]), 1, None, None)
  }

  /** FedAvg accepts any part of a hollow batch, and answers the empty vector. */
  lemma HollowMean(batch: seq<ClientDelta>)
    requires |batch| > 0 && forall u | u in batch :: u == Hollow("a") || u == Hollow("b")
    ensures FedAvg(batch) == Ok([])
  {
    forall i | 0 <= i < |batch| ensures batch[i] == Hollow("a") || batch[i] == Hollow("b") {
      assert batch[i] in batch;
    }
    FedAvgIsConvex(batch, 0, 0.0, 0.0);
    assert |FedAvg(batch).value| == 0;
  }

  /** A batch of two hollow clients, over FedAvg. */
  function HollowInput(): Input {
    Input([Hollow("a"), Hollow("b")], FedAvg)
  }

  /** What two hollow clients leave in the history. */
  function HollowSnapshot(): Snapshot {
    map["a" := [], "b" := []]
  }

  lemma HollowBatch()
    ensures Acceptable(HollowInput().updates) && Dim(HollowInput().updates) == 0
    ensures Current(HollowInput().updates, 2) == HollowSnapshot()
  {
    assert Plain(Weights([])) == [];
  }

  lemma HollowStep(s: Settings, mem: Memory)
    requires s.historyWindow >= 2 && |mem.history| < 2
    ensures Acceptable(HollowInput().updates) && Taken(s, mem, HollowInput())
    ensures Step(s, mem, HollowInput()) == Some(Memory(mem.history + [HollowSnapshot()], Some([])))
  {
    HollowBatch();
    hide Round, CanForecast, Survivors, Acceptable, KeepCount, Current, FedAvg;
    var batch := HollowInput().updates;
    PanicsIff(s, mem.history, batch);
    var (after, d, answer) := Round(s, mem, batch, FedAvg);
    RoundFilters(s, mem, batch, FedAvg);
    SurvivorsAreMembers(batch, d, |batch|);
    HollowMean(Survivors(batch, d, |batch|));
    StepRemembers(s, mem, HollowInput());
  }

  lemma {:induction false} SurvivorsAreMembers(updates: seq<ClientDelta>, d: seq<Diagnostic>, n: nat)
    requires n <= |updates| == |d|
    ensures forall u | u in Survivors(updates, d, n) :: u in updates
  {
    if n > 0 { SurvivorsAreMembers(updates, d, n - 1); }
  }

  lemma HollowPanics(s: Settings)
    ensures Acceptable(HollowInput().updates)
    ensures !CanForecast(s, [HollowSnapshot(), HollowSnapshot()], HollowInput().updates)
  {
    hide CanForecast, Current, CommonIds, Before;
    HollowBatch();
    var history, batch := [HollowSnapshot(), HollowSnapshot()], HollowInput().updates;
    CommonIdsAre(batch, history, 2);
    var ids := CommonIds(batch, history, 2);
    assert batch[0].clientId == "a" && batch[1].clientId == "b";
    assert Common(batch, history, 2, "a") && Common(batch, history, 2, "b");
    var p :| 0 <= p < |ids| && ids[p] == "a";
    var q :| 0 <= q < |ids| && ids[q] == "b";
    assert p != q by { assert "a"[0] != "b"[0]; }
    forall k | 0 <= k < |ids| ensures ids[k] in HollowSnapshot() {
      assert ids[k] in ids && history[0] in history;
    }
    assert ObservablePair(history, ids, 0, 0);
    PanicsIff(s, history, batch);
  }

  /** Two clients, three rounds of empty vectors over FedAvg: the first two rounds are accepted and the
      third panics. */
  lemma EmptyVectorsPanic(s: Settings)
    requires s.historyWindow >= 2
    ensures var i := HollowInput();
      && Run(s, [i, i]).Some? && |Accepted(s, [i, i])| == 2
      && Run(s, [i, i, i]).None?
  {
    hide Taken, CanForecast, Acceptable, HollowSnapshot, Accepted, Run, Round;
    var i, h := HollowInput(), HollowSnapshot();
    HollowStep(s, Memory([], None));
    HollowStep(s, Memory([h], Some([])));
    assert [] + [h] == [h] && [h] + [h] == [h, h];
    TwoRounds(s, i, Memory([h], Some([])), Memory([h, h], Some([])));
    HollowPanics(s);
    RunExtends(s, [i, i], i);
    assert [i, i] + [i] == [i, i, i];
  }

  lemma TwoRounds(s: Settings, i: Input, one: Memory, two: Memory)
    requires Taken(s, Memory([], None), i) && Step(s, Memory([], None), i) == Some(one)
    requires Taken(s, one, i) && Step(s, one, i) == Some(two)
    ensures Run(s, [i, i]) == Some(two) && |Accepted(s, [i, i])| == 2
  {
    hide Taken, Step, Acceptable;
    RunExtends(s, [], i);
    RunExtends(s, [i], i);
    assert [] + [i] == [i] && [i] + [i] == [i, i];
  }
}
