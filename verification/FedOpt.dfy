// The adaptive server optimizers FedAdagrad, FedAdam and FedYogi (optimization.rs) as a state
// machine, and a bound over every run on how far one round can move the model.
module FedOpt {
  import opened Reals
  import opened Vectors
  import opened Wrappers
  import opened Updates

  datatype Variant = Adagrad | Adam | Yogi

  datatype Params = Params(eta: real, beta1: real, beta2: real, tau: real)

  datatype State = State(global: Vec, m: Vec, v: Vec)

  /** `FedOptParams::for_variant` */
  function PaperDefaults(variant: Variant): Params {
    match variant
    case Adagrad => Params(1.0, 0.0, 0.0, 0.001)
    case Adam => Params(1.0, 0.9, 0.99, 0.001)
    case Yogi => Params(1.0, 0.9, 0.99, 0.001)
  }

  // ----- one coordinate of one round -----

  function NextM(p: Params, m: real, delta: real): real {
    Times(p.beta1, m) + Times(1.0 - p.beta1, delta)
  }

  /** The second moment before it is floored. */
  function RawV(variant: Variant, p: Params, v: real, delta: real): real {
    var d2 := Square(delta);
    match variant
    case Adagrad => v + d2
    case Adam => Times(p.beta2, v) + Times(1.0 - p.beta2, d2)
    case Yogi =>
      var diff := v - d2;
      var sign := if diff > 0.0 then 1.0 else if diff < 0.0 then -1.0 else 0.0;
      v - Times(Times(1.0 - p.beta2, d2), sign)
  }

  /** Clamped at the initialization floor τ². */
  function NextV(variant: Variant, p: Params, v: real, delta: real): real {
    Max(RawV(variant, p, v, delta), Square(p.tau))
  }

  function Denominator(sqrt: real -> real, p: Params, v: real): real {
    sqrt(v) + p.tau
  }

  function StepSize(sqrt: real -> real, p: Params, m: real, v: real): real
    requires Denominator(sqrt, p, v) != 0.0
  {
    Times(p.eta, m) / Denominator(sqrt, p, v)
  }

  // ----- one round -----

  function SeedState(target: Vec, p: Params): State {
    State(target, Zero(|target|), seq(|target|, _ => Square(p.tau)))
  }

  predicate Shaped(s: State) {
    |s.m| == |s.v| == |s.global|
  }

  function Moments(variant: Variant, p: Params, s: State, target: Vec): (r: (Vec, Vec))
    requires Shaped(s) && |target| == |s.global|
    ensures |r.0| == |r.1| == |target|
  {
    (seq(|target|, i requires 0 <= i < |target| => NextM(p, s.m[i], target[i] - s.global[i])),
     seq(|target|, i requires 0 <= i < |target| => NextV(variant, p, s.v[i], target[i] - s.global[i])))
  }

  /** The first coordinate whose denominator is zero: x/0 is not finite. */
  function FirstZeroDenominator(sqrt: real -> real, p: Params, v: Vec, i: nat): (r: Option<nat>)
    requires i <= |v|
    ensures r.None? <==> forall k | i <= k < |v| :: Denominator(sqrt, p, v[k]) != 0.0
    ensures r.Some? ==> i <= r.value < |v| && Denominator(sqrt, p, v[r.value]) == 0.0
    decreases |v| - i
  {
    if i == |v| then None
    else if Denominator(sqrt, p, v[i]) == 0.0 then Some(i)
    else FirstZeroDenominator(sqrt, p, v, i + 1)
  }

  function Moved(sqrt: real -> real, p: Params, x: Vec, m: Vec, v: Vec): (next: Vec)
    requires |x| == |m| == |v| && forall k | 0 <= k < |v| :: Denominator(sqrt, p, v[k]) != 0.0
    ensures |next| == |x|
  {
    seq(|x|, i requires 0 <= i < |x| => x[i] + StepSize(sqrt, p, m[i], v[i]))
  }

  /** `FedOptVariant::name`, as it appears in an error. */
  function OptimizerName(variant: Variant): string {
    match variant
    case Adagrad => "<fedadagrad server optimizer>"
    case Adam => "<fedadam server optimizer>"
    case Yogi => "<fedyogi server optimizer>"
  }

  /** The first of two positions that may not exist. */
  function Earlier(a: Option<nat>, b: Option<nat>): Option<nat> {
    if a.None? then b else if b.None? || a.value <= b.value then a else b
  }

  /** The round's transition once the batch has been aggregated to `target`. `overflow` is the first
      coordinate that narrowing to f32 turned non-finite, if any. */
  function Round(sqrt: real -> real, variant: Variant, p: Params, state: Option<State>, target: Vec,
        overflow: Option<nat>)
      : (r: (Option<State>, Outcome))
    requires state.Some? ==> Shaped(state.value)
    ensures r.0.Some? && Shaped(r.0.value)
    ensures r.1.Err? ==> r.0 == state
    ensures r.1.Ok? ==> r.1.value == r.0.value.global && |r.1.value| == |target|
  {
    if state.None? || |state.value.global| != |target| then (Some(SeedState(target, p)), Ok(target))
    else
      var s := state.value;
      var (m, v) := Moments(variant, p, s, target);
      var bad := Earlier(FirstZeroDenominator(sqrt, p, v, 0), overflow);
      if bad.Some? then (state, Err(NonFiniteWeights(OptimizerName(variant), bad.value)))
      else
        var next := Moved(sqrt, p, s.global, m, v);
        (Some(State(next, m, v)), Ok(next))
  }

  /** The first accepted round, and the first after a change of dimension, answers the target itself and starts
      from it: no momentum, and τ² under every coordinate. */
  lemma SeedRound(sqrt: real -> real, variant: Variant, p: Params, state: Option<State>, target: Vec,
        overflow: Option<nat>)
    requires state.Some? ==> Shaped(state.value)
    requires state.None? || |state.value.global| != |target|
    ensures var (after, answer) := Round(sqrt, variant, p, state, target, overflow);
      && answer == Ok(target) && after.Some? && after.value.global == target
      && |after.value.m| == |after.value.v| == |target|
      && forall i | 0 <= i < |target| :: after.value.m[i] == 0.0 && after.value.v[i] == Times(p.tau, p.tau)
  {
  }

  /** Every later accepted round moves each coordinate by η·m/(√v + τ), for the exponential average m of the
      differences to the target and the variant's average v of their squares, floored at τ². */
  lemma StepRound(sqrt: real -> real, variant: Variant, p: Params, s: State, target: Vec, overflow: Option<nat>,
        i: nat)
    requires Shaped(s) && |s.global| == |target| && i < |target|
    requires Round(sqrt, variant, p, Some(s), target, overflow).1.Ok?
    ensures var (after, answer) := Round(sqrt, variant, p, Some(s), target, overflow);
      && after.Some? && after.value.global == answer.value && |answer.value| == |target|
      && |after.value.m| == |after.value.v| == |target|
      && var delta, m, v := target[i] - s.global[i], after.value.m[i], after.value.v[i];
         && m == Times(p.beta1, s.m[i]) + Times(1.0 - p.beta1, delta)
         && v == Max(Blend(variant, p.beta2, s.v[i], Times(delta, delta)), Times(p.tau, p.tau))
         && sqrt(v) + p.tau != 0.0
         && Times(answer.value[i] - s.global[i], sqrt(v) + p.tau) == Times(p.eta, m)
  {
    hide FirstZeroDenominator, Denominator;
    var (m, v) := Moments(variant, p, s, target);
    assert Denominator(sqrt, p, v[i]) == sqrt(v[i]) + p.tau by { DenominatorIs(sqrt, p, v[i]); }
    Divide(Times(p.eta, m[i]), sqrt(v[i]) + p.tau);
    Distribute(1.0, p.beta2, Times(target[i] - s.global[i], target[i] - s.global[i]));
    RawVIsBlend(variant, p, s.v[i], target[i] - s.global[i]);
  }

  lemma DenominatorIs(sqrt: real -> real, p: Params, v: real)
    ensures Denominator(sqrt, p, v) == sqrt(v) + p.tau
  {
  }

  /** How the second moment takes in a square, before the floor: by adding it, by averaging, and for FedYogi
      by the fixed share (1 − β2) of the square towards the side on which it lies. */
  function Blend(variant: Variant, beta2: real, v: real, square: real): real {
    match variant
    case Adagrad => v + square
    case Adam => Times(beta2, v) + Times(1.0 - beta2, square)
    case Yogi =>
      if square < v then v - Times(1.0 - beta2, square)
      else if square > v then v + Times(1.0 - beta2, square)
      else v
  }

  lemma RawVIsBlend(variant: Variant, p: Params, v: real, delta: real)
    ensures RawV(variant, p, v, delta) == Blend(variant, p.beta2, v, Times(delta, delta))
  {
    var share := Times(1.0 - p.beta2, Times(delta, delta));
    OneTimes(share);
    ZeroTimes(share);
    Negate(share, 1.0);
  }

  /** A round is refused exactly when some denominator is zero or narrowing lost a coordinate, and then blames
      the first coordinate concerned. */
  lemma RefusedRound(sqrt: real -> real, variant: Variant, p: Params, s: State, target: Vec, overflow: Option<nat>)
    requires Shaped(s) && |s.global| == |target|
    ensures var (after, answer) := Round(sqrt, variant, p, Some(s), target, overflow);
      var v := Moments(variant, p, s, target).1;
      && (answer.Err? <==> overflow.Some? || exists k :: 0 <= k < |v| && sqrt(v[k]) + p.tau == 0.0)
      && (answer.Err? ==>
            && after == Some(s) && answer.error.NonFiniteWeights?
            && (overflow.Some? ==> answer.error.index <= overflow.value)
            && (forall k | 0 <= k < |v| && sqrt(v[k]) + p.tau == 0.0 :: answer.error.index <= k)
            && (overflow == Some(answer.error.index)
                || (answer.error.index < |v| && sqrt(v[answer.error.index]) + p.tau == 0.0)))
  {
    hide Moments;
    var v := Moments(variant, p, s, target).1;
    FirstZeroIs(sqrt, p, v, 0);
  }

  lemma {:induction false} FirstZeroIs(sqrt: real -> real, p: Params, v: Vec, i: nat)
    requires i <= |v|
    ensures match FirstZeroDenominator(sqrt, p, v, i)
      case None => forall k | i <= k < |v| :: sqrt(v[k]) + p.tau != 0.0
      case Some(x) => i <= x < |v| && sqrt(v[x]) + p.tau == 0.0 && forall k | i <= k < x :: sqrt(v[k]) + p.tau != 0.0
    decreases |v| - i
  {
    if i < |v| && Denominator(sqrt, p, v[i]) != 0.0 { FirstZeroIs(sqrt, p, v, i + 1); }
  }

  /** What the batch aggregates to: the unweighted mean, or whatever the wrapped base returns. */
  function Target(base: Option<seq<ClientDelta> -> Outcome>, updates: seq<ClientDelta>): Outcome {
    if |updates| == 0 then Err(EmptyBatch)
    else
      match DecodeAndValidate(updates)
      case Err(e) => Err(e)
      case Ok(vs) =>
        match base
        case Some(b) => b(updates)
        case None => Ok(Mean(vs, Dim(updates)))
  }

  lemma MomentsAt(variant: Variant, p: Params, s: State, target: Vec, i: nat)
    requires Shaped(s) && i < |target| == |s.global|
    ensures var (m, v) := Moments(variant, p, s, target);
      && m[i] == NextM(p, s.m[i], target[i] - s.global[i])
      && v[i] == NextV(variant, p, s.v[i], target[i] - s.global[i])
  {
  }

  lemma MovedIs(sqrt: real -> real, p: Params, x: Vec, m: Vec, v: Vec, next: Vec)
    requires |x| == |m| == |v| == |next| && forall k | 0 <= k < |v| :: Denominator(sqrt, p, v[k]) != 0.0
    requires forall k | 0 <= k < |x| :: next[k] == x[k] + StepSize(sqrt, p, m[k], v[k])
    ensures next == Moved(sqrt, p, x, m, v)
  {
  }

  lemma FirstZeroStep(sqrt: real -> real, p: Params, v: Vec, i: nat)
    requires i < |v|
    ensures FirstZeroDenominator(sqrt, p, v, i)
      == if Denominator(sqrt, p, v[i]) == 0.0 then Some(i) else FirstZeroDenominator(sqrt, p, v, i + 1)
  {
  }

  /** Without a base that is n times coordinate j being the sum of the clients' entries there, sample counts aside;
      with one it is the base's answer; and a batch that is empty or unacceptable reaches neither. */
  lemma TargetIs(base: Option<seq<ClientDelta> -> Outcome>, updates: seq<ClientDelta>)
    ensures |updates| == 0 || !Acceptable(updates) ==> Target(base, updates).Err?
    ensures |updates| > 0 && Acceptable(updates) && base.Some? ==> Target(base, updates) == base.value(updates)
    ensures |updates| > 0 && Acceptable(updates) && base.None? ==>
      && Target(base, updates).Ok? && |Target(base, updates).value| == Dim(updates)
      && forall j | 0 <= j < Dim(updates) ::
           Times(|updates| as real, Target(base, updates).value[j])
             == Total(Coordinate(Decoded(updates), Dim(updates), j))
  {
    if |updates| > 0 && Acceptable(updates) && base.None? {
      forall j | 0 <= j < Dim(updates)
        ensures Times(|updates| as real, Mean(Decoded(updates), Dim(updates))[j])
          == Total(Coordinate(Decoded(updates), Dim(updates), j))
      {
        MeanIsAverage(Decoded(updates), Dim(updates), j);
      }
    }
  }

  /** The loop over coordinates: every new value, moment and second moment, and the first
      coordinate whose step is not finite. */
  method Advance(sqrt: real -> real, variant: Variant, params: Params, s: State, target: Vec)
      returns (next: Vec, nextM: Vec, nextV: Vec, bad: Option<nat>)
    requires Shaped(s) && |target| == |s.global|
    ensures (nextM, nextV) == Moments(variant, params, s, target)
    ensures bad == FirstZeroDenominator(sqrt, params, nextV, 0)
    ensures bad.None? ==> next == Moved(sqrt, params, s.global, nextM, nextV)
  {
    hide NextM, NextV, Denominator, StepSize, FirstZeroDenominator, Moments, Moved;
    ghost var moments := Moments(variant, params, s, target);
    ghost var first := FirstZeroDenominator(sqrt, params, moments.1, 0);
    next, nextM, nextV, bad := [], [], [], None;
    for i := 0 to |target|
      invariant |next| == i && nextM == moments.0[..i] && nextV == moments.1[..i]
      invariant first == if bad.Some? then bad else FirstZeroDenominator(sqrt, params, moments.1, i)
      invariant bad.None? ==> forall k | 0 <= k < i :: Denominator(sqrt, params, nextV[k]) != 0.0
      invariant bad.None? ==> forall k | 0 <= k < i ::
        next[k] == s.global[k] + StepSize(sqrt, params, nextM[k], nextV[k])
    {
      var delta := target[i] - s.global[i];
      var m := NextM(params, s.m[i], delta);
      var v := NextV(variant, params, s.v[i], delta);
      MomentsAt(variant, params, s, target, i);
      FirstZeroStep(sqrt, params, moments.1, i);
      nextM := nextM + [m];
      nextV := nextV + [v];
      if Denominator(sqrt, params, v) == 0.0 {
        if bad.None? { bad := Some(i); }
        next := next + [0.0];
      } else {
        next := next + [s.global[i] + StepSize(sqrt, params, m, v)];
      }
    }
    assert nextM == moments.0 && nextV == moments.1;
    if bad.None? { MovedIs(sqrt, params, s.global, nextM, nextV, next); }
  }

  class FedOptAggregator {
    const variant: Variant
    const params: Params
    var state: Option<State>

    ghost predicate Valid()
      reads this
    {
      state.Some? ==> Shaped(state.value)
    }

    constructor (variant: Variant, params: Params)
      ensures this.variant == variant && this.params == params && state.None? && Valid()
    {
      this.variant := variant;
      this.params := params;
      state := None;
    }

    /** `aggregate`: a rejected round leaves the whole state as it was. A wrapped base has to return
        a vector of the batch's dimension, as every aggregator of the catalog does. */
    method Aggregate(sqrt: real -> real, base: Option<seq<ClientDelta> -> Outcome>,
                     updates: seq<ClientDelta>, overflow: Option<nat>) returns (r: Outcome)
      requires Valid()
      modifies this
      ensures Valid()
      ensures r.Err? ==> state == old(state)
      ensures Target(base, updates).Err? ==> r.Err? && r.error == Target(base, updates).error
      ensures Target(base, updates).Ok? ==>
        (state, r) == Round(sqrt, variant, params, old(state), Target(base, updates).value, overflow)
    {
      if |updates| == 0 { return Err(EmptyBatch); }
      var decoded := DecodeAndValidate(updates);
      if decoded.Err? { return Err(decoded.error); }
      var target: Vec := [];
      match base {
        case Some(b) =>
          var based := b(updates);
          if based.Err? { return based; }
          target := based.value;
        case None =>
          target := WeightedSum(EqualShares(|updates|), decoded.value, Dim(updates));
      }
      var dim := |target|;
      if state.None? || |state.value.global| != dim {
        state := Some(SeedState(target, params));
        return Ok(target);
      }
      var s := state.value;
      var next, nextM, nextV, bad := Advance(sqrt, variant, params, s, target);
      bad := Earlier(bad, overflow);
      if bad.Some? { return Err(NonFiniteWeights(OptimizerName(variant), bad.value)); }
      state := Some(State(next, nextM, nextV));
      r := Ok(next);
    }
  }

  // ----- the moment invariant -----

  /** m² ≤ K·v and v ≥ τ². */
  predicate Bounded(m: real, v: real, k: real, p: Params) {
    Square(m) <= Times(k, v) && v >= Square(p.tau)
  }

  /** The decay rates for which one step keeps m² ≤ K·v. FedYogi's second moment may shrink by
      (1 − β2)·v, so it asks for more room: some split e of the square has to fit. */
  predicate Covers(variant: Variant, p: Params, k: real, e: real) {
    && 0.0 <= p.beta1 < 1.0
    && match variant
       case Adagrad => k >= 1.0
       case Adam => AdamCovers(p, k)
       case Yogi =>
         && AdamCovers(p, k) && e > 0.0
         && Times(Times(1.0 + e, Square(p.beta1)), k) + Times(1.0 + 1.0 / e, Square(1.0 - p.beta1)) <= Times(k, p.beta2)
  }

  /** K ≥ (1 − β1)²·β2 / ((β2 − β1²)(1 − β2)), without the division. */
  predicate AdamCovers(p: Params, k: real) {
    && Square(p.beta1) < p.beta2 < 1.0 && k >= 0.0
    && Times(k, Times(p.beta2 - Square(p.beta1), 1.0 - p.beta2)) >= Times(Square(1.0 - p.beta1), p.beta2)
  }

  /** (a + b)² ≤ (1 + e)·a² + (1 + 1/e)·b² */
  lemma Young(a: real, b: real, e: real)
    requires e > 0.0
    ensures Square(a + b) <= Times(1.0 + e, Square(a)) + Times(1.0 + 1.0 / e, Square(b))
  {
    // e·((1+e)a² + (1+1/e)b² − (a+b)²) = (e·a − b)².
    var c := 1.0 / e;
    Divide(1.0, e);
    DivideNonNegative(1.0, e);
    var ea := Times(e, a);
    SquareSign(ea - b);
    SquareOfSum(ea, b);
    SquareOfSum(a, b);
    SquareOfProduct(e, a);
    Associate(e, a, b);
    Distribute(1.0, e, Square(a));
    Distribute(1.0, c, Square(b));
    // Multiply (e·a − b)² ≥ 0 by 1/e.
    NonNegative(c, Square(ea - b));
    Distribute(Times(Square(e), Square(a)) - 2.0 * Times(e, Times(a, b)), Square(b), c);
    Distribute(Times(Square(e), Square(a)), 2.0 * Times(e, Times(a, b)), c);
    YoungCancels(e, c, Square(a), Times(a, b));
  }

  lemma YoungCancels(e: real, c: real, a2: real, ab: real)
    requires Times(c, e) == 1.0
    ensures Times(c, Times(Square(e), a2)) == Times(e, a2)
    ensures Times(c, 2.0 * Times(e, ab)) == 2.0 * ab
  {
    Associate(c, Square(e), a2);
    Associate(c, e, e);
    Associate(c, e, ab);
    Distribute(Times(e, ab), Times(e, ab), c);
  }

  /** FedAdam: the step keeps m² ≤ K·v. Young's split with 1 + e = β2/β1². */
  lemma AdamKeeps(p: Params, k: real, m: real, v: real, delta: real)
    requires 0.0 <= p.beta1 < 1.0 && AdamCovers(p, k) && Square(m) <= Times(k, v) && v >= 0.0
    ensures Square(NextM(p, m, delta)) <= Times(k, Times(p.beta2, v) + Times(1.0 - p.beta2, Square(delta)))
  {
    var b1, b2, c := p.beta1, p.beta2, 1.0 - p.beta1;
    var g := b2 - Square(b1);
    SquareSign(b1);
    // (β1·m + c·δ)² ≤ β2·m² + c²·β2/g·δ², as g times the difference is a square.
    WeightedSquare(b1, b2, m, Times(c, delta));
    SquareOfProduct(c, delta);
    AdamArithmetic(g, b2, 1.0 - b2, k, Square(c), Square(NextM(p, m, delta)), Square(m), v, Square(delta));
  }

  /** With g = β2 − β1²: g·(β1·m + y)² ≤ g·β2·m² + β2·y². */
  lemma WeightedSquare(b1: real, b2: real, m: real, y: real)
    requires Square(b1) < b2
    ensures var g := b2 - Square(b1);
      Times(g, Square(Times(b1, m) + y)) <= Times(Times(g, b2), Square(m)) + Times(b2, Square(y))
  {
    // The difference is (g·m − β1·y)².
    var g := b2 - Square(b1);
    var gm, ey, bm := Times(g, m), Times(b1, y), Times(b1, m);
    SquareSign(gm - ey);
    SquareOfSum(gm, ey);
    SquareOfSum(bm, y);
    SquareOfProduct(g, m);
    SquareOfProduct(b1, y);
    SquareOfProduct(b1, m);
    Distribute(Square(bm) + 2.0 * Times(bm, y), Square(y), g);
    Distribute(Square(bm), 2.0 * Times(bm, y), g);
    Distribute(Times(bm, y), Times(bm, y), g);
    // g·2·(β1·m)·y = 2·(g·m)·(β1·y)
    Associate(g, bm, y);
    Associate(g, b1, m);
    Commute(g, b1);
    Associate(b1, g, m);
    Commute(b1, gm);
    Associate(gm, b1, y);
    // Square(g) = g·b2 − g·β1²
    Distribute(b2, Square(b1), g);
    Distribute(Times(g, b2), Times(g, Square(b1)), Square(m));
    Associate(g, Square(b1), Square(m));
    Distribute(b2, Square(b1), Square(y));
  }

  lemma AdamArithmetic(g: real, b2: real, h: real, k: real, c2: real, n2: real, m2: real, v: real, d2: real)
    requires g > 0.0 && b2 >= 0.0 && h >= 0.0 && m2 <= Times(k, v) && d2 >= 0.0
    requires Times(g, n2) <= Times(Times(g, b2), m2) + Times(b2, Times(c2, d2))
    requires Times(k, Times(g, h)) >= Times(c2, b2)
    ensures n2 <= Times(k, Times(b2, v) + Times(h, d2))
  {
    // g·n² ≤ g·β2·K·v + K·g·h·δ² = g·K·(β2·v + h·δ²)
    NonNegative(g, b2);
    Monotone(m2, Times(k, v), Times(g, b2));
    Associate(b2, c2, d2);
    Commute(b2, c2);
    Monotone(Times(c2, b2), Times(k, Times(g, h)), d2);
    var target := Times(k, Times(b2, v) + Times(h, d2));
    Distribute(Times(b2, v), Times(h, d2), k);
    Distribute(Times(k, Times(b2, v)), Times(k, Times(h, d2)), g);
    // regroup both products
    Regroup(g, b2, k, v);
    RegroupSecond(k, g, h, d2);
    Distribute(target, n2, g);
    SignOfFactor(g, target - n2);
  }

  lemma Regroup(g: real, b: real, k: real, v: real)
    ensures Times(Times(g, b), Times(k, v)) == Times(g, Times(k, Times(b, v)))
  {
    Associate(g, b, Times(k, v));
    Associate(b, k, v);
    Commute(b, k);
    Associate(k, b, v);
  }

  lemma RegroupSecond(k: real, g: real, h: real, d: real)
    ensures Times(Times(k, Times(g, h)), d) == Times(g, Times(k, Times(h, d)))
  {
    Associate(k, g, h);
    Commute(k, g);
    Associate(g, k, h);
    Associate(g, Times(k, h), d);
    Associate(k, h, d);
  }

  /** FedAdagrad: K = 1 suffices, because (β1·m + (1−β1)·δ)² ≤ m² + δ². */
  lemma AdagradKeeps(p: Params, k: real, m: real, v: real, delta: real)
    requires 0.0 <= p.beta1 < 1.0 && k >= 1.0 && Square(m) <= Times(k, v)
    ensures Square(NextM(p, m, delta)) <= Times(k, v + Square(delta))
  {
    var b, c := p.beta1, 1.0 - p.beta1;
    // β1·m² + c·δ² − (β1·m + c·δ)² = β1·c·(m − δ)² ≥ 0
    ConvexSquare(b, m, delta);
    SquareSign(m);
    SquareSign(delta);
    Monotone(b, 1.0, Square(m));
    Monotone(c, 1.0, Square(delta));
    Monotone(1.0, k, Square(delta));
    Distribute(v, Square(delta), k);
  }

  lemma ConvexSquare(b: real, x: real, y: real)
    requires 0.0 <= b <= 1.0
    ensures Square(Times(b, x) + Times(1.0 - b, y)) <= Times(b, Square(x)) + Times(1.0 - b, Square(y))
  {
    var c, d := 1.0 - b, x - y;
    // With x = y + d: (y + b·d)² versus y² + 2·b·y·d + b·d².
    Distribute(1.0, b, y);
    Distribute(x, y, b);
    var bd := Times(b, d);
    assert Times(b, x) + Times(c, y) == y + bd;
    SquareOfSum(y, bd);
    SquareOfProduct(b, d);
    SquareSign(d);
    Monotone(b, 1.0, b);
    Monotone(Square(b), b, Square(d));
    SquareOfSum(y, d);
    Distribute(Square(y) + 2.0 * Times(y, d), Square(d), b);
    Distribute(Square(y), 2.0 * Times(y, d), b);
    Distribute(Times(y, d), Times(y, d), b);
    Distribute(1.0, b, Square(y));
    Associate(y, b, d);
    Commute(y, b);
    Associate(b, y, d);
  }

  /** FedYogi: when the estimate shrinks, δ² < v, so the new moment is small against it. */
  lemma YogiKeeps(p: Params, k: real, e: real, m: real, v: real, delta: real)
    requires Covers(Yogi, p, k, e) && Square(m) <= Times(k, v) && v >= 0.0
    ensures Square(NextM(p, m, delta)) <= Times(k, RawV(Yogi, p, v, delta))
  {
    hide Square, Times, NextM;
    var d2, h := Square(delta), 1.0 - p.beta2;
    SquareSign(delta);
    if v < d2 {
      // v' = v + (1−β2)·δ² is at least Adam's.
      AdamKeeps(p, k, m, v, delta);
      YogiGrows(p.beta2, k, v, d2);
      assert RawV(Yogi, p, v, delta) == v + Times(h, d2) by { SignedTerm(h, d2); }
    } else {
      YogiSmall(p, k, e, m, v, delta);
      assert RawV(Yogi, p, v, delta) >= Times(p.beta2, v) by { YogiShrinks(p.beta2, v, d2); SignedTerm(h, d2); }
      Monotone(Times(p.beta2, v), RawV(Yogi, p, v, delta), k);
      Associate(k, p.beta2, v);
    }
  }

  lemma SignedTerm(h: real, d2: real)
    ensures Times(Times(h, d2), 1.0) == Times(h, d2)
    ensures Times(Times(h, d2), -1.0) == -Times(h, d2)
    ensures Times(Times(h, d2), 0.0) == 0.0
  {
  }

  /** FedYogi's second moment shrinks exactly when the incoming square is positive and below the
      estimate, and grows exactly when it is above. It never falls below β2 times the estimate, so
      not below zero either. */
  lemma YogiDirection(p: Params, v: real, delta: real)
    requires p.beta2 < 1.0 && v >= 0.0
    ensures RawV(Yogi, p, v, delta) >= Times(p.beta2, v)
    ensures RawV(Yogi, p, v, delta) < v <==> 0.0 < Square(delta) < v
    ensures RawV(Yogi, p, v, delta) > v <==> v < Square(delta)
  {
    var h, d2 := 1.0 - p.beta2, Square(delta);
    SquareSign(delta);
    SignOfFactor(h, d2);
    SignedTerm(h, d2);
    YogiShrinks(p.beta2, v, if d2 <= v then d2 else v);
    NonNegative(h, d2);
  }

  lemma YogiGrows(b2: real, k: real, v: real, d2: real)
    requires b2 < 1.0 && k >= 0.0 && v >= 0.0
    ensures Times(k, Times(b2, v) + Times(1.0 - b2, d2)) <= Times(k, v + Times(1.0 - b2, d2))
  {
    Monotone(b2, 1.0, v);
    Monotone(Times(b2, v) + Times(1.0 - b2, d2), v + Times(1.0 - b2, d2), k);
  }

  lemma YogiShrinks(b2: real, v: real, d2: real)
    requires b2 < 1.0 && 0.0 <= d2 <= v
    ensures v - Times(1.0 - b2, d2) >= Times(b2, v) && v >= Times(b2, v)
  {
    Monotone(d2, v, 1.0 - b2);
    Distribute(1.0, b2, v);
    Monotone(b2, 1.0, v);
  }

  /** (β1·m + (1−β1)·δ)² ≤ K·β2·v when δ² ≤ v. */
  lemma YogiSmall(p: Params, k: real, e: real, m: real, v: real, delta: real)
    requires Covers(Yogi, p, k, e) && Square(m) <= Times(k, v) && v >= 0.0 && Square(delta) <= v
    ensures Square(NextM(p, m, delta)) <= Times(Times(k, p.beta2), v)
  {
    var b1, c := p.beta1, 1.0 - p.beta1;
    var u, w := 1.0 + e, 1.0 + 1.0 / e;
    DivideNonNegative(1.0, e);
    Young(Times(b1, m), Times(c, delta), e);
    SquareOfProduct(b1, m);
    SquareOfProduct(c, delta);
    hide Times, Square, NextM;
    assert NextM(p, m, delta) == Times(b1, m) + Times(c, delta) by { NextMIs(p, m, delta); }
    SquareSign(b1);
    SquareSign(c);
    Associate(u, Square(b1), Square(m));
    Associate(w, Square(c), Square(delta));
    NonNegative(u, Square(b1));
    NonNegative(w, Square(c));
    Monotone(Square(m), Times(k, v), Times(u, Square(b1)));
    Monotone(Square(delta), v, Times(w, Square(c)));
    Associate(Times(u, Square(b1)), k, v);
    Distribute(Times(Times(u, Square(b1)), k), Times(w, Square(c)), v);
    Monotone(Times(Times(u, Square(b1)), k) + Times(w, Square(c)), Times(k, p.beta2), v);
  }

  lemma NextMIs(p: Params, m: real, delta: real)
    ensures NextM(p, m, delta) == Times(p.beta1, m) + Times(1.0 - p.beta1, delta)
  {
  }

  /** One step keeps the moment invariant, whatever pseudo-gradient the clients produce. */
  lemma StepKeepsBound(variant: Variant, p: Params, k: real, e: real, m: real, v: real, delta: real)
    requires Covers(variant, p, k, e) && Bounded(m, v, k, p)
    ensures Bounded(NextM(p, m, delta), NextV(variant, p, v, delta), k, p)
  {
    SquareSign(p.tau);
    SquareSign(delta);
    match variant {
      case Adagrad => AdagradKeeps(p, k, m, v, delta);
      case Adam => AdamKeeps(p, k, m, v, delta);
      case Yogi => YogiKeeps(p, k, e, m, v, delta);
    }
    hide Times, Square, NextM, RawV;
    Monotone(RawV(variant, p, v, delta), NextV(variant, p, v, delta), k);
    assert Square(NextM(p, m, delta)) <= Times(k, RawV(variant, p, v, delta)) by {
      RawVIs(variant, p, v, delta);
    }
  }

  lemma RawVIs(variant: Variant, p: Params, v: real, delta: real)
    ensures variant == Adagrad ==> RawV(variant, p, v, delta) == v + Square(delta)
    ensures variant == Adam ==>
      RawV(variant, p, v, delta) == Times(p.beta2, v) + Times(1.0 - p.beta2, Square(delta))
  {
  }

  /** A bounded coordinate steps by at most η·√K. */
  lemma StepIsSmall(sqrt: real -> real, p: Params, k: real, m: real, v: real)
    requires IsSqrt(sqrt) && p.tau >= 0.0 && k >= 0.0 && Bounded(m, v, k, p)
    requires Denominator(sqrt, p, v) != 0.0
    ensures Square(StepSize(sqrt, p, m, v)) <= Times(Square(p.eta), k)
  {
    SquareSign(p.tau);
    var s, d := sqrt(v), Denominator(sqrt, p, v);
    var step := StepSize(sqrt, p, m, v);
    assert Square(s) == v;
    SquareMonotone(s, d);
    Monotone(v, Square(d), k);
    // step·d = η·m, so step²·d² = η²·m² ≤ η²·K·d².
    Divide(Times(p.eta, m), d);
    SquareOfProduct(step, d);
    SquareOfProduct(p.eta, m);
    SquareSign(p.eta);
    hide Times, Square, StepSize, Denominator;
    Monotone(Square(m), Times(k, Square(d)), Square(p.eta));
    Associate(Square(p.eta), k, Square(d));
    SquareSign(d);
    Distribute(Times(Square(p.eta), k), Square(step), Square(d));
    Commute(Times(Square(p.eta), k) - Square(step), Square(d));
    SignOfFactor(Square(d), Times(Square(p.eta), k) - Square(step));
  }

  /** A coordinate steps in the direction of its first moment, and rests only when that is zero. */
  lemma StepFollowsMoment(sqrt: real -> real, p: Params, m: real, v: real)
    requires IsSqrt(sqrt) && p.eta > 0.0 && p.tau >= 0.0 && v >= 0.0 && Denominator(sqrt, p, v) != 0.0
    ensures StepSize(sqrt, p, m, v) > 0.0 <==> m > 0.0
    ensures StepSize(sqrt, p, m, v) == 0.0 <==> m == 0.0
  {
    var d, step := Denominator(sqrt, p, v), StepSize(sqrt, p, m, v);
    Divide(Times(p.eta, m), d);
    SignOfFactor(p.eta, m);
    SignOfFactor(d, step);
  }

  /** With β1 = 0, as for FedAdagrad by default, an accepted round moves every coordinate toward what
      the batch aggregated to, and leaves it only where it is there already. */
  lemma MemorylessStepsTowardTarget(sqrt: real -> real, variant: Variant, p: Params, s: State, target: Vec, i: nat)
    requires IsSqrt(sqrt) && p.eta > 0.0 && p.tau >= 0.0 && p.beta1 == 0.0
    requires Shaped(s) && |target| == |s.global| && i < |target|
    requires Round(sqrt, variant, p, Some(s), target, None).1.Ok?
    ensures var next := Round(sqrt, variant, p, Some(s), target, None).1.value;
      && (next[i] > s.global[i] <==> target[i] > s.global[i])
      && (next[i] == s.global[i] <==> target[i] == s.global[i])
  {
    var (m, v) := Moments(variant, p, s, target);
    SquareSign(p.tau);
    OneTimes(target[i] - s.global[i]);
    assert m[i] == target[i] - s.global[i] by { assert Times(0.0, s.m[i]) == 0.0; }
    assert v[i] >= 0.0;
    hide StepSize, NextM, NextV, Denominator;
    StepFollowsMoment(sqrt, p, m[i], v[i]);
  }

  // ----- runs -----

  predicate AllBounded(s: State, k: real, p: Params) {
    Shaped(s) && forall i | 0 <= i < |s.m| :: Bounded(s.m[i], s.v[i], k, p)
  }

  /** A round as the outside world sees it: what the batch aggregated to, if it did, and whether the
      result survived narrowing. */
  datatype Event = Event(target: Outcome, overflow: Option<nat>)

  function Apply(sqrt: real -> real, variant: Variant, p: Params, state: Option<State>, event: Event)
      : (r: (Option<State>, Outcome))
    requires state.Some? ==> Shaped(state.value)
    ensures r.0.Some? ==> Shaped(r.0.value)
  {
    match event.target
    case Err(e) => (state, Err(e))
    case Ok(target) => Round(sqrt, variant, p, state, target, event.overflow)
  }

  function Run(sqrt: real -> real, variant: Variant, p: Params, events: seq<Event>): (s: Option<State>)
    ensures s.Some? ==> Shaped(s.value)
  {
    if |events| == 0 then None
    else Apply(sqrt, variant, p, Run(sqrt, variant, p, events[..|events|-1]), events[|events|-1]).0
  }

  /** After any sequence of batches, m² ≤ K·v and v ≥ τ² in every coordinate. */
  lemma {:induction false} RunKeepsBound(sqrt: real -> real, variant: Variant, p: Params, k: real, e: real,
        events: seq<Event>)
    requires Covers(variant, p, k, e) && k >= 0.0
    ensures var s := Run(sqrt, variant, p, events); s.Some? ==> AllBounded(s.value, k, p)
  {
    if |events| > 0 {
      var before := Run(sqrt, variant, p, events[..|events|-1]);
      RunKeepsBound(sqrt, variant, p, k, e, events[..|events|-1]);
      ApplyKeepsBound(sqrt, variant, p, k, e, before, events[|events|-1]);
    }
  }

  lemma ApplyKeepsBound(sqrt: real -> real, variant: Variant, p: Params, k: real, e: real, state: Option<State>,
        event: Event)
    requires Covers(variant, p, k, e) && k >= 0.0
    requires state.Some? ==> AllBounded(state.value, k, p)
    ensures var s := Apply(sqrt, variant, p, state, event).0; s.Some? ==> AllBounded(s.value, k, p)
  {
    hide Covers, NextM, NextV, Times, Square, Denominator;
    SquareSign(0.0);
    SquareSign(p.tau);
    NonNegative(k, Square(p.tau));
    if event.target.Ok? && state.Some? && |state.value.global| == |event.target.value| {
      var s, target := state.value, event.target.value;
      forall i | 0 <= i < |target|
        ensures Bounded(Moments(variant, p, s, target).0[i], Moments(variant, p, s, target).1[i], k, p)
      {
        StepKeepsBound(variant, p, k, e, s.m[i], s.v[i], target[i] - s.global[i]);
      }
    }
  }

  /** In any run, an accepted round that does not reseed moves each coordinate by at most η·√K; a
      rejected one moves nothing. */
  lemma RoundIsBounded(sqrt: real -> real, variant: Variant, p: Params, k: real, e: real, events: seq<Event>,
        event: Event, i: nat)
    requires IsSqrt(sqrt) && Covers(variant, p, k, e) && k >= 0.0 && p.tau >= 0.0
    requires Run(sqrt, variant, p, events).Some?
    requires i < |Run(sqrt, variant, p, events).value.global|
    requires event.target.Ok? ==> |event.target.value| == |Run(sqrt, variant, p, events).value.global|
    ensures var before := Run(sqrt, variant, p, events);
      var (after, r) := Apply(sqrt, variant, p, before, event);
      && after.Some? && |after.value.global| == |before.value.global|
      && (r.Err? ==> after == before)
      && Square(after.value.global[i] - before.value.global[i]) <= Times(Square(p.eta), k)
  {
    var before := Run(sqrt, variant, p, events);
    var (after, r) := Apply(sqrt, variant, p, before, event);
    RunKeepsBound(sqrt, variant, p, k, e, events);
    ApplyKeepsBound(sqrt, variant, p, k, e, before, event);
    hide Covers, NextM, NextV, Times, Square, Denominator, StepSize, Run;
    SquareSign(p.eta);
    SquareSign(0.0);
    NonNegative(Square(p.eta), k);
    if r.Ok? {
      var a := after.value;
      StepIsSmall(sqrt, p, k, a.m[i], a.v[i]);
      assert a.global[i] == before.value.global[i] + StepSize(sqrt, p, a.m[i], a.v[i]);
    }
  }

  /** The same over a whole stretch of rounds without a change of dimension: n rounds move each
      coordinate by at most n·η·√K, for any r with r² ≥ η²·K. */
  lemma {:induction false} DriftIsBounded(sqrt: real -> real, variant: Variant, p: Params, k: real, e: real,
        events: seq<Event>, n: nat, i: nat, r: real)
    requires IsSqrt(sqrt) && Covers(variant, p, k, e) && k >= 0.0 && p.tau >= 0.0
    requires r >= 0.0 && Times(Square(p.eta), k) <= Square(r)
    requires n <= |events| && Run(sqrt, variant, p, events[..n]).Some?
    requires i < |Run(sqrt, variant, p, events[..n]).value.global|
    requires forall j | n <= j < |events| && events[j].target.Ok? ::
      |events[j].target.value| == |Run(sqrt, variant, p, events[..n]).value.global|
    ensures var start, end := Run(sqrt, variant, p, events[..n]), Run(sqrt, variant, p, events);
      && end.Some? && |end.value.global| == |start.value.global|
      && Abs(end.value.global[i] - start.value.global[i]) <= Times((|events| - n) as real, r)
  {
    hide Covers, Times, Square, Run, Apply;
    if n == |events| {
      assert events[..n] == events;
      ZeroTimes(r);
    } else {
      var last := |events| - 1;
      assert events[..last][..n] == events[..n];
      DriftIsBounded(sqrt, variant, p, k, e, events[..last], n, i, r);
      RoundIsBounded(sqrt, variant, p, k, e, events[..last], events[last], i);
      var before := Run(sqrt, variant, p, events[..last]);
      var after := Run(sqrt, variant, p, events);
      assert after == Apply(sqrt, variant, p, before, events[last]).0 by { RunSnoc(sqrt, variant, p, events); }
      RootMonotone(after.value.global[i] - before.value.global[i], r);
      Distribute((last - n) as real, 1.0, r);
      OneTimes(r);
    }
  }

  lemma RunSnoc(sqrt: real -> real, variant: Variant, p: Params, events: seq<Event>)
    requires |events| > 0
    ensures Run(sqrt, variant, p, events)
         == Apply(sqrt, variant, p, Run(sqrt, variant, p, events[..|events|-1]), events[|events|-1]).0
  {
  }

  /** At the paper's decay rates K = 5.5 covers FedAdam and FedYogi, and K = 1 covers FedAdagrad. */
  lemma PaperRatesAreCovered(variant: Variant, eta: real, tau: real)
    ensures var d := PaperDefaults(variant);
      Covers(variant, Params(eta, d.beta1, d.beta2, tau), if variant.Adagrad? then 1.0 else 5.5, 0.1)
  {
  }

  /** So with the paper's defaults n rounds move each coordinate by at most n under FedAdagrad, and by at most
      2.346·n under FedAdam and FedYogi, whatever the clients submit. */
  lemma PaperDrift(sqrt: real -> real, variant: Variant, events: seq<Event>, n: nat, i: nat)
    requires IsSqrt(sqrt) && n <= |events|
    requires Run(sqrt, variant, PaperDefaults(variant), events[..n]).Some?
    requires i < |Run(sqrt, variant, PaperDefaults(variant), events[..n]).value.global|
    requires forall j | n <= j < |events| && events[j].target.Ok? ::
      |events[j].target.value| == |Run(sqrt, variant, PaperDefaults(variant), events[..n]).value.global|
    ensures var p := PaperDefaults(variant);
      var start, end := Run(sqrt, variant, p, events[..n]), Run(sqrt, variant, p, events);
      && end.Some? && |end.value.global| == |start.value.global|
      && Abs(end.value.global[i] - start.value.global[i])
         <= Times((|events| - n) as real, if variant.Adagrad? then 1.0 else 2.346)
  {
    var p := PaperDefaults(variant);
    PaperRatesAreCovered(variant, p.eta, p.tau);
    hide Run, Covers;
    DriftIsBounded(sqrt, variant, p, if variant.Adagrad? then 1.0 else 5.5, 0.1, events, n, i,
      if variant.Adagrad? then 1.0 else 2.346);
  }
}
