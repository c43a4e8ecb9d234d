// The weighted geometric median by Weiszfeld's algorithm (robust.rs): every iteration descends, and
// no iterate leaves the coordinate-wise range of the updates.
module GeometricMedian {
  import opened Reals
  import opened Vectors
  import opened Wrappers
  import opened Updates
  import opened OrderStatistics

  const EPS: real := 0.000001

  function Distance(sqrt: real -> real, v: Vec, x: Vec): real
    requires |v| == |x|
  {
    sqrt(Sq(Sub(v, x)))
  }

  /** wᵢ / max(‖vᵢ − x‖, EPS) */
  function InverseDistanceWeights(sqrt: real -> real, ws: Vec, vs: seq<Vec>, x: Vec): (a: Vec)
    requires IsSqrt(sqrt) && |ws| == |vs| && Rect(vs, |x|)
    ensures |a| == |ws|
  {
    seq(|ws|, i requires 0 <= i < |ws| => ws[i] / Max(Distance(sqrt, vs[i], x), EPS))
  }

  /** One pass of the loop: the reweighted mean, or no move when the weights vanish. */
  function Step(sqrt: real -> real, ws: Vec, vs: seq<Vec>, x: Vec): (next: Vec)
    requires IsSqrt(sqrt) && |ws| == |vs| && Rect(vs, |x|)
    ensures |next| == |x|
  {
    var a := InverseDistanceWeights(sqrt, ws, vs, x);
    if Total(a) <= 0.0 then x else Comb(Over(a, Total(a)), vs, |x|)
  }

  function Iterate(sqrt: real -> real, ws: Vec, vs: seq<Vec>, x: Vec, k: nat): (r: Vec)
    requires IsSqrt(sqrt) && |ws| == |vs| && Rect(vs, |x|)
    ensures |r| == |x|
  {
    if k == 0 then x else Step(sqrt, ws, vs, Iterate(sqrt, ws, vs, x, k - 1))
  }

  /** The starting estimate: the weighted mean, or zero when there is no weight at all. */
  function Start(ws: Vec, vs: seq<Vec>, dim: nat): (x: Vec)
    requires |ws| == |vs| && Rect(vs, dim)
    ensures |x| == dim
  {
    if Total(ws) > 0.0 then Comb(Over(ws, Total(ws)), vs, dim) else Zero(dim)
  }

  /** `GeometricMedianStatistic::combine` */
  method Combine(sqrt: real -> real, ws: Vec, vs: seq<Vec>, iterations: nat) returns (estimate: Vec)
    requires IsSqrt(sqrt) && |ws| == |vs| > 0 && Rect(vs, |vs[0]|)
    ensures estimate == Iterate(sqrt, ws, vs, Start(ws, vs, |vs[0]|), iterations)
  {
    hide Comb, Over, Total, InverseDistanceWeights;
    var dim := |vs[0]|;
    estimate := Zero(dim);
    var totalWeight := SumOf(ws);
    if totalWeight > 0.0 {
      estimate := WeightedSum(Over(ws, totalWeight), vs, dim);
    }
    ghost var start := estimate;
    var k := 0;
    while k < iterations
      invariant 0 <= k <= iterations && |estimate| == dim
      invariant estimate == Iterate(sqrt, ws, vs, start, k)
    {
      var a := InverseDistanceWeights(sqrt, ws, vs, estimate);
      var weightSum := SumOf(a);
      if weightSum <= 0.0 {
        Stationary(sqrt, ws, vs, start, k, iterations);
        break;
      }
      estimate := WeightedSum(Over(a, weightSum), vs, dim);
      k := k + 1;
    }
  }

  lemma {:induction false} Stationary(sqrt: real -> real, ws: Vec, vs: seq<Vec>, x: Vec, k: nat, n: nat)
    requires IsSqrt(sqrt) && |ws| == |vs| && Rect(vs, |x|) && k <= n
    requires Total(InverseDistanceWeights(sqrt, ws, vs, Iterate(sqrt, ws, vs, x, k))) <= 0.0
    ensures Iterate(sqrt, ws, vs, x, n) == Iterate(sqrt, ws, vs, x, k)
    decreases n - k
  {
    hide Comb, Over, Total, InverseDistanceWeights;
    if k < n {
      assert Iterate(sqrt, ws, vs, x, k + 1) == Iterate(sqrt, ws, vs, x, k);
      Stationary(sqrt, ws, vs, x, k + 1, n);
    }
  }

  /** `VectorRobustAggregator<GeometricMedianStatistic>::aggregate` */
  method Aggregate(sqrt: real -> real, updates: seq<ClientDelta>, iterations: nat) returns (r: Outcome)
    requires IsSqrt(sqrt)
    ensures |updates| == 0 ==> r == Err(EmptyBatch)
    ensures |updates| > 0 && !Acceptable(updates) ==> r.Err? && r.error == DecodeAndValidate(updates).error
    ensures |updates| > 0 && Acceptable(updates) ==>
      var ws, vs := SampleCounts(updates), Decoded(updates);
      r == Ok(Iterate(sqrt, ws, vs, Start(ws, vs, Dim(updates)), iterations))
  {
    if |updates| == 0 { return Err(EmptyBatch); }
    var decoded := DecodeAndValidate(updates);
    if decoded.Err? { return Err(decoded.error); }
    var estimate := Combine(sqrt, SampleCounts(updates), decoded.value, iterations);
    r := Ok(estimate);
  }

  // ----- the smoothed objective -----

  /** φ(d) = d from EPS on, and the parabola (d²/EPS + EPS)/2 below. */
  function Phi(d: real): real {
    if d >= EPS then d else (Square(d) / EPS + EPS) / 2.0
  }

  /** Σ wᵢ·φ(‖vᵢ − x‖) over the first n updates. */
  function Objective(sqrt: real -> real, ws: Vec, vs: seq<Vec>, x: Vec, n: nat): real
    requires |ws| == |vs| && Rect(vs, |x|) && n <= |ws|
  {
    if n == 0 then 0.0
    else Objective(sqrt, ws, vs, x, n - 1) + Times(ws[n-1], Phi(Distance(sqrt, vs[n-1], x)))
  }

  /** Σ aᵢ·‖vᵢ − x‖² over the first n updates. */
  function Spread(a: Vec, vs: seq<Vec>, x: Vec, n: nat): real
    requires |a| == |vs| && Rect(vs, |x|) && n <= |a|
  {
    if n == 0 then 0.0 else Spread(a, vs, x, n - 1) + Times(a[n-1], Sq(Sub(vs[n-1], x)))
  }

  /** With h = max(d, EPS), the parabola φ(d) + (e² − d²)/(2h) lies above φ everywhere. */
  lemma Majorizes(d: real, e: real)
    requires d >= 0.0 && e >= 0.0
    ensures 2.0 * Times(Max(d, EPS), Phi(e) - Phi(d)) <= Square(e) - Square(d)
  {
    if d >= EPS {
      if e >= EPS {
        SquareSign(e - d);
        SquareOfSum(e, d);
        Distribute(e, d, d);
        Commute(e, d);
      } else {
        // 2d·φ(e) = d·(e²/EPS + EPS) ≤ d² + e² because (d − EPS)(EPS − e²/EPS) ≥ 0.
        SquareMonotone(e, EPS);
        var s := Square(e) / EPS;
        NonNegative(d - EPS, EPS - s);
        Distribute(d, EPS, EPS - s);
        Distribute(EPS, s, d);
        Distribute((s + EPS) / 2.0, d, d);
        Distribute(s, EPS, d);
        HalfFactor(d, s + EPS);
      }
    } else {
      if e >= EPS {
        SquareSign(e - EPS);
        SquareOfSum(e, EPS);
      }
    }
  }

  lemma HalfFactor(x: real, y: real)
    ensures Times(x, y / 2.0) == Times(x, y) / 2.0
  {
  }

  /** One update's share of the decrease. */
  lemma TermDecrease(w: real, h: real, p: real, q: real, a: real, se: real, sd: real)
    requires w >= 0.0 && h > 0.0 && a == w / h && 2.0 * Times(h, p - q) <= se - sd
    ensures Times(w, p) - Times(w, q) <= (Times(a, se) - Times(a, sd)) / 2.0
  {
    Divide(w, h);
    DivideNonNegative(w, h);
    Associate(a, h, p - q);
    Distribute(p, q, w);
    Distribute(se, sd, a);
    Monotone(2.0 * Times(h, p - q), se - sd, a);
    Associate(a, 2.0, Times(h, p - q));
    TwiceFactor(a, Times(h, p - q));
  }

  lemma TwiceFactor(x: real, y: real)
    ensures Times(x, 2.0 * y) == 2.0 * Times(x, y)
  {
  }

  lemma {:induction false} ObjectiveMove(sqrt: real -> real, ws: Vec, vs: seq<Vec>, x: Vec, y: Vec, n: nat)
    requires IsSqrt(sqrt) && |ws| == |vs| && |x| == |y| && Rect(vs, |x|) && n <= |ws|
    requires forall i | 0 <= i < |ws| :: ws[i] >= 0.0
    ensures var a := InverseDistanceWeights(sqrt, ws, vs, x);
      Objective(sqrt, ws, vs, y, n) - Objective(sqrt, ws, vs, x, n)
        <= (Spread(a, vs, y, n) - Spread(a, vs, x, n)) / 2.0
  {
    hide Sq, Phi, Times, Distance, Max, Sub;
    if n > 0 {
      ObjectiveMove(sqrt, ws, vs, x, y, n - 1);
      TermMove(sqrt, ws[n-1], vs[n-1], x, y);
    }
  }

  lemma TermMove(sqrt: real -> real, w: real, v: Vec, x: Vec, y: Vec)
    requires IsSqrt(sqrt) && w >= 0.0 && |v| == |x| == |y|
    ensures Max(Distance(sqrt, v, x), EPS) > 0.0
    ensures var a := w / Max(Distance(sqrt, v, x), EPS);
      Times(w, Phi(Distance(sqrt, v, y))) - Times(w, Phi(Distance(sqrt, v, x)))
        <= (Times(a, Sq(Sub(v, y))) - Times(a, Sq(Sub(v, x)))) / 2.0
  {
    SqNonNegative(Sub(v, x));
    SqNonNegative(Sub(v, y));
    var d, e := Distance(sqrt, v, x), Distance(sqrt, v, y);
    assert d >= 0.0 && e >= 0.0 && Square(d) == Sq(Sub(v, x)) && Square(e) == Sq(Sub(v, y));
    hide Sq, Phi, Times, Square, Max, Distance, IsSqrt, Sub;
    Majorizes(d, e);
    MaxPositive(d);
    TermDecrease(w, Max(d, EPS), Phi(e), Phi(d), w / Max(d, EPS), Square(e), Square(d));
  }

  lemma MaxPositive(d: real)
    ensures Max(d, EPS) >= EPS
  {
  }

  /** Steiner: Σ aᵢ‖vᵢ − x‖² = Σ aᵢ‖vᵢ − y‖² + 2⟨Σ aᵢ(vᵢ − y), y − x⟩ + (Σ aᵢ)‖y − x‖². */
  lemma {:induction false} SpreadMove(a: Vec, vs: seq<Vec>, x: Vec, y: Vec, n: nat)
    requires |a| == |vs| && |x| == |y| && Rect(vs, |x|) && n <= |a|
    ensures Spread(a, vs, x, n) == Spread(a, vs, y, n)
      + 2.0 * Dot(a[..n], Against(Offsets(vs, y), Sub(y, x))[..n]) + Times(Total(a[..n]), Sq(Sub(y, x)))
  {
    var off, d := Offsets(vs, y), Sub(y, x);
    if n > 0 {
      SpreadMove(a, vs, x, y, n - 1);
      var u := off[n-1];
      assert a[..n][..n-1] == a[..n-1];
      assert Against(off, d)[..n][..n-1] == Against(off, d)[..n-1];
      assert Sub(vs[n-1], x) == Add(u, d);
      SqAdd(u, d);
      SpreadTerm(a[n-1], Sq(u), Dot(u, d), Sq(d), Total(a[..n-1]));
    }
  }

  lemma SpreadTerm(a: real, su: real, ud: real, sd: real, t: real)
    ensures Times(a, su + 2.0 * ud + sd) == Times(a, su) + 2.0 * Times(a, ud) + Times(a, sd)
    ensures Times(t + a, sd) == Times(t, sd) + Times(a, sd)
  {
    Distribute(su + 2.0 * ud, sd, a);
    Distribute(su, 2.0 * ud, a);
    TwiceFactor(a, ud);
    Distribute(t, a, sd);
  }

  /** The weighted mean is where the weighted spread is least: anywhere else it exceeds it by the total
      weight times the squared distance. */
  lemma MeanMinimizesSpread(a: Vec, vs: seq<Vec>, x: Vec)
    requires |a| == |vs| && Rect(vs, |x|) && Total(a) > 0.0
    ensures var y := Comb(Over(a, Total(a)), vs, |x|);
      && Spread(a, vs, x, |a|) == Spread(a, vs, y, |a|) + Times(Total(a), Sq(Sub(y, x)))
      && Spread(a, vs, y, |a|) <= Spread(a, vs, x, |a|)
  {
    hide Times, Comb, Total, Dot, Sq, Spread, Over, Offsets, Against, Sub;
    var t := Total(a);
    var y := Comb(Over(a, t), vs, |x|);
    var d := Sub(y, x);
    SpreadMove(a, vs, x, y, |a|);
    assert a[..|a|] == a && Against(Offsets(vs, y), d)[..|a|] == Against(Offsets(vs, y), d);
    CombDot(a, Offsets(vs, y), d);
    OffsetsCancel(a, vs, |x|);
    DotZero(d);
    SqNonNegative(d);
    NonNegative(t, Sq(d));
  }

  /** About their weighted mean y the offsets cancel: Σ aᵢ(vᵢ − y) = Σ aᵢvᵢ − (Σ aᵢ)·y = 0. */
  lemma OffsetsCancel(a: Vec, vs: seq<Vec>, dim: nat)
    requires |a| == |vs| && Rect(vs, dim) && Total(a) > 0.0
    ensures Comb(a, Offsets(vs, Comb(Over(a, Total(a)), vs, dim)), dim) == Zero(dim)
  {
    var t := Total(a);
    var s := Over(a, t);
    var y := Comb(s, vs, dim);
    CombOffsets(a, vs, y);
    assert Scale(t, s) == a by {
      forall i | 0 <= i < |a| ensures Times(t, a[i] / t) == a[i] {
        Divide(a[i], t);
      }
    }
    CombScale(t, s, vs, dim);
    hide Times, Comb, Total;
  }

  predicate NonNegativeWeights(ws: Vec) {
    forall i | 0 <= i < |ws| :: ws[i] >= 0.0
  }

  /** With some positive weight the loop never stops early. */
  lemma WeightsStayPositive(sqrt: real -> real, ws: Vec, vs: seq<Vec>, x: Vec)
    requires IsSqrt(sqrt) && |ws| == |vs| && Rect(vs, |x|) && NonNegativeWeights(ws)
    ensures var a := InverseDistanceWeights(sqrt, ws, vs, x);
      && NonNegativeWeights(a)
      && (forall i | 0 <= i < |a| :: a[i] > 0.0 <==> ws[i] > 0.0)
      && (Total(a) > 0.0 <==> Total(ws) > 0.0)
  {
    var a := InverseDistanceWeights(sqrt, ws, vs, x);
    forall i | 0 <= i < |a| ensures a[i] >= 0.0 && (a[i] > 0.0 <==> ws[i] > 0.0) {
      MaxPositive(Distance(sqrt, vs[i], x));
      DivideNonNegative(ws[i], Max(Distance(sqrt, vs[i], x), EPS));
    }
    TotalNonNegative(a);
    TotalNonNegative(ws);
    TotalZero(a);
    TotalZero(ws);
  }

  /** The step solves its own weighted least squares: a_i·max(‖v_i − x‖, EPS) is the weight of update i, and the
      total of the a_i times the new point is Σ a_i·v_i, coordinate by coordinate. */
  lemma StepIs(sqrt: real -> real, ws: Vec, vs: seq<Vec>, x: Vec) returns (a: Vec)
    requires IsSqrt(sqrt) && |ws| == |vs| && Rect(vs, |x|) && NonNegativeWeights(ws)
    ensures |a| == |ws| && forall i | 0 <= i < |a| :: Times(a[i], Max(Distance(sqrt, vs[i], x), EPS)) == ws[i]
    ensures Total(a) > 0.0 <==> Total(ws) > 0.0
    ensures var y := Step(sqrt, ws, vs, x);
      if Total(a) > 0.0 then IsWeightedPoint(a, vs, y) else y == x
  {
    a := InverseDistanceWeights(sqrt, ws, vs, x);
    WeightsStayPositive(sqrt, ws, vs, x);
    forall i | 0 <= i < |a| ensures Times(a[i], Max(Distance(sqrt, vs[i], x), EPS)) == ws[i] {
      MaxPositive(Distance(sqrt, vs[i], x));
      Divide(ws[i], Max(Distance(sqrt, vs[i], x), EPS));
    }
    if Total(a) > 0.0 { WeightedPoint(a, vs, |x|); }
  }

  /** Total(c) times each coordinate of y is Σ c_i times that coordinate of v_i. */
  ghost predicate IsWeightedPoint(c: Vec, vs: seq<Vec>, y: Vec)
    requires |c| == |vs| && Rect(vs, |y|)
  {
    forall j | 0 <= j < |y| :: Times(Total(c), y[j]) == Total(Products(c, Coordinate(vs, |y|, j)))
  }

  lemma WeightedPoint(c: Vec, vs: seq<Vec>, dim: nat)
    requires |c| == |vs| && Rect(vs, dim) && Total(c) != 0.0
    ensures IsWeightedPoint(c, vs, Comb(Over(c, Total(c)), vs, dim))
  {
    var t, s := Total(c), Over(c, Total(c));
    OverIsScale(c, t);
    CombScale(t, s, vs, dim);
    hide Total, Over, Comb, Times, Products;
    forall j | 0 <= j < dim ensures Times(t, Comb(s, vs, dim)[j]) == Total(Products(c, Coordinate(vs, dim, j))) {
      CombAt(c, vs, dim, j);
      assert Scale(t, Comb(s, vs, dim))[j] == Times(t, Comb(s, vs, dim)[j]);
    }
  }

  /** The iteration starts from the weighted mean, or from zero when there is no weight; and each iterate is the
      step from the one before. */
  lemma StartIs(sqrt: real -> real, ws: Vec, vs: seq<Vec>, dim: nat, k: nat)
    requires IsSqrt(sqrt) && |ws| == |vs| && Rect(vs, dim) && NonNegativeWeights(ws)
    ensures var x := Start(ws, vs, dim);
      && (if Total(ws) > 0.0 then IsWeightedPoint(ws, vs, x) else x == Zero(dim))
      && Iterate(sqrt, ws, vs, x, 0) == x
      && Iterate(sqrt, ws, vs, x, k + 1) == Step(sqrt, ws, vs, Iterate(sqrt, ws, vs, x, k))
  {
    if Total(ws) > 0.0 { WeightedPoint(ws, vs, dim); }
  }

  /** Each Weiszfeld step lowers the smoothed objective by at least half its squared length times the
      total of the inverse-distance weights: strictly, unless it does not move. */
  lemma StepDescends(sqrt: real -> real, ws: Vec, vs: seq<Vec>, x: Vec)
    requires IsSqrt(sqrt) && |ws| == |vs| && Rect(vs, |x|) && NonNegativeWeights(ws)
    ensures var y, t := Step(sqrt, ws, vs, x), Total(InverseDistanceWeights(sqrt, ws, vs, x));
      var drop := Objective(sqrt, ws, vs, x, |ws|) - Objective(sqrt, ws, vs, y, |ws|);
      && 2.0 * drop >= Times(t, Sq(Sub(y, x))) >= 0.0
      && (y != x ==> t > 0.0 && drop > 0.0)
  {
    hide Objective, Spread, InverseDistanceWeights, Comb, Over, Total, Times, Sq;
    var a := InverseDistanceWeights(sqrt, ws, vs, x);
    var y := Step(sqrt, ws, vs, x);
    if Total(a) > 0.0 {
      ObjectiveMove(sqrt, ws, vs, x, y, |ws|);
      MeanMinimizesSpread(a, vs, x);
      Moved(Total(a), y, x);
    } else {
      NotMoved(Total(a), x);
    }
  }

  lemma Moved(t: real, y: Vec, x: Vec)
    requires t > 0.0 && |x| == |y|
    ensures Times(t, Sq(Sub(y, x))) >= 0.0 && (y != x ==> Times(t, Sq(Sub(y, x))) > 0.0)
  {
    SqNonNegative(Sub(y, x));
    SignOfFactor(t, Sq(Sub(y, x)));
    if Sq(Sub(y, x)) == 0.0 {
      forall i | 0 <= i < |x| ensures y[i] == x[i] {
        assert Sub(y, x)[i] == 0.0;
      }
    }
  }

  lemma NotMoved(t: real, x: Vec)
    ensures Times(t, Sq(Sub(x, x))) == 0.0
  {
    assert Sub(x, x) == Zero(|x|);
    DotZero(Zero(|x|));
  }

  /** Over any number of iterations the objective only goes down. */
  lemma {:induction false} IterationDescends(sqrt: real -> real, ws: Vec, vs: seq<Vec>, x: Vec, k: nat, m: nat)
    requires IsSqrt(sqrt) && |ws| == |vs| && Rect(vs, |x|) && NonNegativeWeights(ws) && k <= m
    ensures Objective(sqrt, ws, vs, Iterate(sqrt, ws, vs, x, m), |ws|)
         <= Objective(sqrt, ws, vs, Iterate(sqrt, ws, vs, x, k), |ws|)
    decreases m
  {
    hide Objective, Step;
    if k < m {
      IterationDescends(sqrt, ws, vs, x, k, m - 1);
      StepDescends(sqrt, ws, vs, Iterate(sqrt, ws, vs, x, m - 1));
    }
  }

  /** Every iterate, the first included, lies coordinate by coordinate within the range of the
      updates that carry weight. */
  lemma {:induction false} IteratesStayInRange(sqrt: real -> real, ws: Vec, vs: seq<Vec>, dim: nat, k: nat, j: nat,
        lo: real, hi: real)
    requires IsSqrt(sqrt) && |ws| == |vs| && Rect(vs, dim) && NonNegativeWeights(ws)
    requires Total(ws) > 0.0 && j < dim
    requires forall i | 0 <= i < |ws| && ws[i] > 0.0 :: lo <= vs[i][j] <= hi
    ensures lo <= Iterate(sqrt, ws, vs, Start(ws, vs, dim), k)[j] <= hi
  {
    var weights := if k == 0 then ws
                   else InverseDistanceWeights(sqrt, ws, vs, Iterate(sqrt, ws, vs, Start(ws, vs, dim), k - 1));
    if k > 0 { WeightsStayPositive(sqrt, ws, vs, Iterate(sqrt, ws, vs, Start(ws, vs, dim), k - 1)); }
    NormalizeIsConvex(weights);
    CombRange(Over(weights, Total(weights)), vs, dim, j, lo, hi);
  }

  /** With no weight at all the answer is the zero vector, whatever was submitted. */
  lemma {:induction false} NoWeightGivesZero(sqrt: real -> real, ws: Vec, vs: seq<Vec>, dim: nat, k: nat)
    requires IsSqrt(sqrt) && |ws| == |vs| && Rect(vs, dim) && NonNegativeWeights(ws) && Total(ws) <= 0.0
    ensures Iterate(sqrt, ws, vs, Start(ws, vs, dim), k) == Zero(dim)
  {
    if k > 0 {
      NoWeightGivesZero(sqrt, ws, vs, dim, k - 1);
      WeightsStayPositive(sqrt, ws, vs, Zero(dim));
    }
  }
}
