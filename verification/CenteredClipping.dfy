// Centered Clipping (temporal.rs): each client's deviation from a running reference is clipped to
// a radius τ. How much any group of clients can influence a round, and how far rounds can drift.
module CenteredClipping {
  import opened Reals
  import opened Vectors
  import opened Wrappers
  import opened Updates

  /** `min(1, τ/‖u − v‖)`, and 1 at distance zero. */
  function ClipScale(sqrt: real -> real, tau: real, u: Vec, v: Vec): real
    requires |u| == |v|
  {
    var distance := sqrt(Sq(Sub(u, v)));
    if distance > 0.0 then Min(tau / distance, 1.0) else 1.0
  }

  function ClipScales(sqrt: real -> real, tau: real, vs: seq<Vec>, v: Vec): (c: Vec)
    requires Rect(vs, |v|)
    ensures |c| == |vs|
  {
    seq(|vs|, i requires 0 <= i < |vs| => ClipScale(sqrt, tau, vs[i], v))
  }

  /** Σ clipped deviations. */
  function ClippedSum(sqrt: real -> real, tau: real, vs: seq<Vec>, v: Vec): (s: Vec)
    requires Rect(vs, |v|)
    ensures |s| == |v|
  {
    Comb(ClipScales(sqrt, tau, vs, v), Offsets(vs, v), |v|)
  }

  /** v + (1/n)·Σ clipped deviations: the round's output and the next reference. */
  function Recentered(sqrt: real -> real, tau: real, vs: seq<Vec>, v: Vec): (next: Vec)
    requires |vs| > 0 && Rect(vs, |v|)
    ensures |next| == |v|
  {
    Add(v, Over(ClippedSum(sqrt, tau, vs, v), |vs| as real))
  }

  /** What a batch is clipped against: the stored reference, or the batch's mean on a fresh start. */
  function Center(reference: Option<Vec>, vs: seq<Vec>, dim: nat): (v: Vec)
    requires |vs| > 0 && Rect(vs, dim)
    ensures |v| == dim
  {
    if reference.Some? && |reference.value| == dim then reference.value else Mean(vs, dim)
  }

  function Round(sqrt: real -> real, tau: real, reference: Option<Vec>, updates: seq<ClientDelta>)
      : (r: (Option<Vec>, Outcome))
    ensures r.1.Err? ==> r.0 == reference
    ensures r.1.Ok? ==> r.0 == Some(r.1.value)
  {
    if |updates| == 0 then (reference, Err(EmptyBatch))
    else
      match DecodeAndValidate(updates)
      case Err(e) => (reference, Err(e))
      case Ok(vs) =>
        var next := Recentered(sqrt, tau, vs, Center(reference, vs, Dim(updates)));
        (Some(next), Ok(next))
  }

  /** A fresh start, or a changed dimension: the batch is clipped against its own mean. The answer, which is the
      new reference, is within τ of it, and is it when nobody is farther than τ away. */
  lemma FreshStart(sqrt: real -> real, tau: real, reference: Option<Vec>, updates: seq<ClientDelta>)
    requires IsSqrt(sqrt) && tau >= 0.0 && |updates| > 0 && Acceptable(updates)
    requires reference.None? || |reference.value| != Dim(updates)
    ensures var (after, answer) := Round(sqrt, tau, reference, updates);
      var vs, mean := Decoded(updates), Mean(Decoded(updates), Dim(updates));
      && answer.Ok? && after == Some(answer.value) && |answer.value| == Dim(updates)
      && Within(Sub(answer.value, mean), tau)
      && ((forall i | 0 <= i < |vs| :: Within(Sub(vs[i], mean), tau)) ==> answer.value == mean)
  {
    hide Mean, Within, Recentered, Decoded;
    var vs, mean := Decoded(updates), Mean(Decoded(updates), Dim(updates));
    RoundMovesAtMostTau(sqrt, tau, vs, mean);
    if forall i | 0 <= i < |vs| :: Within(Sub(vs[i], mean), tau) { UnclippedIsMean(sqrt, tau, vs, mean); }
  }

  /** The answer, coordinate by coordinate: n times its distance from the reference is the sum of the clipped
      deviations, each the client's own deviation shortened to τ if it is longer. */
  lemma RoundIsClippedMean(sqrt: real -> real, tau: real, v: Vec, updates: seq<ClientDelta>, j: nat)
    requires IsSqrt(sqrt) && tau >= 0.0 && |updates| > 0 && Acceptable(updates) && Dim(updates) == |v| && j < |v|
    ensures var (after, answer) := Round(sqrt, tau, Some(v), updates);
      var vs := Decoded(updates);
      && answer.Ok? && after == Some(answer.value) && |answer.value| == |v|
      && Times(|vs| as real, answer.value[j] - v[j])
         == Total(Products(ClipScales(sqrt, tau, vs, v), Coordinate(Offsets(vs, v), |v|, j)))
  {
    hide ClipScales, Acceptable, Decoded, Total, Products;
    var vs := Decoded(updates);
    CombAt(ClipScales(sqrt, tau, vs, v), Offsets(vs, v), |v|, j);
    Divide(ClippedSum(sqrt, tau, vs, v)[j], |vs| as real);
  }

  /** The scale leaves a deviation within τ alone, and gives a longer one length τ. */
  lemma ClipScaleIs(sqrt: real -> real, tau: real, u: Vec, v: Vec)
    requires IsSqrt(sqrt) && tau >= 0.0 && |u| == |v|
    ensures var d, s := Sub(u, v), ClipScale(sqrt, tau, u, v);
      && (Within(d, tau) ==> s == 1.0)
      && (!Within(d, tau) ==> s >= 0.0 && Sq(Scale(s, d)) == Square(tau))
  {
    var d := Sub(u, v);
    if Within(d, tau) {
      NearIsUnscaled(sqrt, tau, u, v);
    } else {
      SqNonNegative(d);
      var distance := sqrt(Sq(d));
      assert Square(distance) == Sq(d);
      if distance <= tau { SquareMonotone(distance, tau); }
      DivideBound(tau, distance, 1.0);
      OneTimes(distance);
      DivideNonNegative(tau, distance);
      Divide(tau, distance);
      SqScale(tau / distance, d);
      SquareOfProduct(tau / distance, distance);
    }
  }

  class CenteredClippingAggregator {
    const clipRadius: real
    var reference: Option<Vec>

    constructor (clipRadius: real)
      ensures this.clipRadius == clipRadius && reference.None?
    {
      this.clipRadius := clipRadius;
      reference := None;
    }

    /** `aggregate` */
    method Aggregate(sqrt: real -> real, updates: seq<ClientDelta>) returns (r: Outcome)
      modifies this
      ensures (reference, r) == Round(sqrt, clipRadius, old(reference), updates)
    {
      hide Comb, ClipScale;
      if |updates| == 0 { return Err(EmptyBatch); }
      var decoded := DecodeAndValidate(updates);
      if decoded.Err? { return Err(decoded.error); }
      var vs, dim := decoded.value, Dim(updates);
      var v: Vec;
      if reference.Some? && |reference.value| == dim {
        v := reference.value;
      } else {
        v := WeightedSum(EqualShares(|vs|), vs, dim);
      }
      var sum := SumClipped(sqrt, clipRadius, vs, v);
      var next := Add(v, Over(sum, |vs| as real));
      reference := Some(next);
      r := Ok(next);
    }
  }

  /** The loop over clients: one distance, one scale and one accumulation each. */
  method SumClipped(sqrt: real -> real, tau: real, vs: seq<Vec>, v: Vec) returns (sum: Vec)
    requires Rect(vs, |v|)
    ensures sum == ClippedSum(sqrt, tau, vs, v)
  {
    hide ClipScale, Scale, Add;
    var acc := new real[|v|](_ => 0.0);
    assert acc[..] == Zero(|v|);
    ghost var scales, offsets := ClipScales(sqrt, tau, vs, v), Offsets(vs, v);
    for k := 0 to |vs|
      invariant acc[..] == Comb(scales[..k], offsets[..k], |v|)
    {
      var scale := ClipScale(sqrt, tau, vs[k], v);
      AccumulateScaledDifference(acc, vs[k], v, scale);
      CombPrefix(scales, offsets, |v|, k);
    }
    assert scales[..|vs|] == scales && offsets[..|vs|] == offsets;
    sum := acc[..];
  }

  // ----- the clipping bound -----

  /** A clipped deviation has norm at most τ. */
  lemma ClippedWithin(sqrt: real -> real, tau: real, u: Vec, v: Vec)
    requires IsSqrt(sqrt) && tau >= 0.0 && |u| == |v|
    ensures ClipScale(sqrt, tau, u, v) >= 0.0
    ensures Within(Scale(ClipScale(sqrt, tau, u, v), Sub(u, v)), tau)
  {
    var d := Sub(u, v);
    SqNonNegative(d);
    var distance := sqrt(Sq(d));
    var scale := ClipScale(sqrt, tau, u, v);
    assert Square(distance) == Sq(d);
    SqScale(scale, d);
    if distance > 0.0 {
      DivideNonNegative(tau, distance);
      Divide(tau, distance);
      // scale·‖d‖ ≤ (τ/‖d‖)·‖d‖ = τ
      Monotone(scale, tau / distance, distance);
      NonNegative(scale, distance);
      SquareMonotone(Times(scale, distance), tau);
      SquareOfProduct(scale, distance);
    } else {
      SquareSign(distance);
      SquareSign(tau);
      assert Times(Square(scale), 0.0) == 0.0;
    }
  }

  lemma OverWithin(v: Vec, n: real, r: real)
    requires n > 0.0 && Within(v, r)
    ensures Within(Over(v, n), r / n)
  {
    OverIsScale(v, n);
    DivideNonNegative(1.0, n);
    WithinScale(1.0 / n, v, r);
    QuotientAsProduct(r, n);
  }

  predicate TermsBounded(c: Vec, ds: seq<Vec>, tau: real)
    requires |c| == |ds|
  {
    forall k | 0 <= k < |c| :: Within(Scale(c[k], ds[k]), tau)
  }

  /** Every term within τ puts the sum of n terms within n·τ. */
  lemma {:induction false} SumWithin(c: Vec, ds: seq<Vec>, dim: nat, tau: real, n: nat)
    requires |c| == |ds| && Rect(ds, dim) && tau >= 0.0 && n <= |c|
    requires TermsBounded(c, ds, tau)
    ensures Within(Comb(c[..n], ds[..n], dim), Times(n as real, tau))
  {
    if n == 0 {
      WithinZero(dim, 0.0);
      assert Times(0.0, tau) == 0.0;
    } else {
      var k := n - 1;
      SumWithin(c, ds, dim, tau, k);
      assert c[..n][..k] == c[..k] && ds[..n][..k] == ds[..k];
      WithinAdd(Comb(c[..k], ds[..k], dim), Times(k as real, tau), Scale(c[k], ds[k]), tau);
      Distribute(k as real, 1.0, tau);
      OneTimes(tau);
    }
  }

  lemma TermsWithin(sqrt: real -> real, tau: real, vs: seq<Vec>, v: Vec)
    requires IsSqrt(sqrt) && tau >= 0.0 && Rect(vs, |v|)
    ensures TermsBounded(ClipScales(sqrt, tau, vs, v), Offsets(vs, v), tau)
  {
    forall k | 0 <= k < |vs|
      ensures Within(Scale(ClipScales(sqrt, tau, vs, v)[k], Offsets(vs, v)[k]), tau)
    {
      ClippedWithin(sqrt, tau, vs[k], v);
    }
  }

  // ----- drift -----

  /** One round moves the reference by at most τ. */
  lemma RoundMovesAtMostTau(sqrt: real -> real, tau: real, vs: seq<Vec>, v: Vec)
    requires IsSqrt(sqrt) && tau >= 0.0 && |vs| > 0 && Rect(vs, |v|)
    ensures Within(Sub(Recentered(sqrt, tau, vs, v), v), tau)
  {
    var n := |vs| as real;
    var c, ds := ClipScales(sqrt, tau, vs, v), Offsets(vs, v);
    TermsWithin(sqrt, tau, vs, v);
    SumWithin(c, ds, |v|, tau, |vs|);
    assert c[..|vs|] == c && ds[..|vs|] == ds;
    var s := ClippedSum(sqrt, tau, vs, v);
    OverWithin(s, n, Times(n, tau));
    Commute(n, tau);
    DivideUnique(Times(n, tau), n, tau);
    assert Sub(Add(v, Over(s, n)), v) == Over(s, n);
  }

  /** The reference after a sequence of batches, each accepted or rejected. */
  function Run(sqrt: real -> real, tau: real, reference: Option<Vec>, batches: seq<seq<ClientDelta>>): Option<Vec> {
    if |batches| == 0 then reference
    else Round(sqrt, tau, Run(sqrt, tau, reference, batches[..|batches|-1]), batches[|batches|-1]).0
  }

  /** Any batch of the reference's dimension, accepted or rejected, moves it by at most τ. */
  lemma RoundDrift(sqrt: real -> real, tau: real, v: Vec, batch: seq<ClientDelta>)
    requires IsSqrt(sqrt) && tau >= 0.0
    requires |batch| > 0 && Acceptable(batch) ==> Dim(batch) == |v|
    ensures var after := Round(sqrt, tau, Some(v), batch).0;
      after.Some? && |after.value| == |v| && Within(Sub(after.value, v), tau)
  {
    if |batch| > 0 && Acceptable(batch) {
      RoundMovesAtMostTau(sqrt, tau, Decoded(batch), v);
    } else {
      assert Sub(v, v) == Zero(|v|);
      WithinZero(|v|, tau);
    }
  }

  /** k batches of one dimension move the reference by at most k·τ. */
  lemma {:induction false} RunDrift(sqrt: real -> real, tau: real, v: Vec, batches: seq<seq<ClientDelta>>)
    requires IsSqrt(sqrt) && tau >= 0.0
    requires forall k | 0 <= k < |batches| && |batches[k]| > 0 && Acceptable(batches[k]) :: Dim(batches[k]) == |v|
    ensures var end := Run(sqrt, tau, Some(v), batches);
      end.Some? && |end.value| == |v| && Within(Sub(end.value, v), Times(|batches| as real, tau))
  {
    if |batches| == 0 {
      NoDrift(v, tau);
    } else {
      hide Round, Times, Within, Acceptable, Sub;
      var k := |batches| - 1;
      RunDrift(sqrt, tau, v, batches[..k]);
      var before := Run(sqrt, tau, Some(v), batches[..k]).value;
      RoundDrift(sqrt, tau, before, batches[k]);
      DriftStep(v, before, Run(sqrt, tau, Some(v), batches).value, k, tau);
    }
  }

  lemma NoDrift(v: Vec, tau: real)
    ensures Within(Sub(v, v), Times(0 as real, tau))
  {
    assert Sub(v, v) == Zero(|v|);
    WithinZero(|v|, 0.0);
    assert Times(0.0, tau) == 0.0;
  }

  lemma DriftStep(v: Vec, before: Vec, after: Vec, k: nat, tau: real)
    requires |v| == |before| == |after|
    requires Within(Sub(before, v), Times(k as real, tau)) && Within(Sub(after, before), tau)
    ensures Within(Sub(after, v), Times((k + 1) as real, tau))
  {
    WithinAdd(Sub(after, before), tau, Sub(before, v), Times(k as real, tau));
    assert Add(Sub(after, before), Sub(before, v)) == Sub(after, v);
    Distribute(k as real, 1.0, tau);
    OneTimes(tau);
  }

  // ----- influence -----

  /** The batches agree everywhere outside `changed`. */
  predicate AgreeOutside(us: seq<Vec>, vs: seq<Vec>, changed: set<nat>) {
    |us| == |vs| && forall i: nat | i < |us| && i !in changed :: us[i] == vs[i]
  }

  lemma {:induction false} SumsClose(c: Vec, ds: seq<Vec>, c': Vec, ds': seq<Vec>, dim: nat, tau: real, n: nat,
        changed: set<nat>)
    requires |c| == |ds| == |c'| == |ds'| && Rect(ds, dim) && Rect(ds', dim) && tau >= 0.0 && n <= |c|
    requires TermsBounded(c, ds, tau) && TermsBounded(c', ds', tau)
    requires forall k: nat | k < n && k !in changed :: c[k] == c'[k] && ds[k] == ds'[k]
    ensures Within(Sub(Comb(c[..n], ds[..n], dim), Comb(c'[..n], ds'[..n], dim)), Times(2.0 * |changed| as real, tau))
    decreases n
  {
    hide Comb, Scale, Times, Within, Sub, Add;
    if n == 0 {
      NothingApart(c[..n], ds[..n], c'[..n], ds'[..n], dim, |changed|, tau);
    } else {
      var k := n - 1;
      CombPrefix(c, ds, dim, k);
      CombPrefix(c', ds', dim, k);
      var rest := if k in changed then changed - {k} else changed;
      SumsClose(c, ds, c', ds', dim, tau, k, rest);
      CloseStep(Comb(c[..k], ds[..k], dim), Comb(c'[..k], ds'[..k], dim),
        Scale(c[k], ds[k]), Scale(c'[k], ds'[k]), |rest|, k in changed, tau);
    }
  }

  lemma NothingApart(c: Vec, ds: seq<Vec>, c': Vec, ds': seq<Vec>, dim: nat, m: nat, tau: real)
    requires |c| == |ds| == |c'| == |ds'| == 0 && tau >= 0.0
    ensures Within(Sub(Comb(c, ds, dim), Comb(c', ds', dim)), Times(2.0 * m as real, tau))
  {
    assert Sub(Zero(dim), Zero(dim)) == Zero(dim);
    NonNegative(2.0 * m as real, tau);
    WithinZero(dim, Times(2.0 * m as real, tau));
  }

  /** One more term: equal on both sides, or two arbitrary terms within τ. */
  lemma CloseStep(a: Vec, b: Vec, x: Vec, y: Vec, m: nat, differ: bool, tau: real)
    requires |a| == |b| == |x| == |y| && tau >= 0.0
    requires Within(Sub(a, b), Times(2.0 * m as real, tau)) && Within(x, tau) && Within(y, tau)
    requires !differ ==> x == y
    ensures Within(Sub(Add(a, x), Add(b, y)), Times(2.0 * (if differ then m + 1 else m) as real, tau))
  {
    hide Within;
    if differ {
      WithinSub(x, tau, y, tau);
      WithinAdd(Sub(a, b), Times(2.0 * m as real, tau), Sub(x, y), tau + tau);
      assert Add(Sub(a, b), Sub(x, y)) == Sub(Add(a, x), Add(b, y));
      Distribute(2.0 * m as real, 2.0, tau);
      TwoTimes(tau);
    } else {
      assert Sub(Add(a, x), Add(b, x)) == Sub(a, b);
    }
  }

  /** From one reference, changing b of n clients moves the output by at most 2·b·τ/n. */
  lemma Influence(sqrt: real -> real, tau: real, us: seq<Vec>, vs: seq<Vec>, v: Vec, changed: set<nat>)
    requires IsSqrt(sqrt) && tau >= 0.0 && |us| > 0 && Rect(us, |v|) && Rect(vs, |v|)
    requires AgreeOutside(us, vs, changed)
    ensures Within(Sub(Recentered(sqrt, tau, us, v), Recentered(sqrt, tau, vs, v)),
      Times(2.0 * |changed| as real, tau) / |us| as real)
  {
    hide ClipScale, Comb, Within, Times;
    var n, dim := |us|, |v|;
    var c, ds := ClipScales(sqrt, tau, us, v), Offsets(us, v);
    var c', ds' := ClipScales(sqrt, tau, vs, v), Offsets(vs, v);
    TermsWithin(sqrt, tau, us, v);
    TermsWithin(sqrt, tau, vs, v);
    SumsClose(c, ds, c', ds', dim, tau, n, changed);
    assert c[..n] == c && ds[..n] == ds && c'[..n] == c' && ds'[..n] == ds';
    var s, s' := ClippedSum(sqrt, tau, us, v), ClippedSum(sqrt, tau, vs, v);
    hide ClippedSum, ClipScales, Offsets;
    OverWithin(Sub(s, s'), n as real, Times(2.0 * |changed| as real, tau));
    OverSub(s, s', n as real);
    assert Sub(Add(v, Over(s, n as real)), Add(v, Over(s', n as real))) == Sub(Over(s, n as real), Over(s', n as real));
  }

  lemma OverSub(a: Vec, b: Vec, n: real)
    requires n != 0.0 && |a| == |b|
    ensures Over(Sub(a, b), n) == Sub(Over(a, n), Over(b, n))
  {
    forall i | 0 <= i < |a| ensures (a[i] - b[i]) / n == a[i] / n - b[i] / n {
      QuotientAsProduct(a[i] - b[i], n);
      QuotientAsProduct(a[i], n);
      QuotientAsProduct(b[i], n);
      Distribute(a[i], b[i], 1.0 / n);
    }
  }

  // ----- influence over a run -----

  function Clipped(sqrt: real -> real, tau: real, u: Vec, v: Vec): (p: Vec)
    requires |u| == |v|
    ensures |p| == |v|
  {
    Scale(ClipScale(sqrt, tau, u, v), Sub(u, v))
  }

  /** Clipping projects the deviation onto the ball of radius τ: it makes an obtuse angle with every
      point of the ball. */
  lemma ClippedProjects(sqrt: real -> real, tau: real, u: Vec, v: Vec, z: Vec)
    requires IsSqrt(sqrt) && tau >= 0.0 && |u| == |v| == |z| && Within(z, tau)
    ensures var d, p := Sub(u, v), Clipped(sqrt, tau, u, v); Dot(Sub(d, p), Sub(z, p)) <= 0.0
  {
    var d, p, s := Sub(u, v), Clipped(sqrt, tau, u, v), ClipScale(sqrt, tau, u, v);
    SqNonNegative(d);
    var distance := sqrt(Sq(d));
    forall j | 0 <= j < |d| ensures d[j] - Times(s, d[j]) == Times(1.0 - s, d[j]) {
      Distribute(1.0, s, d[j]);
      OneTimes(d[j]);
    }
    assert Sub(d, p) == Scale(1.0 - s, d);
    DotScale(1.0 - s, d, Sub(z, p));
    if s == 1.0 {
      assert Times(0.0, Dot(d, Sub(z, p))) == 0.0;
    } else {
      BeyondBall(d, z, tau, distance);
      hide Dot, Sub, Scale, Times;
      assert p == Scale(tau / distance, d);
      Monotone(Dot(d, Sub(z, p)), 0.0, 1.0 - s);
      ZeroTimes(1.0 - s);
    }
  }

  lemma BeyondBall(d: Vec, z: Vec, tau: real, distance: real)
    requires |d| == |z| && Within(z, tau) && distance > 0.0 && Square(distance) == Sq(d)
    ensures Dot(d, Sub(z, Scale(tau / distance, d))) <= 0.0
  {
    var s := tau / distance;
    var p := Scale(s, d);
    DotSub(z, p, d);
    DotScale(s, d, d);
    Associate(s, distance, distance);
    Divide(tau, distance);
    CauchySchwarz(d, z);
    SqNonNegative(d);
    SqNonNegative(z);
    ProductBound(Dot(d, z), Sq(d), Sq(z), distance, tau);
    Commute(distance, tau);
    hide Times, Dot, Sub, Scale;
    assert Dot(d, p) == Times(s, Sq(d)) == Times(tau, distance);
  }

  /** Moving the reference moves each client's recentered update no further. */
  lemma ShiftShrinks(sqrt: real -> real, tau: real, u: Vec, v: Vec, v': Vec, r: real)
    requires IsSqrt(sqrt) && tau >= 0.0 && |u| == |v| == |v'| && Within(Sub(v, v'), r)
    ensures Within(Add(Sub(v, v'), Sub(Clipped(sqrt, tau, u, v), Clipped(sqrt, tau, u, v'))), r)
  {
    var p, p' := Clipped(sqrt, tau, u, v), Clipped(sqrt, tau, u, v');
    ClippedWithin(sqrt, tau, u, v);
    ClippedWithin(sqrt, tau, u, v');
    ClippedProjects(sqrt, tau, u, v, p');
    ClippedProjects(sqrt, tau, u, v', p);
    hide Clipped, ClipScale;
    TwoProjections(Sub(u, v), Sub(u, v'), p, p');
    var w, e := Sub(v, v'), Sub(p, p');
    assert Sub(Sub(u, v), Sub(u, v')) == Scale(-1.0, w);
    DotScale(-1.0, w, e);
    Negate(1.0, Dot(w, e));
    OneTimes(Dot(w, e));
    SqAdd(w, e);
    SqNonNegative(e);
    hide Dot, Add, Sub, Scale, Times;
  }

  /** ‖p − p'‖² ≤ ⟨d − d', p − p'⟩ for two points and their projections. */
  lemma TwoProjections(d: Vec, d': Vec, p: Vec, p': Vec)
    requires |d| == |d'| == |p| == |p'|
    requires Dot(Sub(d, p), Sub(p', p)) <= 0.0 && Dot(Sub(d', p'), Sub(p, p')) <= 0.0
    ensures Sq(Sub(p, p')) <= Dot(Sub(d, d'), Sub(p, p'))
  {
    var e := Sub(p, p');
    assert Sub(p', p) == Scale(-1.0, e);
    DotScale(-1.0, e, Sub(d, p));
    Negate(1.0, Dot(Sub(d, p), e));
    OneTimes(Dot(Sub(d, p), e));
    assert Sub(Sub(d, p), Sub(d', p')) == Sub(Sub(d, d'), e);
    DotSub(Sub(d, p), Sub(d', p'), e);
    DotSub(Sub(d, d'), e, e);
    hide Dot, Sub, Scale, Times;
  }

  /** n·(v − v') and the two sums of clipped deviations stay within n·r of each other. */
  lemma {:induction false} ShiftedSums(sqrt: real -> real, tau: real, vs: seq<Vec>, v: Vec, v': Vec, r: real, n: nat)
    requires IsSqrt(sqrt) && tau >= 0.0 && |v| == |v'| && Rect(vs, |v|) && n <= |vs| && Within(Sub(v, v'), r)
    ensures var c, ds, c', ds' :=
        ClipScales(sqrt, tau, vs, v), Offsets(vs, v), ClipScales(sqrt, tau, vs, v'), Offsets(vs, v');
      Within(Add(Scale(n as real, Sub(v, v')), Sub(Comb(c[..n], ds[..n], |v|), Comb(c'[..n], ds'[..n], |v|))),
        Times(n as real, r))
  {
    var c, ds := ClipScales(sqrt, tau, vs, v), Offsets(vs, v);
    var c', ds' := ClipScales(sqrt, tau, vs, v'), Offsets(vs, v');
    var w := Sub(v, v');
    if n == 0 {
      assert forall x: real :: Times(0.0, x) == 0.0;
      assert Add(Scale(0.0, w), Sub(Zero(|v|), Zero(|v|))) == Zero(|v|);
      WithinZero(|v|, Times(0.0, r));
    } else {
      var k := n - 1;
      ShiftedSums(sqrt, tau, vs, v, v', r, k);
      CombPrefix(c, ds, |v|, k);
      CombPrefix(c', ds', |v|, k);
      ShiftShrinks(sqrt, tau, vs[k], v, v', r);
      assert Scale(c[k], ds[k]) == Clipped(sqrt, tau, vs[k], v);
      assert Scale(c'[k], ds'[k]) == Clipped(sqrt, tau, vs[k], v');
      hide ClipScale, Clipped, Comb, Within, ClipScales, Offsets;
      ShiftStep(w, k, Comb(c[..k], ds[..k], |v|), Comb(c'[..k], ds'[..k], |v|),
        Clipped(sqrt, tau, vs[k], v), Clipped(sqrt, tau, vs[k], v'), r);
    }
  }

  lemma ShiftStep(w: Vec, k: nat, a: Vec, a': Vec, p: Vec, p': Vec, r: real)
    requires |w| == |a| == |a'| == |p| == |p'|
    requires Within(Add(Scale(k as real, w), Sub(a, a')), Times(k as real, r)) && Within(Add(w, Sub(p, p')), r)
    ensures Within(Add(Scale((k + 1) as real, w), Sub(Add(a, p), Add(a', p'))), Times((k + 1) as real, r))
  {
    hide Within;
    WithinAdd(Add(Scale(k as real, w), Sub(a, a')), Times(k as real, r), Add(w, Sub(p, p')), r);
    forall j | 0 <= j < |w| ensures Times((k + 1) as real, w[j]) == Times(k as real, w[j]) + w[j] {
      Distribute(k as real, 1.0, w[j]);
      OneTimes(w[j]);
    }
    Distribute(k as real, 1.0, r);
    OneTimes(r);
    assert Add(Add(Scale(k as real, w), Sub(a, a')), Add(w, Sub(p, p')))
      == Add(Scale((k + 1) as real, w), Sub(Add(a, p), Add(a', p')));
  }

  /** On one batch, a round brings two references no further apart. */
  lemma RoundIsNonExpansive(sqrt: real -> real, tau: real, vs: seq<Vec>, v: Vec, v': Vec, r: real)
    requires IsSqrt(sqrt) && tau >= 0.0 && |vs| > 0 && |v| == |v'| && Rect(vs, |v|) && Within(Sub(v, v'), r)
    ensures Within(Sub(Recentered(sqrt, tau, vs, v), Recentered(sqrt, tau, vs, v')), r)
  {
    var n, w := |vs|, Sub(v, v');
    var c, ds := ClipScales(sqrt, tau, vs, v), Offsets(vs, v);
    var c', ds' := ClipScales(sqrt, tau, vs, v'), Offsets(vs, v');
    ShiftedSums(sqrt, tau, vs, v, v', r, n);
    assert c[..n] == c && ds[..n] == ds && c'[..n] == c' && ds'[..n] == ds';
    var s, s' := ClippedSum(sqrt, tau, vs, v), ClippedSum(sqrt, tau, vs, v');
    hide ClippedSum, ClipScales, Offsets, Within;
    var total := Add(Scale(n as real, w), Sub(s, s'));
    OverWithin(total, n as real, Times(n as real, r));
    Commute(n as real, r);
    DivideUnique(Times(n as real, r), n as real, r);
    ShiftedMeans(v, v', s, s', n as real);
  }

  lemma ShiftedMeans(v: Vec, v': Vec, s: Vec, s': Vec, n: real)
    requires n != 0.0 && |v| == |v'| == |s| == |s'|
    ensures Over(Add(Scale(n, Sub(v, v')), Sub(s, s')), n) == Sub(Add(v, Over(s, n)), Add(v', Over(s', n)))
  {
    forall j | 0 <= j < |v|
      ensures (Times(n, v[j] - v'[j]) + (s[j] - s'[j])) / n == (v[j] + s[j] / n) - (v'[j] + s'[j] / n)
    {
      Commute(n, v[j] - v'[j]);
      QuotientOfSum(v[j] - v'[j], s[j], s'[j], n);
    }
  }

  lemma QuotientOfSum(w: real, s: real, s': real, n: real)
    requires n != 0.0
    ensures (Times(w, n) + (s - s')) / n == w + (s / n - s' / n)
  {
    Divide(s, n);
    Divide(s', n);
    Distribute(s / n, s' / n, n);
    Distribute(w, s / n - s' / n, n);
    DivideUnique(Times(w, n) + (s - s'), n, w + (s / n - s' / n));
  }

  /** A batch the aggregator takes. */
  predicate Taken(batch: seq<ClientDelta>) {
    |batch| > 0 && Acceptable(batch)
  }

  /** The clients whose updates differ. */
  function Changed(us: seq<Vec>, vs: seq<Vec>): set<nat> {
    set i: nat | i < |us| && i < |vs| && us[i] != vs[i]
  }

  /** What one round can add to the distance between two runs: 2·b·τ/n when both take n updates that
      differ in b; 2·τ when they take different numbers; τ when only one batch is taken. */
  function Allowance(tau: real, batch: seq<ClientDelta>, batch': seq<ClientDelta>): real {
    if Taken(batch) && Taken(batch') then
      if |batch| == |batch'|
      then Times(2.0 * |Changed(Decoded(batch), Decoded(batch'))| as real, tau) / |batch| as real
      else tau + tau
    else if Taken(batch) || Taken(batch') then tau
    else 0.0
  }

  function Allowances(tau: real, batches: seq<seq<ClientDelta>>, batches': seq<seq<ClientDelta>>): real
    requires |batches| == |batches'|
  {
    if |batches| == 0 then 0.0
    else
      var k := |batches| - 1;
      Allowances(tau, batches[..k], batches'[..k]) + Allowance(tau, batches[k], batches'[k])
  }

  lemma ReferencesStayClose(sqrt: real -> real, tau: real, v: Vec, v': Vec, batch: seq<ClientDelta>,
        batch': seq<ClientDelta>, r: real)
    requires IsSqrt(sqrt) && tau >= 0.0 && |v| == |v'| && Within(Sub(v, v'), r)
    requires (Taken(batch) ==> Dim(batch) == |v|) && (Taken(batch') ==> Dim(batch') == |v|)
    ensures var a, a' := Round(sqrt, tau, Some(v), batch).0, Round(sqrt, tau, Some(v'), batch').0;
      && a.Some? && a'.Some? && |a.value| == |a'.value| == |v|
      && Within(Sub(a.value, a'.value), r + Allowance(tau, batch, batch'))
  {
    hide Recentered, Within, Acceptable, Changed, Sub;
    RoundDrift(sqrt, tau, v, batch);
    RoundDrift(sqrt, tau, v', batch');
    var a, a' := Round(sqrt, tau, Some(v), batch).0.value, Round(sqrt, tau, Some(v'), batch').0.value;
    if Taken(batch) && Taken(batch') && |batch| == |batch'| {
      var us, vs := Decoded(batch), Decoded(batch');
      RoundIsNonExpansive(sqrt, tau, us, v, v', r);
      ChangedAgree(us, vs);
      Influence(sqrt, tau, us, vs, v', Changed(us, vs));
      var middle := Recentered(sqrt, tau, us, v');
      Between(a, middle, a', r, Allowance(tau, batch, batch'));
    } else if Taken(batch) && Taken(batch') {
      Between(a, v, v', tau, r);
      Apart(a', v', tau);
      Between(a, v', a', tau + r, tau);
    } else if Taken(batch) {
      Between(a, v, v', tau, r);
    } else if Taken(batch') {
      Apart(a', v', tau);
      Between(v, v', a', r, tau);
    }
  }

  lemma ChangedAgree(us: seq<Vec>, vs: seq<Vec>)
    requires |us| == |vs|
    ensures AgreeOutside(us, vs, Changed(us, vs))
  {
  }

  lemma Apart(a: Vec, b: Vec, r: real)
    requires |a| == |b| && Within(Sub(a, b), r)
    ensures Within(Sub(b, a), r)
  {
    SqSubComm(a, b);
  }

  lemma Between(a: Vec, m: Vec, b: Vec, r: real, q: real)
    requires |a| == |m| == |b| && Within(Sub(a, m), r) && Within(Sub(m, b), q)
    ensures Within(Sub(a, b), r + q)
  {
    WithinAdd(Sub(a, m), r, Sub(m, b), q);
    assert Add(Sub(a, m), Sub(m, b)) == Sub(a, b);
  }

  /** Every batch that is taken has the dimension of the reference. */
  predicate Matching(batches: seq<seq<ClientDelta>>, dim: nat) {
    forall k | 0 <= k < |batches| && Taken(batches[k]) :: Dim(batches[k]) == dim
  }

  /** Two runs from one reference end no further apart than their rounds allow, whatever the batches. */
  lemma {:induction false} RunInfluence(sqrt: real -> real, tau: real, v: Vec, batches: seq<seq<ClientDelta>>,
        batches': seq<seq<ClientDelta>>)
    requires IsSqrt(sqrt) && tau >= 0.0 && |batches| == |batches'|
    requires Matching(batches, |v|) && Matching(batches', |v|)
    ensures var a, a' := Run(sqrt, tau, Some(v), batches), Run(sqrt, tau, Some(v), batches');
      && a.Some? && a'.Some? && |a.value| == |a'.value| == |v|
      && Within(Sub(a.value, a'.value), Allowances(tau, batches, batches'))
    decreases |batches|
  {
    hide Round, Within, Taken, Allowance, Sub, Run, Recentered, Mean, Acceptable, IsSqrt, Allowances, Matching;
    if |batches| == 0 {
      NoRounds(sqrt, tau, v);
      assert batches == [] && batches' == [];
    } else {
      var k := |batches| - 1;
      RunEnds(sqrt, tau, Some(v), batches);
      RunEnds(sqrt, tau, Some(v), batches');
      MatchingEnds(batches, |v|);
      MatchingEnds(batches', |v|);
      AllowancesEnd(tau, batches, batches');
      RunInfluence(sqrt, tau, v, batches[..k], batches'[..k]);
      var a, a' := Run(sqrt, tau, Some(v), batches[..k]).value, Run(sqrt, tau, Some(v), batches'[..k]).value;
      ReferencesStayClose(sqrt, tau, a, a', batches[k], batches'[k], Allowances(tau, batches[..k], batches'[..k]));
    }
  }

  lemma NoRounds(sqrt: real -> real, tau: real, v: Vec)
    ensures Run(sqrt, tau, Some(v), []) == Some(v) && Within(Sub(v, v), Allowances(tau, [], []))
  {
    assert Sub(v, v) == Zero(|v|);
    WithinZero(|v|, 0.0);
  }

  lemma MatchingEnds(batches: seq<seq<ClientDelta>>, dim: nat)
    requires |batches| > 0 && Matching(batches, dim)
    ensures Matching(batches[..|batches|-1], dim)
    ensures Taken(batches[|batches|-1]) ==> Dim(batches[|batches|-1]) == dim
  {
    hide Taken;
  }

  lemma AllowancesEnd(tau: real, batches: seq<seq<ClientDelta>>, batches': seq<seq<ClientDelta>>)
    requires |batches| == |batches'| > 0
    ensures var k := |batches| - 1;
      Allowances(tau, batches, batches')
        == Allowances(tau, batches[..k], batches'[..k]) + Allowance(tau, batches[k], batches'[k])
  {
  }

  lemma RunEnds(sqrt: real -> real, tau: real, reference: Option<Vec>, batches: seq<seq<ClientDelta>>)
    requires |batches| > 0
    ensures Run(sqrt, tau, reference, batches)
      == Round(sqrt, tau, Run(sqrt, tau, reference, batches[..|batches|-1]), batches[|batches|-1]).0
  {
  }

  /** So whoever changes at most b of n clients in each round, without getting a batch refused, moves the
      reference of the k-th round by at most k·2·b·τ/n. */
  lemma FewChangesStayClose(sqrt: real -> real, tau: real, v: Vec, batches: seq<seq<ClientDelta>>,
        batches': seq<seq<ClientDelta>>, n: nat, b: nat)
    requires IsSqrt(sqrt) && tau >= 0.0 && n > 0 && |batches| == |batches'|
    requires Matching(batches, |v|) && Matching(batches', |v|)
    requires forall k | 0 <= k < |batches| :: FewChanges(batches[k], batches'[k], n, b)
    ensures var a, a' := Run(sqrt, tau, Some(v), batches), Run(sqrt, tau, Some(v), batches');
      && a.Some? && a'.Some? && |a.value| == |a'.value| == |v|
      && Within(Sub(a.value, a'.value), Times(|batches| as real, Times(2.0 * b as real, tau) / n as real))
  {
    hide Taken, Run, Within, FewChanges;
    RunInfluence(sqrt, tau, v, batches, batches');
    FewAllowances(tau, batches, batches', n, b);
    WithinMore(Sub(Run(sqrt, tau, Some(v), batches).value, Run(sqrt, tau, Some(v), batches').value),
      Allowances(tau, batches, batches'), Times(|batches| as real, Times(2.0 * b as real, tau) / n as real));
  }

  /** Either both batches are taken, n clients each of which at most b differ, or neither is. */
  predicate FewChanges(batch: seq<ClientDelta>, batch': seq<ClientDelta>, n: nat, b: nat) {
    && (Taken(batch) <==> Taken(batch'))
    && (Taken(batch) ==>
          |batch| == |batch'| == n && |Changed(Decoded(batch), Decoded(batch'))| <= b)
  }

  lemma {:induction false} FewAllowances(tau: real, batches: seq<seq<ClientDelta>>, batches': seq<seq<ClientDelta>>,
        n: nat, b: nat)
    requires tau >= 0.0 && n > 0 && |batches| == |batches'|
    requires forall k | 0 <= k < |batches| :: FewChanges(batches[k], batches'[k], n, b)
    ensures Allowances(tau, batches, batches') <= Times(|batches| as real, Times(2.0 * b as real, tau) / n as real)
  {
    var each := Times(2.0 * b as real, tau) / n as real;
    if |batches| > 0 {
      var k := |batches| - 1;
      FewAllowances(tau, batches[..k], batches'[..k], n, b);
      OneAllowance(tau, batches[k], batches'[k], n, b);
      hide Allowance, FewChanges;
      Distribute(k as real, 1.0, each);
      OneTimes(each);
    } else {
      ZeroTimes(each);
    }
  }

  lemma OneAllowance(tau: real, batch: seq<ClientDelta>, batch': seq<ClientDelta>, n: nat, b: nat)
    requires tau >= 0.0 && n > 0 && FewChanges(batch, batch', n, b)
    ensures Allowance(tau, batch, batch') <= Times(2.0 * b as real, tau) / n as real
  {
    hide Changed, Decoded, Acceptable;
    NonNegative(2.0 * b as real, tau);
    DivideNonNegative(Times(2.0 * b as real, tau), n as real);
    if Taken(batch) {
      var m := |Changed(Decoded(batch), Decoded(batch'))|;
      Monotone(2.0 * m as real, 2.0 * b as real, tau);
      QuotientMonotone(Times(2.0 * m as real, tau), Times(2.0 * b as real, tau), n as real);
    }
  }

  lemma QuotientMonotone(x: real, y: real, n: real)
    requires x <= y && n > 0.0
    ensures x / n <= y / n
  {
    Divide(y, n);
    DivideBound(x, n, y / n);
  }

  lemma WithinMore(v: Vec, r: real, q: real)
    requires Within(v, r) && r <= q
    ensures Within(v, q)
  {
    SquareMonotone(r, q);
  }

  // ----- no clipping -----

  /** When no client is farther than τ from the reference, the output is the plain mean. */
  lemma UnclippedIsMean(sqrt: real -> real, tau: real, vs: seq<Vec>, v: Vec)
    requires IsSqrt(sqrt) && tau >= 0.0 && |vs| > 0 && Rect(vs, |v|)
    requires forall i | 0 <= i < |vs| :: Within(Sub(vs[i], v), tau)
    ensures Recentered(sqrt, tau, vs, v) == Mean(vs, |v|)
  {
    hide Comb, Total, Offsets, ClipScale, ClipScales, EqualShares, Within, Add, Sub, Scale, Over, Times, Sq;
    var n, dim := |vs|, |v|;
    var y := 1.0 / n as real;
    var c, ds := ClipScales(sqrt, tau, vs, v), Offsets(vs, v);
    UnscaledShares(sqrt, tau, vs, v);
    CombScale(y, c, ds, dim);
    OverIsScale(Comb(c, ds, dim), n as real);
    CombOffsets(EqualShares(n), vs, v);
    EqualSharesAreConvex(n);
    BackAndForth(v, Mean(vs, dim));
  }

  lemma UnscaledShares(sqrt: real -> real, tau: real, vs: seq<Vec>, v: Vec)
    requires IsSqrt(sqrt) && tau >= 0.0 && |vs| > 0 && Rect(vs, |v|)
    requires forall i | 0 <= i < |vs| :: Within(Sub(vs[i], v), tau)
    ensures EqualShares(|vs|) == Scale(1.0 / |vs| as real, ClipScales(sqrt, tau, vs, v))
  {
    hide Within, ClipScale, Sub;
    forall i | 0 <= i < |vs| ensures ClipScales(sqrt, tau, vs, v)[i] == 1.0 {
      NearIsUnscaled(sqrt, tau, vs[i], v);
    }
    OneTimes(1.0 / |vs| as real);
  }

  lemma BackAndForth(v: Vec, m: Vec)
    requires |v| == |m|
    ensures Add(v, Sub(m, Scale(1.0, v))) == m
  {
    forall j | 0 <= j < |v| ensures Times(1.0, v[j]) == v[j] {
      OneTimes(v[j]);
    }
  }

  lemma NearIsUnscaled(sqrt: real -> real, tau: real, u: Vec, v: Vec)
    requires IsSqrt(sqrt) && tau >= 0.0 && |u| == |v| && Within(Sub(u, v), tau)
    ensures ClipScale(sqrt, tau, u, v) == 1.0
  {
    SqNonNegative(Sub(u, v));
    var distance := sqrt(Sq(Sub(u, v)));
    assert Square(distance) == Sq(Sub(u, v));
    RootMonotone(distance, tau);
    if distance > 0.0 {
      OneTimes(distance);
      DivideBound(tau, distance, 1.0);
    }
  }
}
