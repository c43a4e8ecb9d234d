// Exact real vectors: the arithmetic every aggregator of conflux-core is written in.
// A weight vector (`Vec<f32>` or `Vec<f64>`) is a `seq<real>`.
module Vectors {
  import opened Reals

  type Vec = seq<real>

  function Zero(n: nat): (v: Vec)
    ensures |v| == n
  {
    seq(n, _ => 0.0)
  }

  function Add(u: Vec, v: Vec): (w: Vec)
    requires |u| == |v|
    ensures |w| == |u|
  {
    seq(|u|, i requires 0 <= i < |u| => u[i] + v[i])
  }

  function Sub(u: Vec, v: Vec): (w: Vec)
    requires |u| == |v|
    ensures |w| == |u|
  {
    seq(|u|, i requires 0 <= i < |u| => u[i] - v[i])
  }

  function Scale(c: real, v: Vec): (w: Vec)
    ensures |w| == |v|
  {
    seq(|v|, i requires 0 <= i < |v| => Times(c, v[i]))
  }

  /** Every element divided by d. */
  function Over(v: Vec, d: real): (w: Vec)
    requires d != 0.0
    ensures |w| == |v|
  {
    seq(|v|, i requires 0 <= i < |v| => v[i] / d)
  }

  lemma OverIsScale(v: Vec, d: real)
    requires d != 0.0
    ensures Over(v, d) == Scale(1.0 / d, v) && Scale(d, Over(v, d)) == v
  {
    forall i | 0 <= i < |v|
      ensures v[i] / d == Times(1.0 / d, v[i]) && Times(d, v[i] / d) == v[i]
    {
      Divide(v[i], d);
    }
  }

  // ----- inner product -----

  function Dot(u: Vec, v: Vec): real
    requires |u| == |v|
  {
    if |u| == 0 then 0.0
    else Dot(u[..|u|-1], v[..|v|-1]) + Times(u[|u|-1], v[|v|-1])
  }

  function Sq(v: Vec): real {
    Dot(v, v)
  }

  lemma {:induction false} DotComm(u: Vec, v: Vec)
    requires |u| == |v|
    ensures Dot(u, v) == Dot(v, u)
  {
    if |u| > 0 {
      DotComm(u[..|u|-1], v[..|v|-1]);
      Commute(u[|u|-1], v[|v|-1]);
    }
  }

  lemma {:induction false} DotAdd(u: Vec, w: Vec, v: Vec)
    requires |u| == |w| == |v|
    ensures Dot(Add(u, w), v) == Dot(u, v) + Dot(w, v)
    ensures Dot(v, Add(u, w)) == Dot(v, u) + Dot(v, w)
  {
    if |u| > 0 {
      var k := |u| - 1;
      DotAdd(u[..k], w[..k], v[..k]);
      Distribute(u[k], w[k], v[k]);
      assert Add(u, w)[..k] == Add(u[..k], w[..k]);
    }
  }

  lemma {:induction false} DotSub(u: Vec, w: Vec, v: Vec)
    requires |u| == |w| == |v|
    ensures Dot(Sub(u, w), v) == Dot(u, v) - Dot(w, v)
    ensures Dot(v, Sub(u, w)) == Dot(v, u) - Dot(v, w)
  {
    if |u| > 0 {
      var k := |u| - 1;
      DotSub(u[..k], w[..k], v[..k]);
      Distribute(u[k], w[k], v[k]);
      assert Sub(u, w)[..k] == Sub(u[..k], w[..k]);
    }
  }

  lemma {:induction false} DotScale(c: real, u: Vec, v: Vec)
    requires |u| == |v|
    ensures Dot(Scale(c, u), v) == Times(c, Dot(u, v))
    ensures Dot(v, Scale(c, u)) == Times(c, Dot(v, u))
  {
    if |u| > 0 {
      var k := |u| - 1;
      DotScale(c, u[..k], v[..k]);
      Distribute(Dot(u[..k], v[..k]), Times(u[k], v[k]), c);
      Distribute(Dot(v[..k], u[..k]), Times(v[k], u[k]), c);
      Associate(c, u[k], v[k]);
      Commute(c, u[k]);
      Associate(v[k], c, u[k]);
      Commute(v[k], c);
      Associate(c, v[k], u[k]);
      assert Scale(c, u)[..k] == Scale(c, u[..k]);
    }
  }

  lemma {:induction false} DotZero(v: Vec)
    ensures Dot(Zero(|v|), v) == 0.0
    ensures Dot(v, Zero(|v|)) == 0.0
  {
    if |v| > 0 {
      var k := |v| - 1;
      DotZero(v[..k]);
      assert Zero(|v|)[..k] == Zero(k);
    }
  }

  lemma {:induction false} SqNonNegative(v: Vec)
    ensures Sq(v) >= 0.0
    ensures Sq(v) == 0.0 ==> v == Zero(|v|)
  {
    if |v| > 0 {
      var k := |v| - 1;
      SqNonNegative(v[..k]);
      SquareSign(v[k]);
      if Sq(v) == 0.0 {
        assert v == v[..k] + [v[k]];
      }
    }
  }

  /** ‖u + v‖² = ‖u‖² + 2⟨u, v⟩ + ‖v‖² */
  lemma SqAdd(u: Vec, v: Vec)
    requires |u| == |v|
    ensures Sq(Add(u, v)) == Sq(u) + 2.0 * Dot(u, v) + Sq(v)
  {
    DotAdd(u, v, Add(u, v));
    DotAdd(u, v, u);
    DotAdd(u, v, v);
    DotComm(u, v);
  }

  lemma SqSub(u: Vec, v: Vec)
    requires |u| == |v|
    ensures Sq(Sub(u, v)) == Sq(u) - 2.0 * Dot(u, v) + Sq(v)
  {
    DotSub(u, v, Sub(u, v));
    DotSub(u, v, u);
    DotSub(u, v, v);
    DotComm(u, v);
  }

  lemma SqScale(c: real, v: Vec)
    ensures Sq(Scale(c, v)) == Times(Square(c), Sq(v))
  {
    DotScale(c, v, Scale(c, v));
    DotScale(c, v, v);
    Associate(c, c, Sq(v));
  }

  lemma SqSubComm(u: Vec, v: Vec)
    requires |u| == |v|
    ensures Sq(Sub(u, v)) == Sq(Sub(v, u))
  {
    assert Sub(u, v) == Scale(-1.0, Sub(v, u));
    SqScale(-1.0, Sub(v, u));
  }

  /** Cauchy-Schwarz: ⟨u, v⟩² ≤ ‖u‖² ‖v‖². */
  lemma CauchySchwarz(u: Vec, v: Vec)
    requires |u| == |v|
    ensures Square(Dot(u, v)) <= Times(Sq(u), Sq(v))
  {
    var a, b, d := Sq(u), Sq(v), Dot(u, v);
    SqNonNegative(v);
    if b == 0.0 {
      DotZero(u);
      Commute(a, b);
    } else {
      // ‖b·u − d·v‖² = b·(a·b − d²) is non-negative.
      var w := Sub(Scale(b, u), Scale(d, v));
      SqNonNegative(w);
      SqSub(Scale(b, u), Scale(d, v));
      SqScale(b, u);
      SqScale(d, v);
      DotScale(b, u, Scale(d, v));
      DotScale(d, v, u);
      DotComm(u, v);
      Associate(b, b, a);
      Commute(Square(d), b);
      Commute(a, b);
      Distribute(Times(a, b), Square(d), b);
      SignOfFactor(b, Times(a, b) - Square(d));
    }
  }

  // ----- norm balls -----

  /** ‖v‖ ≤ r, stated without a square root. */
  predicate Within(v: Vec, r: real) {
    r >= 0.0 && Sq(v) <= Square(r)
  }

  /** The triangle inequality. */
  lemma WithinAdd(u: Vec, a: real, v: Vec, b: real)
    requires |u| == |v| && Within(u, a) && Within(v, b)
    ensures Within(Add(u, v), a + b)
  {
    SqAdd(u, v);
    CauchySchwarz(u, v);
    SqNonNegative(u);
    SqNonNegative(v);
    ProductBound(Dot(u, v), Sq(u), Sq(v), a, b);
    SquareOfSum(a, b);
  }

  lemma WithinScale(c: real, v: Vec, r: real)
    requires c >= 0.0 && Within(v, r)
    ensures Within(Scale(c, v), Times(c, r))
  {
    SqScale(c, v);
    SquareSign(c);
    Monotone(Sq(v), Square(r), Square(c));
    SquareOfProduct(c, r);
    NonNegative(c, r);
  }

  lemma WithinSub(u: Vec, a: real, v: Vec, b: real)
    requires |u| == |v| && Within(u, a) && Within(v, b)
    ensures Within(Sub(u, v), a + b)
  {
    SqScale(-1.0, v);
    SubIsAdd(u, v);
    WithinAdd(u, a, Scale(-1.0, v), b);
  }

  lemma SubIsAdd(u: Vec, v: Vec)
    requires |u| == |v|
    ensures Sub(u, v) == Add(u, Scale(-1.0, v))
  {
    forall i | 0 <= i < |v| ensures Times(-1.0, v[i]) == -v[i] {
      Negate(1.0, v[i]);
      OneTimes(v[i]);
    }
  }

  lemma WithinZero(n: nat, r: real)
    requires r >= 0.0
    ensures Within(Zero(n), r)
  {
    DotZero(Zero(n));
    SquareSign(r);
  }

  // ----- linear combinations -----

  /** Every vector of the list has dimension `dim`. */
  predicate Rect(vs: seq<Vec>, dim: nat) {
    forall k | 0 <= k < |vs| :: |vs[k]| == dim
  }

  /** Σ c[k]·vs[k]: what a row of a matrix product, and every weighted mean, is. */
  function Comb(c: Vec, vs: seq<Vec>, dim: nat): (w: Vec)
    requires |c| == |vs| && Rect(vs, dim)
    ensures |w| == dim
  {
    if |c| == 0 then Zero(dim)
    else Add(Comb(c[..|c|-1], vs[..|vs|-1], dim), Scale(c[|c|-1], vs[|vs|-1]))
  }

  function Total(c: Vec): real {
    if |c| == 0 then 0.0 else Total(c[..|c|-1]) + c[|c|-1]
  }

  /** One more element of a prefix is one more term. */
  lemma CombPrefix(c: Vec, vs: seq<Vec>, dim: nat, k: nat)
    requires |c| == |vs| && Rect(vs, dim) && k < |c|
    ensures Comb(c[..k + 1], vs[..k + 1], dim) == Add(Comb(c[..k], vs[..k], dim), Scale(c[k], vs[k]))
  {
    assert c[..k + 1][..k] == c[..k] && vs[..k + 1][..k] == vs[..k];
  }

  lemma {:induction false} CombAdd(c: Vec, d: Vec, vs: seq<Vec>, dim: nat)
    requires |c| == |d| == |vs| && Rect(vs, dim)
    ensures Comb(Add(c, d), vs, dim) == Add(Comb(c, vs, dim), Comb(d, vs, dim))
  {
    if |c| > 0 {
      var k := |c| - 1;
      CombAdd(c[..k], d[..k], vs[..k], dim);
      assert Add(c, d)[..k] == Add(c[..k], d[..k]);
      AddStep(Comb(c[..k], vs[..k], dim), Comb(d[..k], vs[..k], dim), c[k], d[k], vs[k]);
    }
  }

  lemma AddStep(p: Vec, q: Vec, c: real, d: real, v: Vec)
    requires |p| == |q| == |v|
    ensures Add(Add(p, q), Scale(c + d, v)) == Add(Add(p, Scale(c, v)), Add(q, Scale(d, v)))
  {
    forall j | 0 <= j < |v| ensures Times(c + d, v[j]) == Times(c, v[j]) + Times(d, v[j]) {
      Distribute(c, d, v[j]);
    }
  }

  lemma {:induction false} CombScale(x: real, c: Vec, vs: seq<Vec>, dim: nat)
    requires |c| == |vs| && Rect(vs, dim)
    ensures Comb(Scale(x, c), vs, dim) == Scale(x, Comb(c, vs, dim))
  {
    if |c| > 0 {
      var k := |c| - 1;
      CombScale(x, c[..k], vs[..k], dim);
      assert Scale(x, c)[..k] == Scale(x, c[..k]);
      ScaleStep(x, Comb(c[..k], vs[..k], dim), c[k], vs[k]);
    }
  }

  lemma ScaleStep(x: real, p: Vec, c: real, v: Vec)
    requires |p| == |v|
    ensures Add(Scale(x, p), Scale(Times(x, c), v)) == Scale(x, Add(p, Scale(c, v)))
  {
    forall j | 0 <= j < |v| ensures Times(x, p[j]) + Times(Times(x, c), v[j]) == Times(x, p[j] + Times(c, v[j])) {
      Distribute(p[j], Times(c, v[j]), x);
      Associate(x, c, v[j]);
    }
  }

  lemma CombSub(c: Vec, d: Vec, vs: seq<Vec>, dim: nat)
    requires |c| == |d| == |vs| && Rect(vs, dim)
    ensures Comb(Sub(c, d), vs, dim) == Sub(Comb(c, vs, dim), Comb(d, vs, dim))
  {
    SubIsAdd(c, d);
    CombAdd(c, Scale(-1.0, d), vs, dim);
    CombScale(-1.0, d, vs, dim);
    SubIsAdd(Comb(c, vs, dim), Comb(d, vs, dim));
    hide Comb, Add, Sub, Scale;
  }

  lemma {:induction false} CombZero(vs: seq<Vec>, dim: nat)
    requires Rect(vs, dim)
    ensures Comb(Zero(|vs|), vs, dim) == Zero(dim)
  {
    if |vs| > 0 {
      var k := |vs| - 1;
      CombZero(vs[..k], dim);
      assert Zero(|vs|)[..k] == Zero(k);
    }
  }

  /** ⟨Σ c[k]·vs[k], w⟩ = Σ c[k]·⟨vs[k], w⟩. */
  function Against(vs: seq<Vec>, w: Vec): (r: Vec)
    requires Rect(vs, |w|)
    ensures |r| == |vs|
  {
    seq(|vs|, k requires 0 <= k < |vs| => Dot(vs[k], w))
  }

  lemma {:induction false} CombDot(c: Vec, vs: seq<Vec>, w: Vec)
    requires |c| == |vs| && Rect(vs, |w|)
    ensures Dot(Comb(c, vs, |w|), w) == Dot(c, Against(vs, w))
  {
    if |c| == 0 {
      DotZero(w);
    } else {
      var k := |c| - 1;
      var p := Comb(c[..k], vs[..k], |w|);
      CombDot(c[..k], vs[..k], w);
      DotAdd(p, Scale(c[k], vs[k]), w);
      DotScale(c[k], vs[k], w);
      assert Against(vs, w)[..k] == Against(vs[..k], w);
      assert Against(vs, w)[k] == Dot(vs[k], w);
    }
  }

  lemma {:induction false} TotalScale(x: real, c: Vec)
    ensures Total(Scale(x, c)) == Times(x, Total(c))
  {
    if |c| > 0 {
      var k := |c| - 1;
      TotalScale(x, c[..k]);
      Distribute(Total(c[..k]), c[k], x);
      assert Scale(x, c)[..k] == Scale(x, c[..k]);
    }
  }

  lemma {:induction false} TotalNonNegative(c: Vec)
    requires forall k | 0 <= k < |c| :: c[k] >= 0.0
    ensures Total(c) >= 0.0
    ensures forall k | 0 <= k < |c| :: c[k] <= Total(c)
  {
    if |c| > 0 { TotalNonNegative(c[..|c|-1]); }
  }

  /** Replacing every vector by its offset from `x` subtracts Total(c)·x. */
  function Offsets(vs: seq<Vec>, x: Vec): (r: seq<Vec>)
    requires Rect(vs, |x|)
    ensures |r| == |vs| && Rect(r, |x|)
  {
    seq(|vs|, k requires 0 <= k < |vs| => Sub(vs[k], x))
  }

  lemma {:induction false} CombOffsets(c: Vec, vs: seq<Vec>, x: Vec)
    requires |c| == |vs| && Rect(vs, |x|)
    ensures Comb(c, Offsets(vs, x), |x|) == Sub(Comb(c, vs, |x|), Scale(Total(c), x))
  {
    if |c| > 0 {
      var k := |c| - 1;
      CombOffsets(c[..k], vs[..k], x);
      assert Offsets(vs, x)[..k] == Offsets(vs[..k], x);
      OffsetStep(Comb(c[..k], vs[..k], |x|), Total(c[..k]), c[k], vs[k], x);
    }
  }

  lemma OffsetStep(a: Vec, t: real, c: real, v: Vec, x: Vec)
    requires |a| == |v| == |x|
    ensures Add(Sub(a, Scale(t, x)), Scale(c, Sub(v, x))) == Sub(Add(a, Scale(c, v)), Scale(t + c, x))
  {
    forall j | 0 <= j < |x|
      ensures a[j] - Times(t, x[j]) + Times(c, v[j] - x[j]) == a[j] + Times(c, v[j]) - Times(t + c, x[j])
    {
      Distribute(v[j], x[j], c);
      Distribute(t, c, x[j]);
    }
  }

  /** A convex combination stays in the coordinate-wise range of its vectors. */
  lemma {:induction false} CombRange(c: Vec, vs: seq<Vec>, dim: nat, j: nat, lo: real, hi: real)
    requires |c| == |vs| && Rect(vs, dim) && j < dim
    requires forall k | 0 <= k < |c| :: c[k] >= 0.0
    requires forall k | 0 <= k < |c| && c[k] > 0.0 :: lo <= vs[k][j] <= hi
    ensures Times(Total(c), lo) <= Comb(c, vs, dim)[j] <= Times(Total(c), hi)
  {
    hide Times, Scale, Add;
    if |c| == 0 {
      ZeroTimes(lo);
      ZeroTimes(hi);
    } else {
      var k := |c| - 1;
      CombRange(c[..k], vs[..k], dim, j, lo, hi);
      TermAt(Comb(c[..k], vs[..k], dim), c[k], vs[k], j);
      RangeStep(Total(c[..k]), c[k], vs[k][j], Comb(c[..k], vs[..k], dim)[j], lo, hi);
    }
  }

  lemma TermAt(a: Vec, x: real, v: Vec, j: nat)
    requires |a| == |v| && j < |a|
    ensures Add(a, Scale(x, v))[j] == a[j] + Times(x, v[j])
  {
  }

  lemma RangeStep(t: real, x: real, y: real, p: real, lo: real, hi: real)
    requires x >= 0.0 && (x > 0.0 ==> lo <= y <= hi)
    requires Times(t, lo) <= p <= Times(t, hi)
    ensures Times(t + x, lo) <= p + Times(x, y) <= Times(t + x, hi)
  {
    if x > 0.0 {
      Monotone(lo, y, x);
      Monotone(y, hi, x);
    }
    Distribute(t, x, lo);
    Distribute(t, x, hi);
  }

  // ----- one coordinate of a combination -----

  /** One coordinate of every vector. */
  function Coordinate(vs: seq<Vec>, dim: nat, k: nat): (c: Vec)
    requires Rect(vs, dim) && k < dim
    ensures |c| == |vs|
  {
    seq(|vs|, i requires 0 <= i < |vs| => vs[i][k])
  }

  /** Entry by entry. */
  function Products(p: Vec, t: Vec): (r: Vec)
    requires |p| == |t|
    ensures |r| == |p|
  {
    seq(|p|, i requires 0 <= i < |p| => Times(p[i], t[i]))
  }

  /** Coordinate j of Σ c[k]·vs[k] is Σ c[k]·vs[k][j]. */
  lemma {:induction false} CombAt(c: Vec, vs: seq<Vec>, dim: nat, j: nat)
    requires |c| == |vs| && Rect(vs, dim) && j < dim
    ensures Comb(c, vs, dim)[j] == Total(Products(c, Coordinate(vs, dim, j)))
  {
    if |c| > 0 {
      var k := |c| - 1;
      CombAt(c[..k], vs[..k], dim, j);
      assert Products(c, Coordinate(vs, dim, j))[..k] == Products(c[..k], Coordinate(vs[..k], dim, j));
      TermAt(Comb(c[..k], vs[..k], dim), c[k], vs[k], j);
    }
  }

  // ----- the shared in-place loop -----

  /** conflux-core's `accumulate_weighted`: acc += weight·src, element by element. */
  method AccumulateWeighted(acc: array<real>, src: Vec, weight: real)
    requires acc.Length == |src|
    modifies acc
    ensures acc[..] == Add(old(acc[..]), Scale(weight, src))
  {
    for i := 0 to acc.Length
      invariant forall k | 0 <= k < i :: acc[k] == old(acc[k]) + Times(weight, src[k])
      invariant forall k | i <= k < acc.Length :: acc[k] == old(acc[k])
    {
      Commute(weight, src[i]);
      acc[i] := acc[i] + src[i] * weight;
    }
    assert acc[..] == Add(old(acc[..]), Scale(weight, src));
  }

  /** `accumulate_scaled_difference`: acc += scale·(src − reference). */
  method AccumulateScaledDifference(acc: array<real>, src: Vec, reference: Vec, scale: real)
    requires acc.Length == |src| == |reference|
    modifies acc
    ensures acc[..] == Add(old(acc[..]), Scale(scale, Sub(src, reference)))
  {
    for i := 0 to acc.Length
      invariant forall k | 0 <= k < i :: acc[k] == old(acc[k]) + Times(scale, src[k] - reference[k])
      invariant forall k | i <= k < acc.Length :: acc[k] == old(acc[k])
    {
      Commute(scale, src[i] - reference[i]);
      acc[i] := acc[i] + (src[i] - reference[i]) * scale;
    }
    assert acc[..] == Add(old(acc[..]), Scale(scale, Sub(src, reference)));
  }
}
