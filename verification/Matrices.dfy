// Dense row-major matrices: conflux-core's `type Matrix = Vec<Vec<f64>>` and its
// `zeros`, `identity`, `matmul` and `transpose` (flanders.rs).
module Matrices {
  import opened Reals
  import opened Vectors

  type Matrix = seq<Vec>

  predicate Is(a: Matrix, rows: nat, cols: nat) {
    |a| == rows && Rect(a, cols)
  }

  /** `b.first().map_or(0, |r| r.len())` */
  function Cols(b: Matrix): nat {
    if |b| == 0 then 0 else |b[0]|
  }

  function Column(a: Matrix, j: nat): (c: Vec)
    requires forall i | 0 <= i < |a| :: j < |a[i]|
    ensures |c| == |a|
  {
    seq(|a|, i requires 0 <= i < |a| => a[i][j])
  }

  function Transpose(a: Matrix): (t: Matrix)
    requires Rect(a, Cols(a))
    ensures Is(t, Cols(a), |a|)
  {
    seq(Cols(a), j requires 0 <= j < Cols(a) => Column(a, j))
  }

  function Mul(a: Matrix, b: Matrix): (p: Matrix)
    requires Rect(a, |b|) && Rect(b, Cols(b))
    ensures Is(p, |a|, Cols(b))
  {
    seq(|a|, i requires 0 <= i < |a| => Comb(a[i], b, Cols(b)))
  }

  function AddM(a: Matrix, b: Matrix): (s: Matrix)
    requires |a| == |b| && forall i | 0 <= i < |a| :: |a[i]| == |b[i]|
    ensures |s| == |a| && forall i | 0 <= i < |s| :: |s[i]| == |a[i]|
  {
    seq(|a|, i requires 0 <= i < |a| => Add(a[i], b[i]))
  }

  function SubM(a: Matrix, b: Matrix): (s: Matrix)
    requires |a| == |b| && forall i | 0 <= i < |a| :: |a[i]| == |b[i]|
    ensures |s| == |a| && forall i | 0 <= i < |s| :: |s[i]| == |a[i]|
  {
    seq(|a|, i requires 0 <= i < |a| => Sub(a[i], b[i]))
  }

  function ScaleM(x: real, a: Matrix): (s: Matrix)
    ensures |s| == |a| && forall i | 0 <= i < |s| :: |s[i]| == |a[i]|
  {
    seq(|a|, i requires 0 <= i < |a| => Scale(x, a[i]))
  }

  function ZeroM(rows: nat, cols: nat): (z: Matrix)
    ensures Is(z, rows, cols)
  {
    seq(rows, _ => Zero(cols))
  }

  function Unit(n: nat, i: nat): (u: Vec)
    ensures |u| == n
  {
    seq(n, j requires 0 <= j < n => if i == j then 1.0 else 0.0)
  }

  function Identity(n: nat): (m: Matrix)
    ensures Is(m, n, n)
  {
    seq(n, i requires 0 <= i < n => Unit(n, i))
  }

  /** Entry (i, j) of a product is the sum over k of a[i][k]·b[k][j]. */
  lemma MulAt(a: Matrix, b: Matrix, i: nat, j: nat)
    requires Rect(a, |b|) && Rect(b, Cols(b)) && i < |a| && j < Cols(b)
    ensures Mul(a, b)[i][j] == Total(Products(a[i], Column(b, j)))
  {
    CombAt(a[i], b, Cols(b), j);
    assert Coordinate(b, Cols(b), j) == Column(b, j);
  }

  // ----- rows of a product -----

  lemma {:induction false} CombUnit(i: nat, vs: Matrix, cols: nat)
    requires i < |vs| && Rect(vs, cols)
    ensures Comb(Unit(|vs|, i), vs, cols) == vs[i]
  {
    var k := |vs| - 1;
    var u := Unit(|vs|, i);
    if i < k {
      CombUnit(i, vs[..k], cols);
      assert u[..k] == Unit(k, i);
    } else {
      CombZero(vs[..k], cols);
      assert u[..k] == Zero(k);
    }
  }

  lemma MulIdentity(a: Matrix)
    requires |a| > 0 && Rect(a, Cols(a))
    ensures Mul(Identity(|a|), a) == a
  {
    forall i | 0 <= i < |a| ensures Mul(Identity(|a|), a)[i] == a[i] {
      CombUnit(i, a, Cols(a));
    }
  }

  /** An entry of a combination is an inner product with a column. */
  lemma {:induction false} CombEntry(c: Vec, vs: Matrix, cols: nat, j: nat)
    requires |c| == |vs| && Rect(vs, cols) && j < cols
    ensures Comb(c, vs, cols)[j] == Dot(c, Column(vs, j))
  {
    if |c| > 0 {
      var k := |c| - 1;
      CombEntry(c[..k], vs[..k], cols, j);
      assert Column(vs, j)[..k] == Column(vs[..k], j);
    }
  }

  /** Combining combined rows is combining rows of the product. */
  lemma {:induction false} CombMul(c: Vec, a: Matrix, b: Matrix)
    requires |c| == |a| && Rect(a, |b|) && Rect(b, Cols(b))
    ensures Comb(Comb(c, a, |b|), b, Cols(b)) == Comb(c, Mul(a, b), Cols(b))
  {
    var m := Cols(b);
    if |c| == 0 {
      CombZero(b, m);
    } else {
      var k := |c| - 1;
      CombMul(c[..k], a[..k], b);
      CombAdd(Comb(c[..k], a[..k], |b|), Scale(c[k], a[k]), b, m);
      CombScale(c[k], a[k], b, m);
      assert Mul(a, b)[..k] == Mul(a[..k], b);
    }
  }

  lemma MulAssociative(a: Matrix, b: Matrix, c: Matrix)
    requires |b| > 0 && |c| > 0 && Rect(a, |b|) && Rect(b, |c|) && Rect(c, Cols(c))
    ensures Mul(Mul(a, b), c) == Mul(a, Mul(b, c))
  {
    forall i | 0 <= i < |a| ensures Mul(Mul(a, b), c)[i] == Mul(a, Mul(b, c))[i] {
      CombMul(a[i], b, c);
    }
  }

  lemma {:induction false} CombRows(c: Vec, a: Matrix, b: Matrix, cols: nat)
    requires |c| == |a| == |b| && Rect(a, cols) && Rect(b, cols)
    ensures Comb(c, SubM(a, b), cols) == Sub(Comb(c, a, cols), Comb(c, b, cols))
  {
    if |c| > 0 {
      var k := |c| - 1;
      CombRows(c[..k], a[..k], b[..k], cols);
      assert SubM(a, b)[..k] == SubM(a[..k], b[..k]);
      forall j | 0 <= j < cols
        ensures Comb(c, SubM(a, b), cols)[j] == Sub(Comb(c, a, cols), Comb(c, b, cols))[j]
      {
        Distribute(a[k][j], b[k][j], c[k]);
      }
    }
  }

  lemma MulSub(w: Matrix, a: Matrix, b: Matrix)
    requires |a| == |b| > 0 && Cols(a) == Cols(b) && Rect(a, Cols(a)) && Rect(b, Cols(a)) && Rect(w, |a|)
    ensures Mul(w, SubM(a, b)) == SubM(Mul(w, a), Mul(w, b))
  {
    forall i | 0 <= i < |w| ensures Mul(w, SubM(a, b))[i] == SubM(Mul(w, a), Mul(w, b))[i] {
      CombRows(w[i], a, b, Cols(a));
    }
  }

  lemma MulAddLeft(v: Matrix, w: Matrix, a: Matrix)
    requires Rect(a, Cols(a)) && |v| == |w| && Rect(v, |a|) && Rect(w, |a|)
    ensures Mul(AddM(v, w), a) == AddM(Mul(v, a), Mul(w, a))
  {
    forall i | 0 <= i < |w| ensures Mul(AddM(v, w), a)[i] == AddM(Mul(v, a), Mul(w, a))[i] {
      CombAdd(v[i], w[i], a, Cols(a));
    }
  }

  lemma MulScaleLeft(x: real, w: Matrix, a: Matrix)
    requires Rect(a, Cols(a)) && Rect(w, |a|)
    ensures Mul(ScaleM(x, w), a) == ScaleM(x, Mul(w, a))
  {
    forall i | 0 <= i < |w| ensures Mul(ScaleM(x, w), a)[i] == ScaleM(x, Mul(w, a))[i] {
      CombScale(x, w[i], a, Cols(a));
    }
  }

  lemma MulZeroLeft(rows: nat, a: Matrix)
    requires Rect(a, Cols(a))
    ensures Mul(ZeroM(rows, |a|), a) == ZeroM(rows, Cols(a))
  {
    CombZero(a, Cols(a));
  }

  // ----- transposition -----

  lemma TransposeTwice(a: Matrix)
    requires |a| > 0 && Cols(a) > 0 && Rect(a, Cols(a))
    ensures Transpose(Transpose(a)) == a
  {
    var t := Transpose(a);
    forall i | 0 <= i < |a| ensures Transpose(t)[i] == a[i] {
      assert Transpose(t)[i] == Column(t, i);
    }
  }

  /** (A·B)ᵀ = Bᵀ·Aᵀ */
  lemma TransposeMul(a: Matrix, b: Matrix)
    requires |a| > 0 && |b| > 0 && Cols(b) > 0 && Rect(a, |b|) && Rect(b, Cols(b))
    ensures Transpose(Mul(a, b)) == Mul(Transpose(b), Transpose(a))
  {
    var l, r := Transpose(Mul(a, b)), Mul(Transpose(b), Transpose(a));
    forall j | 0 <= j < Cols(b) ensures l[j] == r[j] {
      forall i | 0 <= i < |a| ensures l[j][i] == r[j][i] {
        CombEntry(a[i], b, Cols(b), j);
        CombEntry(Column(b, j), Transpose(a), |a|, i);
        assert Column(Transpose(a), i) == a[i];
        DotComm(a[i], Column(b, j));
      }
    }
  }

  lemma TransposeSub(a: Matrix, b: Matrix)
    requires |a| == |b| > 0 && Cols(a) == Cols(b) && Rect(a, Cols(a)) && Rect(b, Cols(a))
    ensures Transpose(SubM(a, b)) == SubM(Transpose(a), Transpose(b))
  {
    forall j | 0 <= j < Cols(a) ensures Transpose(SubM(a, b))[j] == SubM(Transpose(a), Transpose(b))[j] {
      assert Column(SubM(a, b), j) == Sub(Column(a, j), Column(b, j));
    }
  }

  // ----- the Frobenius inner product -----

  function Inner(a: Matrix, b: Matrix): real
    requires |a| == |b| && forall i | 0 <= i < |a| :: |a[i]| == |b[i]|
  {
    if |a| == 0 then 0.0
    else Inner(a[..|a|-1], b[..|b|-1]) + Dot(a[|a|-1], b[|b|-1])
  }

  function FrobeniusSq(a: Matrix): real {
    Inner(a, a)
  }

  lemma {:induction false} InnerSub(a: Matrix, b: Matrix, c: Matrix, cols: nat)
    requires |a| == |b| == |c| && Rect(a, cols) && Rect(b, cols) && Rect(c, cols)
    ensures Inner(SubM(a, b), c) == Inner(a, c) - Inner(b, c)
    ensures Inner(c, SubM(a, b)) == Inner(c, a) - Inner(c, b)
  {
    if |a| > 0 {
      var k := |a| - 1;
      InnerSub(a[..k], b[..k], c[..k], cols);
      DotSub(a[k], b[k], c[k]);
      assert SubM(a, b)[..k] == SubM(a[..k], b[..k]);
    }
  }

  lemma {:induction false} InnerAdd(a: Matrix, b: Matrix, c: Matrix, cols: nat)
    requires |a| == |b| == |c| && Rect(a, cols) && Rect(b, cols) && Rect(c, cols)
    ensures Inner(AddM(a, b), c) == Inner(a, c) + Inner(b, c)
  {
    if |a| > 0 {
      var k := |a| - 1;
      InnerAdd(a[..k], b[..k], c[..k], cols);
      DotAdd(a[k], b[k], c[k]);
      assert AddM(a, b)[..k] == AddM(a[..k], b[..k]);
    }
  }

  lemma {:induction false} InnerScale(x: real, a: Matrix, b: Matrix, cols: nat)
    requires |a| == |b| && Rect(a, cols) && Rect(b, cols)
    ensures Inner(ScaleM(x, a), b) == Times(x, Inner(a, b))
  {
    if |a| > 0 {
      var k := |a| - 1;
      InnerScale(x, a[..k], b[..k], cols);
      DotScale(x, a[k], b[k]);
      Distribute(Inner(a[..k], b[..k]), Dot(a[k], b[k]), x);
      assert ScaleM(x, a)[..k] == ScaleM(x, a[..k]);
    }
  }

  lemma {:induction false} InnerComm(a: Matrix, b: Matrix)
    requires |a| == |b| && forall i | 0 <= i < |a| :: |a[i]| == |b[i]|
    ensures Inner(a, b) == Inner(b, a)
  {
    if |a| > 0 {
      InnerComm(a[..|a|-1], b[..|b|-1]);
      DotComm(a[|a|-1], b[|b|-1]);
    }
  }

  lemma FrobeniusSub(a: Matrix, b: Matrix, cols: nat)
    requires |a| == |b| && Rect(a, cols) && Rect(b, cols)
    ensures FrobeniusSq(SubM(a, b)) == FrobeniusSq(a) - 2.0 * Inner(a, b) + FrobeniusSq(b)
  {
    InnerSub(a, b, SubM(a, b), cols);
    InnerSub(a, b, a, cols);
    InnerSub(a, b, b, cols);
    InnerComm(a, b);
  }

  lemma {:induction false} FrobeniusNonNegative(a: Matrix)
    ensures FrobeniusSq(a) >= 0.0
    ensures FrobeniusSq(a) == 0.0 ==> forall i | 0 <= i < |a| :: a[i] == Zero(|a[i]|)
  {
    if |a| > 0 {
      FrobeniusNonNegative(a[..|a|-1]);
      SqNonNegative(a[|a|-1]);
    }
  }

  /** Multiplying by W and by Wᵀ are adjoint: ⟨R, W·D⟩ = ⟨Wᵀ·R, D⟩. */
  lemma {:induction false} Adjoint(r: Matrix, w: Matrix, d: Matrix)
    requires |r| == |w| && |d| > 0 && Rect(w, |d|) && Rect(d, Cols(d)) && Rect(r, Cols(d))
    ensures Inner(r, Mul(w, d)) == Inner(TransposedMul(w, r, |d|, Cols(d)), d)
  {
    var h, m := |d|, Cols(d);
    if |r| == 0 {
      InnerZero(d, m);
      assert TransposedMul(w, r, h, m) == ZeroM(h, m);
    } else {
      var k := |r| - 1;
      hide TransposedMul, Outer, AddM, Comb;
      Adjoint(r[..k], w[..k], d);
      assert Mul(w, d)[..k] == Mul(w[..k], d);
      var p := TransposedMul(w[..k], r[..k], h, m);
      var o := Outer(w[k], r[k]);
      TransposedMulSnoc(w, r, h, m);
      InnerAdd(p, o, d, m);
      InnerOuter(w[k], r[k], d);
    }
  }

  /** Wᵀ·R by rows, with explicit dimensions so that W may have no rows. */
  function TransposedMul(w: Matrix, r: Matrix, h: nat, m: nat): (p: Matrix)
    requires |w| == |r| && Rect(w, h) && Rect(r, m)
    ensures Is(p, h, m)
  {
    seq(h, i requires 0 <= i < h => Comb(Column(w, i), r, m))
  }

  /** The last rows of both factors contribute their outer product. */
  lemma TransposedMulSnoc(w: Matrix, r: Matrix, h: nat, m: nat)
    requires |w| == |r| > 0 && Rect(w, h) && Rect(r, m)
    ensures var k := |r| - 1;
      TransposedMul(w, r, h, m) == AddM(TransposedMul(w[..k], r[..k], h, m), Outer(w[k], r[k]))
  {
    var k := |r| - 1;
    forall i | 0 <= i < h
      ensures TransposedMul(w, r, h, m)[i] == AddM(TransposedMul(w[..k], r[..k], h, m), Outer(w[k], r[k]))[i]
    {
      assert Column(w, i)[..k] == Column(w[..k], i);
    }
  }

  function Outer(u: Vec, v: Vec): (o: Matrix)
    ensures Is(o, |u|, |v|)
  {
    seq(|u|, i requires 0 <= i < |u| => Scale(u[i], v))
  }

  lemma {:induction false} InnerZero(d: Matrix, m: nat)
    requires Rect(d, m)
    ensures Inner(ZeroM(|d|, m), d) == 0.0
  {
    if |d| > 0 {
      var k := |d| - 1;
      InnerZero(d[..k], m);
      DotZero(d[k]);
      assert ZeroM(|d|, m)[..k] == ZeroM(k, m);
    }
  }

  lemma {:induction false} InnerOuter(u: Vec, v: Vec, d: Matrix)
    requires |u| == |d| && Rect(d, |v|)
    ensures Inner(Outer(u, v), d) == Dot(v, Comb(u, d, |v|))
  {
    if |u| == 0 {
      DotZero(v);
    } else {
      var k := |u| - 1;
      InnerOuter(u[..k], v, d[..k]);
      assert Outer(u, v)[..k] == Outer(u[..k], v);
      DotScale(u[k], v, d[k]);
      DotAdd(Comb(u[..k], d[..k], |v|), Scale(u[k], d[k]), v);
      DotScale(u[k], d[k], v);
    }
  }

  /** ‖Aᵀ‖² = ‖A‖² */
  lemma {:induction false} FrobeniusTranspose(a: Matrix, cols: nat)
    requires Rect(a, cols)
    ensures FrobeniusSq(ColumnsOf(a, cols)) == FrobeniusSq(a)
  {
    if |a| == 0 {
      AllEmptyRows(ColumnsOf(a, cols));
    } else {
      var k := |a| - 1;
      FrobeniusTranspose(a[..k], cols);
      AppendColumn(ColumnsOf(a[..k], cols), a[k]);
      assert ColumnsOf(a, cols) == Widened(ColumnsOf(a[..k], cols), a[k]) by {
        forall j | 0 <= j < cols ensures Column(a, j) == Column(a[..k], j) + [a[k][j]] {
        }
      }
    }
  }

  function ColumnsOf(a: Matrix, cols: nat): (t: Matrix)
    requires Rect(a, cols)
    ensures Is(t, cols, |a|)
  {
    seq(cols, j requires 0 <= j < cols => Column(a, j))
  }

  function Widened(t: Matrix, v: Vec): (r: Matrix)
    requires |t| == |v|
    ensures |r| == |t|
  {
    seq(|t|, j requires 0 <= j < |t| => t[j] + [v[j]])
  }

  lemma {:induction false} AllEmptyRows(t: Matrix)
    requires Rect(t, 0)
    ensures FrobeniusSq(t) == 0.0
  {
    if |t| > 0 { AllEmptyRows(t[..|t|-1]); }
  }

  lemma {:induction false} AppendColumn(t: Matrix, v: Vec)
    requires |t| == |v|
    ensures FrobeniusSq(Widened(t, v)) == FrobeniusSq(t) + Sq(v)
  {
    if |t| > 0 {
      var k := |t| - 1;
      AppendColumn(t[..k], v[..k]);
      assert Widened(t, v)[..k] == Widened(t[..k], v[..k]);
      assert Widened(t, v)[k] == t[k] + [v[k]];
      assert (t[k] + [v[k]])[..|t[k]|] == t[k];
    }
  }

  // ----- the source's loops -----

  lemma EmptyComb(c: Vec, vs: Matrix, m: nat)
    ensures Comb(c[..0], vs[..0], m) == Zero(m)
  {
  }

  lemma AddNothing(u: Vec, v: Vec)
    requires |u| == |v|
    ensures Add(u, Scale(0.0, v)) == u
  {
  }

  /** The innermost loop has added factor·v to the row. */
  lemma RowAdvanced(before: Vec, after: Vec, factor: real, v: Vec)
    requires |before| == |after| == |v|
    requires forall s | 0 <= s < |v| :: after[s] == before[s] + Times(factor, v[s])
    ensures after == Add(before, Scale(factor, v))
  {
  }

  /** `matmul`: three nested loops, skipping zero factors. */
  method Matmul(a: Matrix, b: Matrix) returns (p: Matrix)
    requires Rect(a, |b|) && Rect(b, Cols(b))
    ensures p == Mul(a, b)
  {
    hide Times, Comb, Add, Scale;
    var n, k, m := |a|, |b|, Cols(b);
    var out := new Vec[n](_ => Zero(m));
    for i := 0 to n
      invariant forall r | 0 <= r < i :: out[r] == Comb(a[r], b, m)
      invariant forall r | i <= r < n :: out[r] == Zero(m)
    {
      EmptyComb(a[i], b, m);
      for q := 0 to k
        invariant out[i] == Comb(a[i][..q], b[..q], m)
        invariant forall r | 0 <= r < i :: out[r] == Comb(a[r], b, m)
        invariant forall r | i < r < n :: out[r] == Zero(m)
      {
        var factor := a[i][q];
        ghost var before := out[i];
        CombPrefix(a[i], b, m, q);
        if factor == 0.0 {
          AddNothing(before, b[q]);
          continue;
        }
        for j := 0 to m
          invariant |out[i]| == m
          invariant forall s | 0 <= s < j :: out[i][s] == before[s] + Times(factor, b[q][s])
          invariant forall s | j <= s < m :: out[i][s] == before[s]
          invariant forall r | 0 <= r < i :: out[r] == Comb(a[r], b, m)
          invariant forall r | i < r < n :: out[r] == Zero(m)
        {
          out[i] := out[i][j := out[i][j] + Times(factor, b[q][j])];
        }
        RowAdvanced(before, out[i], factor, b[q]);
      }
      assert a[i][..k] == a[i] && b[..k] == b;
    }
    p := out[..];
  }

  /** `transpose` */
  method TransposeOf(a: Matrix) returns (t: Matrix)
    requires Rect(a, Cols(a))
    ensures t == Transpose(a)
  {
    var n, m := |a|, Cols(a);
    var out := new Vec[m](_ => Zero(n));
    for i := 0 to n
      invariant forall j | 0 <= j < m :: |out[j]| == n
      invariant forall j, r | 0 <= j < m && 0 <= r < i :: out[j][r] == a[r][j]
    {
      for j := 0 to m
        invariant forall s | 0 <= s < m :: |out[s]| == n
        invariant forall s, r | 0 <= s < m && 0 <= r < i :: out[s][r] == a[r][s]
        invariant forall s | 0 <= s < j :: out[s][i] == a[i][s]
      {
        out[j] := out[j][i := a[i][j]];
      }
    }
    t := out[..];
    forall j | 0 <= j < m ensures t[j] == Column(a, j) {
    }
  }

  /** `acc[i][j] += x[i][j]` over the whole matrix, as in the loops of `fit_mar`. */
  method Accumulate(acc: array<Vec>, x: Matrix)
    requires acc.Length == |x| && forall i | 0 <= i < |x| :: |acc[i]| == |x[i]|
    modifies acc
    ensures forall i | 0 <= i < |x| :: |old(acc[i])| == |x[i]|
    ensures acc[..] == AddM(old(acc[..]), x)
  {
    ghost var was := acc[..];
    for i := 0 to acc.Length
      invariant forall r | 0 <= r < i :: acc[r] == Add(was[r], x[r])
      invariant forall r | i <= r < acc.Length :: acc[r] == was[r]
    {
      for j := 0 to |x[i]|
        invariant |acc[i]| == |x[i]|
        invariant forall s | 0 <= s < j :: acc[i][s] == was[i][s] + x[i][s]
        invariant forall s | j <= s < |x[i]| :: acc[i][s] == was[i][s]
        invariant forall r | 0 <= r < i :: acc[r] == Add(was[r], x[r])
        invariant forall r | i < r < acc.Length :: acc[r] == was[r]
      {
        acc[i] := acc[i][j := acc[i][j] + x[i][j]];
      }
      assert acc[i] == Add(was[i], x[i]);
    }
    assert acc[..] == AddM(was, x);
  }

  /** `row[i] += ridge` on the diagonal. */
  method AddRidge(acc: array<Vec>, ridge: real)
    requires forall i | 0 <= i < acc.Length :: |acc[i]| == acc.Length
    modifies acc
    ensures Rect(old(acc[..]), acc.Length)
    ensures acc[..] == AddM(old(acc[..]), ScaleM(ridge, Identity(acc.Length)))
  {
    var n := acc.Length;
    ghost var was := acc[..];
    for i := 0 to n
      invariant forall r | 0 <= r < i :: acc[r] == Add(was[r], Scale(ridge, Unit(n, r)))
      invariant forall r | i <= r < n :: acc[r] == was[r]
    {
      acc[i] := acc[i][i := acc[i][i] + ridge];
      assert acc[i] == Add(was[i], Scale(ridge, Unit(n, i)));
    }
    assert acc[..] == AddM(was, ScaleM(ridge, Identity(n)));
  }
}
