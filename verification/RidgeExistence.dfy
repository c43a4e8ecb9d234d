// A ridge of at least n times the pivot threshold keeps the n×n normal equations solvable, so that
// `fit_mar` always has an answer (flanders.rs).
module RidgeExistence {
  import opened Reals
  import opened Vectors
  import opened Matrices
  import GaussJordan
  import opened RidgeFit

  // ----- the quadratic form of a Gram matrix -----

  /** Wᵀ·(W·X) = (WᵀW)·X */
  lemma GramAssociates(w: Matrix, x: Matrix)
    requires |x| > 0 && Rect(x, Cols(x)) && Rect(w, |x|)
    ensures TransposedMul(w, Mul(w, x), |x|, Cols(x)) == Mul(TransposedMul(w, w, |x|, |x|), x)
  {
    forall i | 0 <= i < |x|
      ensures TransposedMul(w, Mul(w, x), |x|, Cols(x))[i] == Mul(TransposedMul(w, w, |x|, |x|), x)[i]
    {
      CombMul(Column(w, i), w, x);
    }
  }

  /** ⟨(Σ WᵀW)·X, X⟩ = Σ ‖W·X‖² */
  lemma {:induction false} GramForm(ws: seq<Matrix>, n: nat, x: Matrix)
    requires n <= |ws| && |x| > 0 && Rect(x, Cols(x)) && forall p | 0 <= p < |ws| :: Rect(ws[p], |x|)
    ensures Inner(Mul(Gram(ws, n, |x|), x), x) == Energy(ws, n, x)
  {
    hide Inner, Comb;
    var h, m := |x|, Cols(x);
    if n == 0 {
      MulZeroLeft(h, x);
      InnerZero(x, m);
    } else {
      GramForm(ws, n - 1, x);
      var w := ws[n-1];
      InnerMulAdd(Gram(ws, n - 1, h), TransposedMul(w, w, h, h), x, x);
      Adjoint(Mul(w, x), w, x);
      GramAssociates(w, x);
    }
  }

  /** With the ridge added: ⟨(G + λI)·X, X⟩ ≥ λ‖X‖². */
  lemma RidgeForm(ws: seq<Matrix>, x: Matrix, ridge: real)
    requires |x| > 0 && Rect(x, Cols(x)) && forall p | 0 <= p < |ws| :: Rect(ws[p], |x|)
    ensures var m := AddM(Gram(ws, |ws|, |x|), ScaleM(ridge, Identity(|x|)));
      Inner(Mul(m, x), x) >= Times(ridge, FrobeniusSq(x))
  {
    hide Inner, Comb, Times;
    var h := |x|;
    GramForm(ws, |ws|, x);
    EnergyNonNegative(ws, |ws|, x);
    InnerMulAdd(Gram(ws, |ws|, h), ScaleM(ridge, Identity(h)), x, x);
    MulScaleLeft(ridge, Identity(h), x);
    MulIdentity(x);
    InnerScale(ridge, x, x, Cols(x));
  }

  // ----- vectors with a small image -----

  predicate Small(s: Matrix, bound: real) {
    Rect(s, 1) && forall i | 0 <= i < |s| :: Abs(s[i][0]) < bound
  }

  lemma SingleDot(u: Vec, v: Vec)
    requires |u| == |v| == 1
    ensures Dot(u, v) == Times(u[0], v[0])
  {
    assert Dot(u[..0], v[..0]) == 0.0;
  }

  /** 2·s·y ≤ b·(1 + y²) for |s| < b, strictly unless y vanishes. */
  lemma SmallTerm(s: real, y: real, b: real)
    requires Abs(s) < b
    ensures 2.0 * Times(s, y) <= Times(b, 1.0 + Square(y))
    ensures 2.0 * Times(s, y) < Times(b, 1.0 + Square(y))
  {
    var z := Abs(y);
    SquareSign(z - 1.0);
    SquareOfSum(z, 1.0);
    OneTimes(z);
    OneTimes(1.0);
    assert Square(z) == Square(y) by { if y < 0.0 { Negate(y, y); Negate(-y, y); } }
    // s·y ≤ |s|·|y| ≤ b·|y|, and 2|y| ≤ 1 + y².
    assert Times(s, y) <= Times(Abs(s), z) by { SignsOut(s, y); }
    Monotone(Abs(s), b, z);
    Monotone(2.0 * z, 1.0 + Square(y), b);
    assert Times(b, 2.0 * z) == 2.0 * Times(b, z) by { Distribute(z, z, b); }
    if z == 0.0 {
      assert Times(Abs(s), 0.0) == 0.0;
      SquareSign(y);
      Positive(b, 1.0 + Square(y));
    } else {
      StrictlyMonotone(Abs(s), b, z);
    }
  }

  lemma SignsOut(s: real, y: real)
    ensures Times(s, y) <= Times(Abs(s), Abs(y))
  {
    NonNegative(Abs(s), Abs(y));
    Negate(s, y);
    Negate(-s, y);
    Negate(s, -y);
  }

  /** 2⟨s, x⟩ < b·(n + ‖x‖²) when every entry of s is below b. */
  lemma {:induction false} SmallInner(s: Matrix, x: Matrix, b: real, n: nat)
    requires |s| == |x| && 0 < n <= |s| && Small(s, b) && Rect(x, 1)
    ensures 2.0 * Inner(s[..n], x[..n]) < Times(b, n as real + FrobeniusSq(x[..n]))
  {
    var k := n - 1;
    assert s[..n][..k] == s[..k] && x[..n][..k] == x[..k];
    SingleDot(s[k], x[k]);
    SingleDot(x[k], x[k]);
    SmallTerm(s[k][0], x[k][0], b);
    Distribute(k as real + FrobeniusSq(x[..k]), 1.0 + Square(x[k][0]), b);
    if k == 0 {
      assert Times(b, 0.0) == 0.0;
    } else {
      SmallInner(s, x, b, k);
    }
  }

  lemma {:induction false} EntryWithinNorm(x: Matrix, i: nat)
    requires Rect(x, 1) && i < |x|
    ensures Square(x[i][0]) <= FrobeniusSq(x)
  {
    var k := |x| - 1;
    FrobeniusNonNegative(x[..k]);
    SingleDot(x[k], x[k]);
    SquareSign(x[k][0]);
    if i < k { EntryWithinNorm(x[..k], i); }
  }

  /** n·b ≤ λ and q ≥ 1 leave no room for 2·λ·q < b·(n + q). */
  lemma NoRoom(n: nat, b: real, ridge: real, q: real)
    requires n > 0 && b > 0.0 && ridge >= Times(n as real, b) && q >= 1.0
    ensures 2.0 * Times(ridge, q) >= Times(b, n as real + q)
  {
    var r := n as real;
    Monotone(Times(r, b), ridge, q);
    Commute(r, b);
    Associate(b, r, q);
    Monotone(1.0, q, r);
    Monotone(1.0, r, q);
    OneTimes(r);
    OneTimes(q);
    Commute(r, q);
    assert r + q <= Times(r, q) + Times(r, q);
    Monotone(r + q, Times(r, q) + Times(r, q), b);
    Distribute(Times(r, q), Times(r, q), b);
  }

  // ----- existence -----

  /** A quadratic form of at least λ‖x‖² leaves x with an entry one no image below the threshold. */
  lemma FormLeavesNoKernel(m: Matrix, x: Matrix, col: nat, ridge: real)
    requires |m| > 0 && Rect(m, |m|) && Is(x, |m|, 1) && ridge >= Times(|m| as real, GaussJordan.EPSILON)
    requires Inner(Mul(m, x), x) >= Times(ridge, FrobeniusSq(x))
    ensures !GaussJordan.AlmostKernel(m, x, col)
  {
    if GaussJordan.AlmostKernel(m, x, col) {
      ImageIsProduct(m, x);
      hide Inner, Times, Square, Mul, GaussJordan.AlmostKernel;
      var s, b := Mul(m, x), GaussJordan.EPSILON;
      SmallInner(s, x, b, |m|);
      assert s[..|m|] == s && x[..|m|] == x;
      EntryWithinNorm(x, col);
      OneSquare();
      NoRoom(|m|, b, ridge, FrobeniusSq(x));
    }
  }

  lemma ImageIsProduct(m: Matrix, x: Matrix)
    requires |m| > 0 && Rect(m, |m|) && Is(x, |m|, 1)
    ensures Mul(m, x) == GaussJordan.Image(m, x)
    ensures GaussJordan.SmallBelow(GaussJordan.Image(m, x), |m|, 0, GaussJordan.EPSILON) ==>
      Small(Mul(m, x), GaussJordan.EPSILON)
  {
  }

  /** No almost-kernel vector exists under a sufficient ridge. */
  lemma RidgeHasNoAlmostKernel(ws: seq<Matrix>, h: nat, ridge: real, x: Matrix, col: nat)
    requires h > 0 && forall p | 0 <= p < |ws| :: Rect(ws[p], h)
    requires ridge >= Times(h as real, GaussJordan.EPSILON)
    ensures !GaussJordan.AlmostKernel(AddM(Gram(ws, |ws|, h), ScaleM(ridge, Identity(h))), x, col)
  {
    hide Inner, Mul, Times, Gram, FrobeniusSq, GaussJordan.SmallBelow, GaussJordan.Image;
    if Is(x, h, 1) {
      RidgeForm(ws, x, ridge);
      FormLeavesNoKernel(AddM(Gram(ws, |ws|, h), ScaleM(ridge, Identity(h))), x, col, ridge);
    }
  }

  lemma OneSquare()
    ensures Square(1.0) == 1.0
  {
  }

  /** A ridge of at least n·1e-12 keeps the solver from giving up, whatever the designs and the
      right-hand side. */
  lemma RidgeIsSolved(ws: seq<Matrix>, h: nat, r: Matrix, ridge: real)
    requires h > 0 && forall p | 0 <= p < |ws| :: Rect(ws[p], h)
    requires Is(r, h, h) && ridge >= Times(h as real, GaussJordan.EPSILON)
    ensures RidgeSolution(Gram(ws, |ws|, h), r, ridge).Some?
  {
    hide Gram, GaussJordan.Solution, GaussJordan.StopsAt;
    var m := AddM(Gram(ws, |ws|, h), ScaleM(ridge, Identity(h)));
    GaussJordan.SolutionIsSound(m, r);
    if GaussJordan.Solution(m, r).None? {
      var col: nat :| GaussJordan.StopsAt(m, r, h, col);
      var x := StoppedVector(m, r, h, col);
      RidgeHasNoAlmostKernel(ws, h, ridge, x, col);
    }
  }

  lemma StoppedVector(m: Matrix, r: Matrix, k: nat, col: nat) returns (x: Matrix)
    requires Rect(m, |m|) && Is(r, |m|, k) && GaussJordan.StopsAt(m, r, k, col)
    ensures GaussJordan.AlmostKernel(m, x, col)
  {
    x := GaussJordan.KernelVector(GaussJordan.Elimination(m, r, k, col).value.0, col);
    GaussJordan.StoppedIsAlmostSingular(m, r, k, col);
  }

  /** So with such a ridge every fit exists, after any number of sweeps and over any history. */
  lemma {:induction false} FitExists(pairs: seq<Pair>, ridge: real, d: nat, h: nat, n: nat)
    requires Shaped(pairs, d, h)
    requires ridge >= Times(d as real, GaussJordan.EPSILON) && ridge >= Times(h as real, GaussJordan.EPSILON)
    ensures FitOf(pairs, ridge, d, h, n).Some?
  {
    hide RidgeSolution, Gram, Moment, Times;
    if n > 0 {
      FitExists(pairs, ridge, d, h, n - 1);
      var (a0, b0) := FitOf(pairs, ridge, d, h, n - 1).value;
      var ws, ts := ADesigns(pairs, b0, d), ATargets(pairs, d, h);
      RidgeIsSolved(ws, d, Moment(ws, ts, |ws|, d, d), ridge);
      var a := AStepOf(pairs, b0, d, ridge).value;
      var vs, us := BDesigns(pairs, a, h), BTargets(pairs, d, h);
      RidgeIsSolved(vs, h, Moment(vs, us, |vs|, h, h), ridge);
    }
  }
}
