// `fit_mar` of flanders.rs: the alternating least squares fit of the matrix autoregression
// Y ≈ A·X·B, with a ridge term on both factors.
module RidgeFit {
  import opened Reals
  import opened Vectors
  import opened Matrices
  import opened Wrappers
  import GaussJordan

  // ----- ridge regression with a matrix unknown -----

  /** Every design is some-rows × h and its target has the same rows and m columns. */
  predicate Paired(ws: seq<Matrix>, ts: seq<Matrix>, h: nat, m: nat) {
    && |ws| == |ts|
    && forall p | 0 <= p < |ws| :: |ws[p]| == |ts[p]| && Rect(ws[p], h) && Rect(ts[p], m)
  }

  // The sums below run over the first n pairs.

  /** Σ Wᵀ·W */
  function Gram(ws: seq<Matrix>, n: nat, h: nat): (g: Matrix)
    requires n <= |ws| && forall p | 0 <= p < |ws| :: Rect(ws[p], h)
    ensures Is(g, h, h)
  {
    if n == 0 then ZeroM(h, h)
    else AddM(Gram(ws, n - 1, h), TransposedMul(ws[n-1], ws[n-1], h, h))
  }

  /** Σ Wᵀ·T */
  function Moment(ws: seq<Matrix>, ts: seq<Matrix>, n: nat, h: nat, m: nat): (g: Matrix)
    requires n <= |ws| && Paired(ws, ts, h, m)
    ensures Is(g, h, m)
  {
    if n == 0 then ZeroM(h, m)
    else AddM(Moment(ws, ts, n - 1, h, m), TransposedMul(ws[n-1], ts[n-1], h, m))
  }

  function Residual(w: Matrix, t: Matrix, x: Matrix): (r: Matrix)
    requires |x| > 0 && Rect(x, Cols(x)) && |w| == |t| && Rect(w, |x|) && Rect(t, Cols(x))
    ensures Is(r, |t|, Cols(x))
  {
    SubM(t, Mul(w, x))
  }

  /** Σ ‖T − W·X‖² */
  function Misfit(ws: seq<Matrix>, ts: seq<Matrix>, n: nat, x: Matrix): real
    requires n <= |ws| && |x| > 0 && Rect(x, Cols(x)) && Paired(ws, ts, |x|, Cols(x))
  {
    if n == 0 then 0.0
    else Misfit(ws, ts, n - 1, x) + FrobeniusSq(Residual(ws[n-1], ts[n-1], x))
  }

  /** The ridge objective of one factor. */
  function Loss(ws: seq<Matrix>, ts: seq<Matrix>, x: Matrix, ridge: real): real
    requires |x| > 0 && Rect(x, Cols(x)) && Paired(ws, ts, |x|, Cols(x))
  {
    Misfit(ws, ts, |ws|, x) + Times(ridge, FrobeniusSq(x))
  }

  /** The normal equations (Σ WᵀW + λI)·X = Σ WᵀT. */
  predicate NormalEquations(ws: seq<Matrix>, ts: seq<Matrix>, x: Matrix, ridge: real) {
    && |x| > 0 && Rect(x, Cols(x)) && Paired(ws, ts, |x|, Cols(x))
    && Mul(AddM(Gram(ws, |ws|, |x|), ScaleM(ridge, Identity(|x|))), x) == Moment(ws, ts, |ws|, |x|, Cols(x))
  }

  /** Σ ‖W·D‖² */
  function Energy(ws: seq<Matrix>, n: nat, d: Matrix): real
    requires n <= |ws| && |d| > 0 && Rect(d, Cols(d)) && forall p | 0 <= p < |ws| :: Rect(ws[p], |d|)
  {
    if n == 0 then 0.0 else Energy(ws, n - 1, d) + FrobeniusSq(Mul(ws[n-1], d))
  }

  lemma {:induction false} EnergyNonNegative(ws: seq<Matrix>, n: nat, d: Matrix)
    requires n <= |ws| && |d| > 0 && Rect(d, Cols(d)) && forall p | 0 <= p < |ws| :: Rect(ws[p], |d|)
    ensures Energy(ws, n, d) >= 0.0
  {
    if n > 0 {
      EnergyNonNegative(ws, n - 1, d);
      FrobeniusNonNegative(Mul(ws[n-1], d));
    }
  }

  /** Σ ⟨T − W·X, W·D⟩ */
  function Cross(ws: seq<Matrix>, ts: seq<Matrix>, n: nat, x: Matrix, d: Matrix): real
    requires n <= |ws| && |x| == |d| > 0 && Cols(x) == Cols(d) && Rect(x, Cols(x)) && Rect(d, Cols(x))
    requires Paired(ws, ts, |x|, Cols(x))
  {
    if n == 0 then 0.0
    else Cross(ws, ts, n - 1, x, d) + Inner(Residual(ws[n-1], ts[n-1], x), Mul(ws[n-1], d))
  }

  lemma ResidualMove(w: Matrix, t: Matrix, x: Matrix, v: Matrix)
    requires |x| == |v| > 0 && Cols(x) == Cols(v) && Rect(x, Cols(x)) && Rect(v, Cols(x))
    requires |w| == |t| && Rect(w, |x|) && Rect(t, Cols(x))
    ensures FrobeniusSq(Residual(w, t, v)) == FrobeniusSq(Residual(w, t, x))
      - 2.0 * Inner(Residual(w, t, x), Mul(w, SubM(v, x))) + FrobeniusSq(Mul(w, SubM(v, x)))
  {
    var d := SubM(v, x);
    MulSub(w, v, x);
    assert Residual(w, t, v) == SubM(Residual(w, t, x), Mul(w, d)) by {
      forall i | 0 <= i < |w| ensures Residual(w, t, v)[i] == SubM(Residual(w, t, x), Mul(w, d))[i] {
        assert Mul(w, d)[i] == Sub(Mul(w, v)[i], Mul(w, x)[i]);
      }
    }
    FrobeniusSub(Residual(w, t, x), Mul(w, d), Cols(x));
  }

  /** Moving from X to V = X + D changes the misfit by the energy of D less twice the cross term. */
  lemma {:induction false} MisfitMove(ws: seq<Matrix>, ts: seq<Matrix>, n: nat, x: Matrix, v: Matrix)
    requires n <= |ws| && |x| == |v| > 0 && Cols(x) == Cols(v) && Rect(x, Cols(x)) && Rect(v, Cols(x))
    requires Paired(ws, ts, |x|, Cols(x))
    ensures Misfit(ws, ts, n, v)
         == Misfit(ws, ts, n, x) - 2.0 * Cross(ws, ts, n, x, SubM(v, x)) + Energy(ws, n, SubM(v, x))
  {
    hide Inner, Comb;
    if n > 0 {
      MisfitMove(ws, ts, n - 1, x, v);
      ResidualMove(ws[n-1], ts[n-1], x, v);
    }
  }

  lemma CrossOne(w: Matrix, t: Matrix, x: Matrix, d: Matrix)
    requires |x| == |d| > 0 && Cols(x) == Cols(d) && Rect(x, Cols(x)) && Rect(d, Cols(x))
    requires |w| == |t| && Rect(w, |x|) && Rect(t, Cols(x))
    ensures Inner(Residual(w, t, x), Mul(w, d))
         == Inner(TransposedMul(w, t, |x|, Cols(x)), d) - Inner(Mul(TransposedMul(w, w, |x|, |x|), x), d)
  {
    Adjoint(Residual(w, t, x), w, d);
    TransposedResidual(w, t, x);
    InnerSub(TransposedMul(w, t, |x|, Cols(x)), Mul(TransposedMul(w, w, |x|, |x|), x), d, Cols(x));
  }

  /** The cross terms add up to ⟨Σ WᵀT − (Σ WᵀW)·X, D⟩. */
  lemma {:induction false} CrossCollects(ws: seq<Matrix>, ts: seq<Matrix>, n: nat, x: Matrix, d: Matrix)
    requires n <= |ws| && |x| == |d| > 0 && Cols(x) == Cols(d) && Rect(x, Cols(x)) && Rect(d, Cols(x))
    requires Paired(ws, ts, |x|, Cols(x))
    ensures Cross(ws, ts, n, x, d)
         == Inner(Moment(ws, ts, n, |x|, Cols(x)), d) - Inner(Mul(Gram(ws, n, |x|), x), d)
  {
    hide Inner, Comb;
    var h, m := |x|, Cols(x);
    if n == 0 {
      MulZeroLeft(h, x);
      InnerZero(d, m);
    } else {
      CrossCollects(ws, ts, n - 1, x, d);
      CrossStep(Gram(ws, n - 1, h), Moment(ws, ts, n - 1, h, m), ws[n-1], ts[n-1], x, d);
    }
  }

  lemma CrossStep(g: Matrix, r: Matrix, w: Matrix, t: Matrix, x: Matrix, d: Matrix)
    requires |x| == |d| > 0 && Cols(x) == Cols(d) && Rect(x, Cols(x)) && Rect(d, Cols(x))
    requires |w| == |t| && Rect(w, |x|) && Rect(t, Cols(x)) && Is(g, |x|, |x|) && Is(r, |x|, Cols(x))
    ensures Inner(r, d) - Inner(Mul(g, x), d) + Inner(Residual(w, t, x), Mul(w, d))
         == Inner(AddM(r, TransposedMul(w, t, |x|, Cols(x))), d)
            - Inner(Mul(AddM(g, TransposedMul(w, w, |x|, |x|)), x), d)
  {
    CrossOne(w, t, x, d);
    InnerAdd(r, TransposedMul(w, t, |x|, Cols(x)), d, Cols(x));
    InnerMulAdd(g, TransposedMul(w, w, |x|, |x|), x, d);
  }

  lemma InnerMulAdd(g: Matrix, g': Matrix, x: Matrix, d: Matrix)
    requires |x| == |d| > 0 && Cols(x) == Cols(d) && Rect(x, Cols(x)) && Rect(d, Cols(x))
    requires Is(g, |x|, |x|) && Is(g', |x|, |x|)
    ensures Inner(Mul(AddM(g, g'), x), d) == Inner(Mul(g, x), d) + Inner(Mul(g', x), d)
  {
    MulAddLeft(g, g', x);
    InnerAdd(Mul(g, x), Mul(g', x), d, Cols(x));
  }

  /** Wᵀ·(T − W·X) = WᵀT − (WᵀW)·X */
  lemma TransposedResidual(w: Matrix, t: Matrix, x: Matrix)
    requires |x| > 0 && Rect(x, Cols(x)) && |w| == |t| && Rect(w, |x|) && Rect(t, Cols(x))
    ensures TransposedMul(w, Residual(w, t, x), |x|, Cols(x))
         == SubM(TransposedMul(w, t, |x|, Cols(x)), Mul(TransposedMul(w, w, |x|, |x|), x))
  {
    var h, m := |x|, Cols(x);
    forall i | 0 <= i < h
      ensures TransposedMul(w, Residual(w, t, x), h, m)[i]
           == SubM(TransposedMul(w, t, h, m), Mul(TransposedMul(w, w, h, h), x))[i]
    {
      var c := Column(w, i);
      CombRows(c, t, Mul(w, x), m);
      CombMul(c, w, x);
    }
  }

  /** At a solution of the normal equations the loss is a minimum, by a completed square. */
  lemma RidgeIdentity(ws: seq<Matrix>, ts: seq<Matrix>, x: Matrix, v: Matrix, ridge: real)
    requires NormalEquations(ws, ts, x, ridge)
    requires |v| == |x| && Cols(v) == Cols(x) && Rect(v, Cols(x))
    ensures Loss(ws, ts, v, ridge)
         == Loss(ws, ts, x, ridge) + Energy(ws, |ws|, SubM(v, x)) + Times(ridge, FrobeniusSq(SubM(v, x)))
  {
    hide Inner, Comb, Times;
    var h, m, d := |x|, Cols(x), SubM(v, x);
    MisfitMove(ws, ts, |ws|, x, v);
    CrossAtSolution(ws, ts, x, d, ridge);
    FrobeniusMove(x, v, m);
    RidgeArithmetic(ridge, Misfit(ws, ts, |ws|, v), Misfit(ws, ts, |ws|, x), Cross(ws, ts, |ws|, x, d),
      Energy(ws, |ws|, d), FrobeniusSq(v), FrobeniusSq(x), Inner(x, d), FrobeniusSq(d));
  }

  lemma RidgeArithmetic(c: real, mv: real, mx: real, cross: real, e: real, fv: real, fx: real, ip: real, fd: real)
    requires mv == mx - 2.0 * cross + e && cross == Times(c, ip) && fv == fx + 2.0 * ip + fd
    ensures mv + Times(c, fv) == mx + Times(c, fx) + e + Times(c, fd)
  {
    Distribute(fx + 2.0 * ip, fd, c);
    Distribute(fx, 2.0 * ip, c);
    Distribute(ip, ip, c);
  }

  lemma FrobeniusMove(x: Matrix, v: Matrix, m: nat)
    requires |x| == |v| && Rect(x, m) && Rect(v, m)
    ensures FrobeniusSq(v) == FrobeniusSq(x) + 2.0 * Inner(x, SubM(v, x)) + FrobeniusSq(SubM(v, x))
  {
    InnerSub(v, x, x, m);
    FrobeniusSub(v, x, m);
    InnerComm(v, x);
  }

  /** The right-hand side is (Σ WᵀW + λI)·X, so the cross terms are λ⟨X, D⟩. */
  lemma CrossAtSolution(ws: seq<Matrix>, ts: seq<Matrix>, x: Matrix, d: Matrix, ridge: real)
    requires NormalEquations(ws, ts, x, ridge)
    requires |d| == |x| && Cols(d) == Cols(x) && Rect(d, Cols(x))
    ensures Cross(ws, ts, |ws|, x, d) == Times(ridge, Inner(x, d))
  {
    hide Inner, Comb, Times;
    var h, m := |x|, Cols(x);
    CrossCollects(ws, ts, |ws|, x, d);
    MulAddLeft(Gram(ws, |ws|, h), ScaleM(ridge, Identity(h)), x);
    MulScaleLeft(ridge, Identity(h), x);
    MulIdentity(x);
    InnerAdd(Mul(Gram(ws, |ws|, h), x), ScaleM(ridge, x), d, m);
    InnerScale(ridge, x, d, m);
  }

  lemma RidgeMinimum(ws: seq<Matrix>, ts: seq<Matrix>, x: Matrix, v: Matrix, ridge: real)
    requires NormalEquations(ws, ts, x, ridge) && ridge >= 0.0
    requires |v| == |x| && Cols(v) == Cols(x) && Rect(v, Cols(x))
    ensures Loss(ws, ts, x, ridge) <= Loss(ws, ts, v, ridge)
    ensures ridge > 0.0 && v != x ==> Loss(ws, ts, x, ridge) < Loss(ws, ts, v, ridge)
  {
    var d := SubM(v, x);
    RidgeIdentity(ws, ts, x, v, ridge);
    EnergyNonNegative(ws, |ws|, d);
    FrobeniusNonNegative(d);
    NonNegative(ridge, FrobeniusSq(d));
    if ridge > 0.0 {
      SignOfFactor(ridge, FrobeniusSq(d));
      if FrobeniusSq(d) == 0.0 {
        forall i | 0 <= i < |v| ensures v[i] == x[i] {
          assert d[i] == Zero(Cols(x));
          forall j | 0 <= j < Cols(x) ensures v[i][j] == x[i][j] {
            assert d[i][j] == 0.0;
          }
        }
      }
    }
  }

  // ----- the two-factor objective -----

  type Pair = (Matrix, Matrix)

  predicate Shaped(pairs: seq<Pair>, d: nat, h: nat) {
    && d > 0 && h > 0
    && forall p | 0 <= p < |pairs| :: Is(pairs[p].0, d, h) && Is(pairs[p].1, d, h)
  }

  /** Σ ‖Y − A·X·B‖² */
  function Error(pairs: seq<Pair>, n: nat, a: Matrix, b: Matrix): real
    requires n <= |pairs| && Shaped(pairs, |a|, |b|) && Is(a, |a|, |a|) && Is(b, |b|, |b|)
  {
    if n == 0 then 0.0
    else Error(pairs, n - 1, a, b) + FrobeniusSq(SubM(pairs[n-1].1, Mul(a, Mul(pairs[n-1].0, b))))
  }

  /** J = Σ ‖Y − A·X·B‖² + λ‖A‖² + λ‖B‖² */
  function Objective(pairs: seq<Pair>, a: Matrix, b: Matrix, ridge: real): real
    requires Shaped(pairs, |a|, |b|) && Is(a, |a|, |a|) && Is(b, |b|, |b|)
  {
    Error(pairs, |pairs|, a, b) + Times(ridge, FrobeniusSq(a)) + Times(ridge, FrobeniusSq(b))
  }

  /** For fixed B the designs are the Zᵀ = (X·B)ᵀ, the targets the Yᵀ, and the unknown is Aᵀ. */
  function ADesigns(pairs: seq<Pair>, b: Matrix, d: nat): (ws: seq<Matrix>)
    requires Shaped(pairs, d, |b|) && Is(b, |b|, |b|)
    ensures |ws| == |pairs| && forall p | 0 <= p < |ws| :: Is(ws[p], |b|, d)
  {
    seq(|pairs|, p requires 0 <= p < |pairs| => Transpose(Mul(pairs[p].0, b)))
  }

  function ATargets(pairs: seq<Pair>, d: nat, h: nat): (ts: seq<Matrix>)
    requires Shaped(pairs, d, h)
    ensures |ts| == |pairs| && forall p | 0 <= p < |ts| :: Is(ts[p], h, d)
  {
    seq(|pairs|, p requires 0 <= p < |pairs| => Transpose(pairs[p].1))
  }

  /** For fixed A the designs are the W = A·X and the targets the Y. */
  function BDesigns(pairs: seq<Pair>, a: Matrix, h: nat): (ws: seq<Matrix>)
    requires Shaped(pairs, |a|, h) && Is(a, |a|, |a|)
    ensures |ws| == |pairs| && forall p | 0 <= p < |ws| :: Is(ws[p], |a|, h)
  {
    seq(|pairs|, p requires 0 <= p < |pairs| => Mul(a, pairs[p].0))
  }

  function BTargets(pairs: seq<Pair>, d: nat, h: nat): (ts: seq<Matrix>)
    requires Shaped(pairs, d, h)
    ensures |ts| == |pairs| && forall p | 0 <= p < |ts| :: Is(ts[p], d, h)
  {
    seq(|pairs|, p requires 0 <= p < |pairs| => pairs[p].1)
  }

  lemma {:induction false} ErrorIsAMisfit(pairs: seq<Pair>, n: nat, a: Matrix, b: Matrix,
                                          ws: seq<Matrix>, ts: seq<Matrix>, at: Matrix)
    requires n <= |pairs| && Shaped(pairs, |a|, |b|) && Is(a, |a|, |a|) && Is(b, |b|, |b|)
    requires ws == ADesigns(pairs, b, |a|) && ts == ATargets(pairs, |a|, |b|) && at == Transpose(a)
    requires Paired(ws, ts, |at|, Cols(at))
    ensures Error(pairs, n, a, b) == Misfit(ws, ts, n, at)
  {
    hide Inner, Column, Comb;
    if n > 0 {
      ErrorIsAMisfit(pairs, n - 1, a, b, ws, ts, at);
      ResidualTransposed(pairs[n-1].1, a, Mul(pairs[n-1].0, b), |a|, |b|);
    }
  }

  lemma ResidualTransposed(y: Matrix, a: Matrix, z: Matrix, d: nat, h: nat)
    requires d > 0 && h > 0 && Is(y, d, h) && Is(a, d, d) && Is(z, d, h)
    ensures FrobeniusSq(SubM(y, Mul(a, z)))
         == FrobeniusSq(Residual(Transpose(z), Transpose(y), Transpose(a)))
  {
    var e := SubM(y, Mul(a, z));
    TransposeMul(a, z);
    TransposeSub(y, Mul(a, z));
    FrobeniusTranspose(e, h);
    assert ColumnsOf(e, h) == Transpose(e);
  }

  lemma {:induction false} ErrorIsBMisfit(pairs: seq<Pair>, n: nat, a: Matrix, b: Matrix)
    requires n <= |pairs| && Shaped(pairs, |a|, |b|) && Is(a, |a|, |a|) && Is(b, |b|, |b|)
    ensures Error(pairs, n, a, b) == Misfit(BDesigns(pairs, a, |b|), BTargets(pairs, |a|, |b|), n, b)
  {
    hide Inner, Comb;
    if n > 0 {
      var (x, y) := pairs[n-1];
      ErrorIsBMisfit(pairs, n - 1, a, b);
      ResidualRegrouped(y, a, x, b, |a|, |b|);
      assert BDesigns(pairs, a, |b|)[n-1] == Mul(a, x);
      assert BTargets(pairs, |a|, |b|)[n-1] == y;
    }
  }

  lemma ResidualRegrouped(y: Matrix, a: Matrix, x: Matrix, b: Matrix, d: nat, h: nat)
    requires d > 0 && h > 0 && Is(y, d, h) && Is(a, d, d) && Is(x, d, h) && Is(b, h, h)
    ensures SubM(y, Mul(a, Mul(x, b))) == Residual(Mul(a, x), y, b)
  {
    MulAssociative(a, x, b);
  }

  lemma ObjectiveAsA(pairs: seq<Pair>, a: Matrix, b: Matrix, ridge: real)
    requires Shaped(pairs, |a|, |b|) && Is(a, |a|, |a|) && Is(b, |b|, |b|)
    ensures Objective(pairs, a, b, ridge)
         == Loss(ADesigns(pairs, b, |a|), ATargets(pairs, |a|, |b|), Transpose(a), ridge)
            + Times(ridge, FrobeniusSq(b))
  {
    ErrorIsAMisfit(pairs, |pairs|, a, b, ADesigns(pairs, b, |a|), ATargets(pairs, |a|, |b|), Transpose(a));
    FrobeniusTranspose(a, |a|);
    assert ColumnsOf(a, |a|) == Transpose(a);
  }

  /** The A-step's normal equations make A the best left factor for this B. */
  lemma AStepIsOptimal(pairs: seq<Pair>, a: Matrix, b: Matrix, ridge: real, a': Matrix)
    requires Shaped(pairs, |a|, |b|) && Is(a, |a|, |a|) && Is(b, |b|, |b|) && Is(a', |a|, |a|)
    requires NormalEquations(ADesigns(pairs, b, |a|), ATargets(pairs, |a|, |b|), Transpose(a), ridge)
    requires ridge >= 0.0
    ensures Objective(pairs, a, b, ridge) <= Objective(pairs, a', b, ridge)
    ensures ridge > 0.0 && a' != a ==> Objective(pairs, a, b, ridge) < Objective(pairs, a', b, ridge)
  {
    RidgeMinimum(ADesigns(pairs, b, |a|), ATargets(pairs, |a|, |b|), Transpose(a), Transpose(a'), ridge);
    ObjectiveAsA(pairs, a, b, ridge);
    ObjectiveAsA(pairs, a', b, ridge);
    TransposeTwice(a);
    TransposeTwice(a');
  }

  /** The B-step's normal equations make B the best right factor for this A. */
  lemma BStepIsOptimal(pairs: seq<Pair>, a: Matrix, b: Matrix, ridge: real, b': Matrix)
    requires Shaped(pairs, |a|, |b|) && Is(a, |a|, |a|) && Is(b, |b|, |b|) && Is(b', |b|, |b|)
    requires NormalEquations(BDesigns(pairs, a, |b|), BTargets(pairs, |a|, |b|), b, ridge)
    requires ridge >= 0.0
    ensures Objective(pairs, a, b, ridge) <= Objective(pairs, a, b', ridge)
    ensures ridge > 0.0 && b' != b ==> Objective(pairs, a, b, ridge) < Objective(pairs, a, b', ridge)
  {
    RidgeMinimum(BDesigns(pairs, a, |b|), BTargets(pairs, |a|, |b|), b, b', ridge);
    ErrorIsBMisfit(pairs, |pairs|, a, b);
    ErrorIsBMisfit(pairs, |pairs|, a, b');
  }

  // ----- the source's loops -----

  lemma SolvedIsProduct(g: Matrix, r: Matrix, x: Matrix, k: nat)
    requires |g| == |x| > 0 && Is(x, |g|, k) && GaussJordan.Solves(g, r, x, k)
    ensures Mul(g, x) == r
  {
  }

  /** One pair's contribution to the A-step sums is Wᵀ·W and (Wᵀ·T)ᵀ for W = Zᵀ, T = Yᵀ. */
  lemma AContribution(z: Matrix, y: Matrix, d: nat, h: nat)
    requires d > 0 && h > 0 && Is(z, d, h) && Is(y, d, h)
    ensures Mul(z, Transpose(z)) == TransposedMul(Transpose(z), Transpose(z), d, d)
    ensures Transpose(Mul(y, Transpose(z))) == TransposedMul(Transpose(z), Transpose(y), d, d)
  {
    var zt := Transpose(z);
    forall i | 0 <= i < d ensures Column(zt, i) == z[i] {
    }
    TransposeMul(y, zt);
    TransposeTwice(z);
  }

  lemma BContribution(w: Matrix, y: Matrix, d: nat, h: nat)
    requires d > 0 && h > 0 && Is(w, d, h) && Is(y, d, h)
    ensures Mul(Transpose(w), w) == TransposedMul(w, w, h, h)
    ensures Mul(Transpose(w), y) == TransposedMul(w, y, h, h)
  {
  }

  lemma TransposeZero(d: nat)
    requires d > 0
    ensures Transpose(ZeroM(d, d)) == ZeroM(d, d)
  {
    forall j | 0 <= j < d ensures Transpose(ZeroM(d, d))[j] == Zero(d) {
    }
  }

  lemma TransposeAdd(a: Matrix, b: Matrix, d: nat)
    requires d > 0 && Is(a, d, d) && Is(b, d, d)
    ensures Transpose(AddM(a, b)) == AddM(Transpose(a), Transpose(b))
  {
    forall j | 0 <= j < d ensures Transpose(AddM(a, b))[j] == AddM(Transpose(a), Transpose(b))[j] {
      assert Column(AddM(a, b), j) == Add(Column(a, j), Column(b, j));
    }
  }

  /** One pair's turn in the A-step sums. */
  method AddToA(zzt: array<Vec>, yzt: array<Vec>, x: Matrix, y: Matrix, b: Matrix)
    requires zzt != yzt && zzt.Length == yzt.Length > 0 && |b| > 0 && Is(b, |b|, |b|)
    requires Is(zzt[..], zzt.Length, zzt.Length) && Is(yzt[..], zzt.Length, zzt.Length)
    requires Is(x, zzt.Length, |b|) && Is(y, zzt.Length, |b|)
    modifies zzt, yzt
    ensures Is(old(zzt[..]), zzt.Length, zzt.Length) && Is(old(yzt[..]), zzt.Length, zzt.Length)
    ensures Is(zzt[..], zzt.Length, zzt.Length) && Is(yzt[..], zzt.Length, zzt.Length)
    ensures var zt := Transpose(Mul(x, b));
      && zzt[..] == AddM(old(zzt[..]), TransposedMul(zt, zt, zzt.Length, zzt.Length))
      && Transpose(yzt[..])
         == AddM(Transpose(old(yzt[..])), TransposedMul(zt, Transpose(y), zzt.Length, zzt.Length))
  {
    var z := Matmul(x, b);
    var zt := TransposeOf(z);
    var zz := Matmul(z, zt);
    var yz := Matmul(y, zt);
    AContribution(z, y, zzt.Length, |b|);
    TransposeAdd(yzt[..], yz, zzt.Length);
    Accumulate(zzt, zz);
    Accumulate(yzt, yz);
  }

  /** One pair's turn in the B-step sums. */
  method AddToB(wtw: array<Vec>, wty: array<Vec>, x: Matrix, y: Matrix, a: Matrix)
    requires wtw != wty && wtw.Length == wty.Length > 0 && |a| > 0 && Is(a, |a|, |a|)
    requires Is(wtw[..], wtw.Length, wtw.Length) && Is(wty[..], wtw.Length, wtw.Length)
    requires Is(x, |a|, wtw.Length) && Is(y, |a|, wtw.Length)
    modifies wtw, wty
    ensures Is(old(wtw[..]), wtw.Length, wtw.Length) && Is(old(wty[..]), wtw.Length, wtw.Length)
    ensures wtw[..] == AddM(old(wtw[..]), TransposedMul(Mul(a, x), Mul(a, x), wtw.Length, wtw.Length))
    ensures wty[..] == AddM(old(wty[..]), TransposedMul(Mul(a, x), y, wtw.Length, wtw.Length))
  {
    var w := Matmul(a, x);
    var wt := TransposeOf(w);
    var ww := Matmul(wt, w);
    var wy := Matmul(wt, y);
    BContribution(w, y, |a|, wtw.Length);
    Accumulate(wtw, ww);
    Accumulate(wty, wy);
  }

  lemma SumsStart(ws: seq<Matrix>, ts: seq<Matrix>, h: nat, m: nat)
    requires Paired(ws, ts, h, m)
    ensures Gram(ws, 0, h) == ZeroM(h, h) && Moment(ws, ts, 0, h, m) == ZeroM(h, m)
  {
  }

  lemma SumsStep(ws: seq<Matrix>, ts: seq<Matrix>, p: nat, h: nat, m: nat)
    requires p < |ws| && Paired(ws, ts, h, m)
    ensures Gram(ws, p + 1, h) == AddM(Gram(ws, p, h), TransposedMul(ws[p], ws[p], h, h))
    ensures Moment(ws, ts, p + 1, h, m) == AddM(Moment(ws, ts, p, h, m), TransposedMul(ws[p], ts[p], h, m))
  {
  }

  method SumsForA(pairs: seq<Pair>, b: Matrix, d: nat) returns (zzt: array<Vec>, yzt: Matrix)
    requires Shaped(pairs, d, |b|) && Is(b, |b|, |b|)
    ensures fresh(zzt) && zzt.Length == d
    ensures zzt[..] == Gram(ADesigns(pairs, b, d), |pairs|, d)
    ensures Is(yzt, d, d)
    ensures Transpose(yzt) == Moment(ADesigns(pairs, b, d), ATargets(pairs, d, |b|), |pairs|, d, d)
  {
    hide TransposedMul, Transpose, Mul, Gram, Moment;
    ghost var ws, ts := ADesigns(pairs, b, d), ATargets(pairs, d, |b|);
    zzt := new Vec[d](_ => Zero(d));
    var sums := new Vec[d](_ => Zero(d));
    assert zzt[..] == ZeroM(d, d) && sums[..] == ZeroM(d, d);
    TransposeZero(d);
    SumsStart(ws, ts, d, d);
    for p := 0 to |pairs|
      invariant Is(zzt[..], d, d) && Is(sums[..], d, d)
      invariant zzt[..] == Gram(ws, p, d)
      invariant Transpose(sums[..]) == Moment(ws, ts, p, d, d)
    {
      SumsStep(ws, ts, p, d, d);
      AddToA(zzt, sums, pairs[p].0, pairs[p].1, b);
    }
    yzt := sums[..];
  }

  method SumsForB(pairs: seq<Pair>, a: Matrix, h: nat) returns (wtw: array<Vec>, wty: Matrix)
    requires Shaped(pairs, |a|, h) && Is(a, |a|, |a|)
    ensures fresh(wtw) && wtw.Length == h
    ensures wtw[..] == Gram(BDesigns(pairs, a, h), |pairs|, h)
    ensures Is(wty, h, h) && wty == Moment(BDesigns(pairs, a, h), BTargets(pairs, |a|, h), |pairs|, h, h)
  {
    hide TransposedMul, Mul, Gram, Moment;
    ghost var ws, ts := BDesigns(pairs, a, h), BTargets(pairs, |a|, h);
    wtw := new Vec[h](_ => Zero(h));
    var sums := new Vec[h](_ => Zero(h));
    assert wtw[..] == ZeroM(h, h) && sums[..] == ZeroM(h, h);
    SumsStart(ws, ts, h, h);
    for p := 0 to |pairs|
      invariant Is(wtw[..], h, h) && Is(sums[..], h, h)
      invariant wtw[..] == Gram(ws, p, h)
      invariant sums[..] == Moment(ws, ts, p, h, h)
    {
      SumsStep(ws, ts, p, h, h);
      AddToB(wtw, sums, pairs[p].0, pairs[p].1, a);
    }
    wty := sums[..];
  }

  /** The solution of (G + λI)·X = R, if elimination finds one. */
  function RidgeSolution(g: Matrix, r: Matrix, ridge: real): (x: Option<Matrix>)
    requires |g| > 0 && Is(g, |g|, |g|) && Is(r, |g|, |g|)
    ensures x.Some? ==> Is(x.value, |g|, |g|)
  {
    GaussJordan.Solution(AddM(g, ScaleM(ridge, Identity(|g|))), r)
  }

  lemma RidgeSolves(g: Matrix, r: Matrix, ridge: real)
    requires |g| > 0 && Is(g, |g|, |g|) && Is(r, |g|, |g|) && RidgeSolution(g, r, ridge).Some?
    ensures Mul(AddM(g, ScaleM(ridge, Identity(|g|))), RidgeSolution(g, r, ridge).value) == r
  {
    hide GaussJordan.Solution;
    var m, x := AddM(g, ScaleM(ridge, Identity(|g|))), RidgeSolution(g, r, ridge).value;
    GaussJordan.SolutionIsSound(m, r);
    assert GaussJordan.Solves(m, r, x, |g|);
    SolvedIsProduct(m, r, x, |g|);
  }

  /** The ridge is added to the Gram sum in place, and the system solved. */
  method SolveRidge(g: array<Vec>, rhs: Matrix, ridge: real) returns (r: Option<Matrix>)
    requires g.Length > 0 && Is(g[..], g.Length, g.Length) && Is(rhs, g.Length, g.Length)
    modifies g
    ensures Is(old(g[..]), g.Length, g.Length)
    ensures r == RidgeSolution(old(g[..]), rhs, ridge)
  {
    AddRidge(g, ridge);
    r := GaussJordan.Solve(g[..], rhs);
  }

  /** What the A-step of one sweep answers: the system is solved for Aᵀ. */
  function AStepOf(pairs: seq<Pair>, b: Matrix, d: nat, ridge: real): (a: Option<Matrix>)
    requires Shaped(pairs, d, |b|) && Is(b, |b|, |b|)
    ensures a.Some? ==> Is(a.value, d, d)
  {
    var ws, ts := ADesigns(pairs, b, d), ATargets(pairs, d, |b|);
    match RidgeSolution(Gram(ws, |ws|, d), Moment(ws, ts, |ws|, d, d), ridge)
    case None => None
    case Some(x) => Some(Transpose(x))
  }

  function BStepOf(pairs: seq<Pair>, a: Matrix, h: nat, ridge: real): (b: Option<Matrix>)
    requires Shaped(pairs, |a|, h) && Is(a, |a|, |a|)
    ensures b.Some? ==> Is(b.value, h, h)
  {
    var ws, ts := BDesigns(pairs, a, h), BTargets(pairs, |a|, h);
    RidgeSolution(Gram(ws, |ws|, h), Moment(ws, ts, |ws|, h, h), ridge)
  }

  /** The factors after n sweeps from the identities. */
  function FitOf(pairs: seq<Pair>, ridge: real, d: nat, h: nat, n: nat): (r: Option<Pair>)
    requires Shaped(pairs, d, h)
    ensures r.Some? ==> Is(r.value.0, d, d) && Is(r.value.1, h, h)
  {
    if n == 0 then Some((Identity(d), Identity(h)))
    else
      match FitOf(pairs, ridge, d, h, n - 1)
      case None => None
      case Some((a0, b0)) =>
        match AStepOf(pairs, b0, d, ridge)
        case None => None
        case Some(a) =>
          match BStepOf(pairs, a, h, ridge)
          case None => None
          case Some(b) => Some((a, b))
  }

  lemma {:induction false} FailedFitStaysFailed(pairs: seq<Pair>, ridge: real, d: nat, h: nat, t: nat, n: nat)
    requires Shaped(pairs, d, h) && t <= n && FitOf(pairs, ridge, d, h, t).None?
    ensures FitOf(pairs, ridge, d, h, n).None?
  {
    hide AStepOf, BStepOf;
    if t < n { FailedFitStaysFailed(pairs, ridge, d, h, t, n - 1); }
  }

  /** The A-step of one sweep. */
  method AStep(pairs: seq<Pair>, b: Matrix, d: nat, ridge: real) returns (r: Option<Matrix>)
    requires Shaped(pairs, d, |b|) && Is(b, |b|, |b|)
    ensures r == AStepOf(pairs, b, d, ridge)
  {
    hide Gram, Moment, RidgeSolution;
    var zzt, yzt := SumsForA(pairs, b, d);
    var rhs := TransposeOf(yzt);
    var solved := SolveRidge(zzt, rhs, ridge);
    if solved.None? { return None; }
    var a := TransposeOf(solved.value);
    r := Some(a);
  }

  /** The B-step of one sweep. */
  method BStep(pairs: seq<Pair>, a: Matrix, h: nat, ridge: real) returns (r: Option<Matrix>)
    requires Shaped(pairs, |a|, h) && Is(a, |a|, |a|)
    ensures r == BStepOf(pairs, a, h, ridge)
  {
    var wtw, wty := SumsForB(pairs, a, h);
    r := SolveRidge(wtw, wty, ridge);
  }

  /** Each step's answer satisfies its normal equations. */
  lemma StepsAreNormal(pairs: seq<Pair>, a: Matrix, b: Matrix, ridge: real)
    requires Shaped(pairs, |a|, |b|) && Is(a, |a|, |a|) && Is(b, |b|, |b|)
    ensures AStepOf(pairs, b, |a|, ridge) == Some(a) ==>
      NormalEquations(ADesigns(pairs, b, |a|), ATargets(pairs, |a|, |b|), Transpose(a), ridge)
    ensures BStepOf(pairs, a, |b|, ridge) == Some(b) ==>
      NormalEquations(BDesigns(pairs, a, |b|), BTargets(pairs, |a|, |b|), b, ridge)
  {
    hide RidgeSolution, Gram, Moment;
    if AStepOf(pairs, b, |a|, ridge) == Some(a) {
      var ws, ts := ADesigns(pairs, b, |a|), ATargets(pairs, |a|, |b|);
      var g, r := Gram(ws, |ws|, |a|), Moment(ws, ts, |ws|, |a|, |a|);
      RidgeSolves(g, r, ridge);
      TransposeTwice(RidgeSolution(g, r, ridge).value);
    }
    if BStepOf(pairs, a, |b|, ridge) == Some(b) {
      var ws, ts := BDesigns(pairs, a, |b|), BTargets(pairs, |a|, |b|);
      RidgeSolves(Gram(ws, |ws|, |b|), Moment(ws, ts, |ws|, |b|, |b|), ridge);
    }
  }

  /** No left factor does better than A against this B. */
  ghost predicate BestLeft(pairs: seq<Pair>, a: Matrix, b: Matrix, ridge: real)
    requires Shaped(pairs, |a|, |b|) && Is(a, |a|, |a|) && Is(b, |b|, |b|)
  {
    forall a': Matrix | Is(a', |a|, |a|) :: Objective(pairs, a, b, ridge) <= Objective(pairs, a', b, ridge)
  }

  /** No right factor does better than B against this A. */
  ghost predicate BestRight(pairs: seq<Pair>, a: Matrix, b: Matrix, ridge: real)
    requires Shaped(pairs, |a|, |b|) && Is(a, |a|, |a|) && Is(b, |b|, |b|)
  {
    forall b': Matrix | Is(b', |b|, |b|) :: Objective(pairs, a, b, ridge) <= Objective(pairs, a, b', ridge)
  }

  lemma AStepIsBest(pairs: seq<Pair>, a: Matrix, b: Matrix, ridge: real)
    requires Shaped(pairs, |a|, |b|) && Is(a, |a|, |a|) && Is(b, |b|, |b|) && ridge >= 0.0
    requires AStepOf(pairs, b, |a|, ridge) == Some(a)
    ensures BestLeft(pairs, a, b, ridge)
  {
    hide AStepOf, Objective;
    StepsAreNormal(pairs, a, b, ridge);
    forall a': Matrix | Is(a', |a|, |a|)
      ensures Objective(pairs, a, b, ridge) <= Objective(pairs, a', b, ridge)
    {
      AStepIsOptimal(pairs, a, b, ridge, a');
    }
  }

  lemma BStepIsBest(pairs: seq<Pair>, a: Matrix, b: Matrix, ridge: real)
    requires Shaped(pairs, |a|, |b|) && Is(a, |a|, |a|) && Is(b, |b|, |b|) && ridge >= 0.0
    requires BStepOf(pairs, a, |b|, ridge) == Some(b)
    ensures BestRight(pairs, a, b, ridge)
  {
    hide BStepOf, Objective;
    StepsAreNormal(pairs, a, b, ridge);
    forall b': Matrix | Is(b', |b|, |b|)
      ensures Objective(pairs, a, b, ridge) <= Objective(pairs, a, b', ridge)
    {
      BStepIsOptimal(pairs, a, b, ridge, b');
    }
  }

  /** One sweep: A is the best left factor for the old B, the new B is the best right factor for that A,
      and the objective has not grown. */
  lemma SweepFits(pairs: seq<Pair>, a0: Matrix, b0: Matrix, a: Matrix, b: Matrix, ridge: real, d: nat, h: nat)
    requires Shaped(pairs, d, h) && Is(a0, d, d) && Is(b0, h, h) && Is(a, d, d) && Is(b, h, h)
    requires ridge >= 0.0
    requires AStepOf(pairs, b0, d, ridge) == Some(a) && BStepOf(pairs, a, h, ridge) == Some(b)
    ensures BestLeft(pairs, a, b0, ridge) && BestRight(pairs, a, b, ridge)
    ensures Objective(pairs, a, b, ridge) <= Objective(pairs, a0, b0, ridge)
  {
    hide Objective, AStepOf, BStepOf;
    AStepIsBest(pairs, a, b0, ridge);
    BStepIsBest(pairs, a, b, ridge);
    assert Objective(pairs, a, b0, ridge) <= Objective(pairs, a0, b0, ridge);
    assert Objective(pairs, a, b, ridge) <= Objective(pairs, a, b0, ridge);
  }

  /** What n sweeps have achieved: no worse than the start and than the sweep before, B the best partner
      of A, and A the best partner of the previous sweep's B. */
  ghost predicate Fitted(pairs: seq<Pair>, ridge: real, d: nat, h: nat, n: nat)
    requires Shaped(pairs, d, h) && FitOf(pairs, ridge, d, h, n).Some?
  {
    var (a, b) := FitOf(pairs, ridge, d, h, n).value;
    && Objective(pairs, a, b, ridge) <= Objective(pairs, Identity(d), Identity(h), ridge)
    && (n > 0 ==>
          && BestRight(pairs, a, b, ridge)
          && FitOf(pairs, ridge, d, h, n - 1).Some?
          && var (a0, b0) := FitOf(pairs, ridge, d, h, n - 1).value;
             BestLeft(pairs, a, b0, ridge) && Objective(pairs, a, b, ridge) <= Objective(pairs, a0, b0, ridge))
  }

  /** Alternating least squares never gets worse. */
  lemma {:induction false} FitIsFitted(pairs: seq<Pair>, ridge: real, d: nat, h: nat, n: nat)
    requires Shaped(pairs, d, h) && ridge >= 0.0 && FitOf(pairs, ridge, d, h, n).Some?
    ensures Fitted(pairs, ridge, d, h, n)
  {
    hide AStepOf, BStepOf, Objective, BestLeft, BestRight;
    if n > 0 {
      FitIsFitted(pairs, ridge, d, h, n - 1);
      var (a0, b0) := FitOf(pairs, ridge, d, h, n - 1).value;
      var (a, b) := FitOf(pairs, ridge, d, h, n).value;
      SweepFits(pairs, a0, b0, a, b, ridge, d, h);
    }
  }

  /** `fit_mar` */
  method FitMar(pairs: seq<Pair>, ridge: real, iterations: nat) returns (r: Option<Pair>)
    requires |pairs| > 0 && |pairs[0].0| > 0 && Shaped(pairs, |pairs[0].0|, |pairs[0].0[0]|)
    ensures r == FitOf(pairs, ridge, |pairs[0].0|, |pairs[0].0[0]|, iterations)
  {
    hide AStepOf, BStepOf;
    var d, h := |pairs[0].0|, |pairs[0].0[0]|;
    var a, b := Identity(d), Identity(h);
    for t := 0 to iterations
      invariant Is(a, d, d) && Is(b, h, h)
      invariant FitOf(pairs, ridge, d, h, t) == Some((a, b))
    {
      var left := AStep(pairs, b, d, ridge);
      if left.None? {
        FailedFitStaysFailed(pairs, ridge, d, h, t + 1, iterations);
        return None;
      }
      a := left.value;
      var right := BStep(pairs, a, h, ridge);
      if right.None? {
        FailedFitStaysFailed(pairs, ridge, d, h, t + 1, iterations);
        return None;
      }
      b := right.value;
    }
    r := Some((a, b));
  }
}
