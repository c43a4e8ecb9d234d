// FoolsGold (temporal.rs): clients are weighted by how unlike everyone else's their cumulative
// history is. Two clients whose histories point the same way both end with weight zero.
module FoolsGold {
  import opened Reals
  import opened Vectors
  import opened Wrappers
  import opened Updates

  // ----- cosine similarity -----

  function Shorter(a: Vec, b: Vec): (k: nat)
    ensures k <= |a| && k <= |b|
  {
    if |a| <= |b| then |a| else |b|
  }

  /** Σ over `a.iter().zip(b)`: the longer list's tail is ignored. */
  function ZipDot(a: Vec, b: Vec): real {
    Dot(a[..Shorter(a, b)], b[..Shorter(a, b)])
  }

  function Cosine(sqrt: real -> real, a: Vec, b: Vec): real {
    var na, nb := sqrt(Sq(a)), sqrt(Sq(b));
    if na == 0.0 || nb == 0.0 then 0.0
    else
      NonZeroProduct(na, nb);
      ZipDot(a, b) / Times(na, nb)
  }

  lemma NonZeroProduct(x: real, y: real)
    requires x != 0.0 && y != 0.0
    ensures Times(x, y) != 0.0
  {
    SquareSign(x);
    if Times(x, y) == 0.0 {
      Associate(x, x, y);
      SignOfFactor(Square(x), y);
    }
  }

  lemma {:induction false} PrefixSq(a: Vec, k: nat)
    requires k <= |a|
    ensures Sq(a[..k]) <= Sq(a)
  {
    if k == |a| {
      assert a[..k] == a;
    } else {
      PrefixSq(a[..|a|-1], k);
      assert a[..|a|-1][..k] == a[..k];
      SquareSign(a[|a|-1]);
    }
  }

  /** Cauchy-Schwarz: no cosine exceeds one, even between histories of different lengths. */
  lemma CosineAtMostOne(sqrt: real -> real, a: Vec, b: Vec)
    requires IsSqrt(sqrt)
    ensures Cosine(sqrt, a, b) <= 1.0
  {
    var k := Shorter(a, b);
    var na, nb := sqrt(Sq(a)), sqrt(Sq(b));
    SqNonNegative(a);
    SqNonNegative(b);
    SqNonNegative(a[..k]);
    SqNonNegative(b[..k]);
    PrefixSq(a, k);
    PrefixSq(b, k);
    CauchySchwarz(a[..k], b[..k]);
    assert Square(na) == Sq(a) && Square(nb) == Sq(b);
    ProductBound(ZipDot(a, b), Sq(a[..k]), Sq(b[..k]), na, nb);
    NonNegative(na, nb);
    if Times(na, nb) > 0.0 {
      OneTimes(Times(na, nb));
      DivideBound(ZipDot(a, b), Times(na, nb), 1.0);
    }
  }

  /** A positive multiple of a non-zero history has cosine exactly one with it. */
  lemma MultiplesHaveCosineOne(sqrt: real -> real, a: Vec, s: real)
    requires IsSqrt(sqrt) && s > 0.0 && a != Zero(|a|)
    ensures Cosine(sqrt, a, Scale(s, a)) == 1.0 && Cosine(sqrt, Scale(s, a), a) == 1.0
  {
    var b := Scale(s, a);
    var q := Sq(a);
    var na, nb := sqrt(q), sqrt(Sq(b));
    SqNonNegative(a);
    SqNonNegative(b);
    SqScale(s, a);
    DotScale(s, a, a);
    assert Square(na) == q && Square(nb) == Sq(b);
    // ‖s·a‖ = s·‖a‖
    SquareOfProduct(s, na);
    NonNegative(s, na);
    RootUnique(nb, Times(s, na));
    SquareSign(na);
    Associate(na, s, na);
    Commute(na, s);
    Associate(s, na, na);
    Commute(na, nb);
    SignOfFactor(s, q);
    assert a[..|a|] == a && b[..|b|] == b;
    hide Times, Sq, Dot, Scale;
    assert ZipDot(a, b) == Times(s, q) && ZipDot(b, a) == Times(s, q) && Times(na, nb) == Times(s, q);
    SelfQuotient(Times(s, q));
  }

  lemma SelfQuotient(x: real)
    requires x != 0.0
    ensures x / x == 1.0
  {
  }

  // ----- the passes over the similarity matrix -----

  type Table = seq<Vec>

  predicate SquareTable(t: Table, n: nat) {
    |t| == n && Rect(t, n)
  }

  /** cs[i][j], with the diagonal left at zero. */
  function Similarities(sqrt: real -> real, hs: seq<Vec>): (t: Table)
    ensures SquareTable(t, |hs|)
  {
    seq(|hs|, i requires 0 <= i < |hs| =>
      seq(|hs|, j requires 0 <= j < |hs| => if i == j then 0.0 else Cosine(sqrt, hs[i], hs[j])))
  }

  /** `fold(0.0, f32::max)` */
  function MaxOf(v: Vec): real {
    if |v| == 0 then 0.0 else Max(MaxOf(v[..|v|-1]), v[|v|-1])
  }

  lemma {:induction false} MaxOfBounds(v: Vec)
    ensures MaxOf(v) >= 0.0
    ensures forall i | 0 <= i < |v| :: v[i] <= MaxOf(v)
    ensures MaxOf(v) == 0.0 || exists i :: 0 <= i < |v| && v[i] == MaxOf(v)
  {
    if |v| > 0 {
      MaxOfBounds(v[..|v|-1]);
      if MaxOf(v) != 0.0 && MaxOf(v) == MaxOf(v[..|v|-1]) {
        var i :| 0 <= i < |v| - 1 && v[..|v|-1][i] == MaxOf(v);
        assert v[i] == MaxOf(v);
      }
    }
  }

  function RowMaxes(t: Table): (m: Vec)
    ensures |m| == |t|
  {
    seq(|t|, i requires 0 <= i < |t| => MaxOf(t[i]))
  }

  /** Pardoning: similarity to a client more suspicious than oneself is scaled down. */
  function PardonedEntry(x: real, mi: real, mj: real, diagonal: bool): real
    requires mi >= 0.0 && mj >= 0.0
  {
    if !diagonal && mi < mj then Times(x, mi / mj) else x
  }

  function Pardoned(t: Table): (p: Table)
    requires SquareTable(t, |t|)
    ensures SquareTable(p, |t|)
  {
    var m := RowMaxes(t);
    seq(|t|, i requires 0 <= i < |t| =>
      seq(|t|, j requires 0 <= j < |t| => PardonedAt(t, m, i, j)))
  }

  function PardonedAt(t: Table, m: Vec, i: nat, j: nat): real
    requires SquareTable(t, |t|) && m == RowMaxes(t) && i < |t| && j < |t|
  {
    MaxOfBounds(t[i]);
    MaxOfBounds(t[j]);
    PardonedEntry(t[i][j], m[i], m[j], i == j)
  }

  function Clamp01(x: real): (r: real)
    ensures 0.0 <= r <= 1.0
  {
    Max(0.0, Min(x, 1.0))
  }

  /** 1 − maxcs, clipped. */
  function Distinctness(t: Table): (w: Vec)
    ensures |w| == |t|
  {
    seq(|t|, i requires 0 <= i < |t| => Clamp01(1.0 - MaxOf(t[i])))
  }

  /** The rescaled weight, capped below one. */
  function Rescaled(w: real, top: real): real
    requires top > 0.0
  {
    if w / top >= 1.0 then 0.99 else w / top
  }

  /** `(ln(w/(1−w)) + 0.5).clamp(0, 1)`; at w = 0 the logarithm is −∞ and the clamp gives 0. */
  function Sharpened(ln: real -> real, w: real): (r: real)
    requires w < 1.0
    ensures 0.0 <= r <= 1.0
  {
    if w <= 0.0 then 0.0 else Clamp01(ln(w / (1.0 - w)) + 0.5)
  }

  function WeightOf(ln: real -> real, w: real, top: real): (r: real)
    requires top > 0.0
    ensures 0.0 <= r <= 1.0
  {
    Sharpened(ln, Rescaled(w, top))
  }

  /** `foolsgold_weights`, pass by pass. */
  function FoolsGoldWeights(sqrt: real -> real, ln: real -> real, hs: seq<Vec>): (w: Vec)
    ensures |w| == |hs|
    ensures forall i | 0 <= i < |w| :: 0.0 <= w[i] <= 1.0
  {
    var d := Distinctness(Pardoned(Similarities(sqrt, hs)));
    var top := MaxOf(d);
    if top <= 0.0 then Zero(|hs|)
    else seq(|hs|, i requires 0 <= i < |hs| => WeightOf(ln, d[i], top))
  }

  // ----- what the weights are -----

  /** c·‖a‖·‖b‖ = ⟨a, b⟩ over the coordinates both have; zero when either is zero. */
  ghost predicate IsCosine(c: real, a: Vec, b: Vec) {
    var k := if |a| <= |b| then |a| else |b|;
    var dot := Total(Products(a[..k], b[..k]));
    if Sq(a) == 0.0 || Sq(b) == 0.0 then c == 0.0
    else Times(Square(c), Times(Sq(a), Sq(b))) == Square(dot) && (c >= 0.0 <==> dot >= 0.0)
  }

  lemma {:induction false} DotIsTotal(a: Vec, b: Vec)
    requires |a| == |b|
    ensures Dot(a, b) == Total(Products(a, b))
  {
    if |a| > 0 {
      var k := |a| - 1;
      DotIsTotal(a[..k], b[..k]);
      assert Products(a, b)[..k] == Products(a[..k], b[..k]);
    }
  }

  lemma CosineIs(sqrt: real -> real, a: Vec, b: Vec)
    requires IsSqrt(sqrt)
    ensures IsCosine(Cosine(sqrt, a, b), a, b)
  {
    var na, nb, k := sqrt(Sq(a)), sqrt(Sq(b)), Shorter(a, b);
    SqNonNegative(a);
    SqNonNegative(b);
    assert na >= 0.0 && nb >= 0.0 && Square(na) == Sq(a) && Square(nb) == Sq(b);
    SquareSign(na);
    SquareSign(nb);
    DotIsTotal(a[..k], b[..k]);
    if na != 0.0 && nb != 0.0 {
      CosineSquared(ZipDot(a, b), na, nb);
    }
  }

  lemma CosineSquared(dot: real, na: real, nb: real)
    requires na > 0.0 && nb > 0.0
    ensures Times(na, nb) != 0.0
    ensures Times(Square(dot / Times(na, nb)), Times(Square(na), Square(nb))) == Square(dot)
    ensures dot / Times(na, nb) >= 0.0 <==> dot >= 0.0
  {
    Positive(na, nb);
    var n := Times(na, nb);
    Divide(dot, n);
    SquareOfProduct(na, nb);
    SquareOfProduct(dot / n, n);
    SignOfFactor(n, dot / n);
  }

  /** m is the largest of the values, or zero if none is positive. */
  ghost predicate IsLargest(m: real, v: Vec) {
    && m >= 0.0 && (forall i | 0 <= i < |v| :: v[i] <= m)
    && (m == 0.0 || exists i :: 0 <= i < |v| && v[i] == m)
  }

  /** How alike the histories are, and m who is most like whom. */
  ghost predicate Alike(hs: seq<Vec>, c: Table, m: Vec) {
    && SquareTable(c, |hs|) && |m| == |hs|
    && (forall i, j | 0 <= i < |hs| && 0 <= j < |hs| ::
          if i == j then c[i][j] == 0.0 else IsCosine(c[i][j], hs[i], hs[j]))
    && forall i | 0 <= i < |hs| :: IsLargest(m[i], c[i])
  }

  /** Likeness to a client more suspicious than oneself counts for less, in proportion. */
  ghost predicate Pardons(c: Table, m: Vec, p: Table) {
    && SquareTable(c, |m|) && SquareTable(p, |m|)
    && forall i, j | 0 <= i < |m| && 0 <= j < |m| ::
         if i != j && m[i] < m[j] then Times(p[i][j], m[j]) == Times(c[i][j], m[i]) else p[i][j] == c[i][j]
  }

  /** d is what is left of one once the greatest pardoned likeness is taken away. */
  ghost predicate Distinct(p: Table, d: Vec) {
    |d| == |p| && forall i | 0 <= i < |p| :: LeftOver(d[i], p[i])
  }

  ghost predicate LeftOver(d: real, row: Vec) {
    exists x :: IsLargest(x, row) && d == Max(0.0, 1.0 - x)
  }

  /** The weight of a client with distinctness d, when the greatest is `top`: the logit of d/top, capped at
      0.99, raised by one half and cut to [0, 1]. */
  ghost predicate IsWeight(ln: real -> real, w: real, d: real, top: real) {
    if d <= 0.0 then w == 0.0
    else exists r, odds :: IsLogit(ln, w, d, top, r, odds)
  }

  ghost predicate IsLogit(ln: real -> real, w: real, d: real, top: real, r: real, odds: real) {
    && 0.0 < r < 1.0 && Times(if d == top then r + 0.01 else r, top) == d && Times(odds, 1.0 - r) == r
    && w == Max(0.0, Min(ln(odds) + 0.5, 1.0))
  }

  /** The weights, pass by pass, in terms of the histories. */
  lemma WeightsAre(sqrt: real -> real, ln: real -> real, hs: seq<Vec>)
      returns (c: Table, m: Vec, p: Table, d: Vec, top: real)
    requires IsSqrt(sqrt)
    ensures Alike(hs, c, m) && Pardons(c, m, p) && Distinct(p, d) && IsLargest(top, d)
    ensures var w := FoolsGoldWeights(sqrt, ln, hs);
      |w| == |d| == |hs| && forall i | 0 <= i < |w| :: if top == 0.0 then w[i] == 0.0 else IsWeight(ln, w[i], d[i], top)
  {
    hide IsCosine, Cosine, IsLargest, PardonedAt, Times;
    c := Similarities(sqrt, hs);
    m := RowMaxes(c);
    p := Pardoned(c);
    d := Distinctness(p);
    top := MaxOf(d);
    forall i, j | 0 <= i < |hs| && 0 <= j < |hs| && i != j ensures IsCosine(c[i][j], hs[i], hs[j]) {
      CosineIs(sqrt, hs[i], hs[j]);
    }
    forall i | 0 <= i < |hs| ensures IsLargest(m[i], c[i]) && IsLargest(MaxOf(p[i]), p[i]) {
      MaxOfIsLargest(c[i]);
      MaxOfIsLargest(p[i]);
    }
    MaxOfIsLargest(d);
    TopIsNonNegative(d);
    PardonedIs(c);
    DistinctnessIs(p);
    hide Similarities, Pardoned, Distinctness, RowMaxes, WeightOf, IsWeight, Alike, Pardons, Distinct;
    forall i | 0 <= i < |hs| && top > 0.0 ensures IsWeight(ln, WeightOf(ln, d[i], top), d[i], top) {
      DistinctnessBelowTop(d, i);
      WeightIs(ln, d[i], top);
    }
  }

  lemma MaxOfIsLargest(v: Vec)
    ensures IsLargest(MaxOf(v), v)
  {
    MaxOfBounds(v);
  }

  lemma TopIsNonNegative(d: Vec)
    ensures MaxOf(d) >= 0.0
  {
    MaxOfBounds(d);
  }

  lemma DistinctnessBelowTop(d: Vec, i: nat)
    requires i < |d|
    ensures d[i] <= MaxOf(d)
  {
    MaxOfBounds(d);
  }

  lemma PardonedIs(c: Table)
    requires SquareTable(c, |c|)
    ensures Pardons(c, RowMaxes(c), Pardoned(c))
  {
    var m := RowMaxes(c);
    forall i, j | 0 <= i < |c| && 0 <= j < |c|
      ensures if i != j && m[i] < m[j] then Times(Pardoned(c)[i][j], m[j]) == Times(c[i][j], m[i])
              else Pardoned(c)[i][j] == c[i][j]
    {
      PardonedAtIs(c, m, i, j);
      if i != j && m[i] < m[j] {
        Divide(m[i], m[j]);
        Associate(c[i][j], m[i] / m[j], m[j]);
      }
    }
  }

  lemma DistinctnessIs(p: Table)
    ensures Distinct(p, Distinctness(p))
  {
    hide IsLargest;
    forall i | 0 <= i < |p| ensures LeftOver(Distinctness(p)[i], p[i]) {
      MaxOfIsLargest(p[i]);
      TopIsNonNegative(p[i]);
      var x := MaxOf(p[i]);
      assert IsLargest(x, p[i]) && Distinctness(p)[i] == Max(0.0, 1.0 - x);
    }
  }

  lemma WeightIs(ln: real -> real, d: real, top: real)
    requires top > 0.0 && d <= top
    ensures IsWeight(ln, WeightOf(ln, d, top), d, top)
  {
    Divide(d, top);
    DivideBound(d, top, 1.0);
    OneTimes(top);
    if d > 0.0 {
      DivideNonNegative(d, top);
      var r := Rescaled(d, top);
      assert 0.0 < r < 1.0 && Times(if d == top then r + 0.01 else r, top) == d;
      Divide(r, 1.0 - r);
      var odds := r / (1.0 - r);
      hide Times;
      assert IsLogit(ln, WeightOf(ln, d, top), d, top, r, odds);
    } else if d < 0.0 {
      QuotientSign(d, top);
    }
  }

  lemma QuotientSign(x: real, y: real)
    requires y > 0.0 && x <= 0.0
    ensures x / y <= 0.0
  {
    DivideBound(x, y, 0.0);
    ZeroTimes(y);
  }

  // ----- the loops, in place -----

  /** Contents of an n×n array by rows. */
  function Contents(a: array2<real>): (t: Table)
    reads a
    ensures |t| == a.Length0 && Rect(t, a.Length1)
    ensures forall i, j | 0 <= i < a.Length0 && 0 <= j < a.Length1 :: t[i][j] == a[i, j]
  {
    seq(a.Length0, i requires 0 <= i < a.Length0 reads a =>
      seq(a.Length1, j requires 0 <= j < a.Length1 reads a => a[i, j]))
  }

  method RowMaximum(cs: array2<real>, i: nat) returns (m: real)
    requires i < cs.Length0
    ensures m == MaxOf(Contents(cs)[i])
  {
    ghost var row := Contents(cs)[i];
    m := 0.0;
    for j := 0 to cs.Length1
      invariant m == MaxOf(row[..j])
    {
      m := Max(m, cs[i, j]);
      assert row[..j + 1][..j] == row[..j];
    }
    assert row[..|row|] == row;
  }

  method RowMaxima(cs: array2<real>) returns (m: array<real>)
    ensures fresh(m) && m[..] == RowMaxes(Contents(cs))
  {
    m := new real[cs.Length0];
    for i := 0 to cs.Length0
      invariant forall k | 0 <= k < i :: m[k] == MaxOf(Contents(cs)[k])
    {
      m[i] := RowMaximum(cs, i);
    }
    assert m[..] == RowMaxes(Contents(cs));
  }

  lemma PardonedAtIs(t: Table, m: Vec, i: nat, j: nat)
    requires SquareTable(t, |t|) && m == RowMaxes(t) && i < |t| && j < |t|
    ensures m[i] >= 0.0 && m[j] >= 0.0
    ensures Pardoned(t)[i][j] == if i != j && m[i] < m[j] then Times(t[i][j], m[i] / m[j]) else t[i][j]
  {
    MaxOfBounds(t[i]);
    MaxOfBounds(t[j]);
  }

  lemma SameTable(s: Table, t: Table)
    requires SquareTable(s, |t|) && SquareTable(t, |t|)
    requires forall i, j | 0 <= i < |t| && 0 <= j < |t| :: s[i][j] == t[i][j]
    ensures s == t
  {
    forall i | 0 <= i < |t| ensures s[i] == t[i] {
    }
  }

  /** The inner loop: row i of a table still holding t's entries there. */
  method PardonRow(cs: array2<real>, maxcs: array<real>, i: nat, ghost t: Table)
    requires SquareTable(t, |t|) && cs.Length0 == cs.Length1 == |t| && maxcs[..] == RowMaxes(t) && i < |t|
    requires forall b | 0 <= b < |t| :: cs[i, b] == t[i][b]
    modifies cs
    ensures forall b | 0 <= b < |t| :: cs[i, b] == Pardoned(t)[i][b]
    ensures forall a, b | 0 <= a < |t| && 0 <= b < |t| && a != i :: cs[a, b] == old(cs[a, b])
  {
    hide MaxOf, RowMaxes, Times, Pardoned;
    ghost var m := maxcs[..];
    for j := 0 to cs.Length1
      invariant forall b | 0 <= b < j :: cs[i, b] == Pardoned(t)[i][b]
      invariant forall b | j <= b < |t| :: cs[i, b] == t[i][b]
      invariant forall a, b | 0 <= a < |t| && 0 <= b < |t| && a != i :: cs[a, b] == old(cs[a, b])
    {
      PardonedAtIs(t, m, i, j);
      if i != j && maxcs[i] < maxcs[j] {
        cs[i, j] := Times(cs[i, j], maxcs[i] / maxcs[j]);
      }
    }
  }

  /** The pardoning loops rewrite the table in place, reading only the maxima taken before. */
  method Pardon(cs: array2<real>, maxcs: array<real>)
    requires cs.Length0 == cs.Length1 && maxcs[..] == RowMaxes(Contents(cs))
    modifies cs
    ensures Contents(cs) == Pardoned(old(Contents(cs)))
  {
    var n := cs.Length0;
    ghost var t, m := Contents(cs), maxcs[..];
    ghost var p := Pardoned(t);
    hide MaxOf, RowMaxes, Times, Pardoned;
    for i := 0 to n
      invariant forall a, b | 0 <= a < i && 0 <= b < n :: cs[a, b] == p[a][b]
      invariant forall a, b | i <= a < n && 0 <= b < n :: cs[a, b] == t[a][b]
    {
      PardonRow(cs, maxcs, i, t);
    }
    SameTable(Contents(cs), p);
  }

  method FillSimilarities(sqrt: real -> real, hs: seq<Vec>) returns (cs: array2<real>)
    ensures fresh(cs) && cs.Length0 == cs.Length1 == |hs|
    ensures Contents(cs) == Similarities(sqrt, hs)
  {
    var n := |hs|;
    cs := new real[n, n]((i, j) => 0.0);
    for i := 0 to n
      invariant forall a, b | 0 <= a < i && 0 <= b < n :: cs[a, b] == Similarities(sqrt, hs)[a][b]
      invariant forall a, b | i <= a < n && 0 <= b < n :: cs[a, b] == 0.0
    {
      for j := 0 to n
        invariant forall a, b | 0 <= a < i && 0 <= b < n :: cs[a, b] == Similarities(sqrt, hs)[a][b]
        invariant forall b | 0 <= b < j :: cs[i, b] == Similarities(sqrt, hs)[i][b]
        invariant forall b | j <= b < n :: cs[i, b] == 0.0
        invariant forall a, b | i < a < n && 0 <= b < n :: cs[a, b] == 0.0
      {
        if i != j { cs[i, j] := Cosine(sqrt, hs[i], hs[j]); }
      }
    }
    assert Contents(cs) == Similarities(sqrt, hs) by {
      forall i | 0 <= i < n ensures Contents(cs)[i] == Similarities(sqrt, hs)[i] {
      }
    }
  }

  /** `foolsgold_weights` */
  method Weigh(sqrt: real -> real, ln: real -> real, hs: seq<Vec>) returns (w: Vec)
    ensures w == FoolsGoldWeights(sqrt, ln, hs)
  {
    hide Similarities, Pardoned, MaxOf, WeightOf, Contents, RowMaxes;
    var n := |hs|;
    var cs := FillSimilarities(sqrt, hs);
    var maxcs := RowMaxima(cs);
    Pardon(cs, maxcs);
    maxcs := RowMaxima(cs);
    ghost var p := Pardoned(Similarities(sqrt, hs));
    var wv := InitialWeights(p, maxcs);
    var top := MaxOf(wv[..]);
    if top <= 0.0 { return Zero(n); }
    RescaleAll(ln, wv, top);
    w := wv[..];
  }

  method InitialWeights(ghost t: Table, maxcs: array<real>) returns (wv: array<real>)
    requires maxcs[..] == RowMaxes(t)
    ensures fresh(wv) && wv[..] == Distinctness(t)
  {
    hide MaxOf, Clamp01;
    var n := maxcs.Length;
    wv := new real[n](i requires 0 <= i < n && maxcs.Length == n reads maxcs => Clamp01(1.0 - maxcs[i]));
    forall i | 0 <= i < n ensures wv[i] == Distinctness(t)[i] {
      assert maxcs[..][i] == MaxOf(t[i]);
    }
  }

  /** The rescaling and sharpening loop. */
  method RescaleAll(ln: real -> real, wv: array<real>, top: real)
    requires top > 0.0
    modifies wv
    ensures forall k | 0 <= k < wv.Length :: wv[k] == WeightOf(ln, old(wv[k]), top)
  {
    hide WeightOf;
    for i := 0 to wv.Length
      invariant forall k | 0 <= k < i :: wv[k] == WeightOf(ln, old(wv[k]), top)
      invariant forall k | i <= k < wv.Length :: wv[k] == old(wv[k])
    {
      wv[i] := WeightOf(ln, wv[i], top);
    }
  }

  // ----- Sybils -----

  lemma RowsAtMostOne(sqrt: real -> real, hs: seq<Vec>, i: nat)
    requires IsSqrt(sqrt) && i < |hs|
    ensures MaxOf(Similarities(sqrt, hs)[i]) <= 1.0
  {
    var row := Similarities(sqrt, hs)[i];
    MaxOfBounds(row);
    forall j | 0 <= j < |hs| ensures row[j] <= 1.0 {
      if i != j { CosineAtMostOne(sqrt, hs[i], hs[j]); }
    }
  }

  /** A row holding a one is never pardoned, so the client ends with weight zero. */
  lemma FullSimilarityMeansZero(sqrt: real -> real, ln: real -> real, hs: seq<Vec>, i: nat, j: nat)
    requires IsSqrt(sqrt) && i < |hs| && j < |hs| && i != j && Cosine(sqrt, hs[i], hs[j]) == 1.0
    ensures FoolsGoldWeights(sqrt, ln, hs)[i] == 0.0
  {
    hide Cosine, Clamp01, MaxOf;
    var t := Similarities(sqrt, hs);
    var m, p := RowMaxes(t), Pardoned(t);
    MaxOfBounds(t[i]);
    RowsAtMostOne(sqrt, hs, i);
    assert t[i][j] == 1.0;
    assert m[i] == 1.0;
    assert p[i] == t[i] by {
      forall k | 0 <= k < |hs| ensures p[i][k] == t[i][k] {
        RowsAtMostOne(sqrt, hs, k);
        assert p[i][k] == PardonedAt(t, m, i, k);
      }
    }
    var d := Distinctness(p);
    assert d[i] == 0.0 by { ClampZero(); }
    ZeroStaysZero(ln, MaxOf(d));
  }

  lemma ClampZero()
    ensures Clamp01(1.0 - 1.0) == 0.0
  {
  }

  lemma ZeroStaysZero(ln: real -> real, top: real)
    ensures top > 0.0 ==> WeightOf(ln, 0.0, top) == 0.0
  {
    if top > 0.0 { DivideNonNegative(0.0, top); }
  }

  /** Two clients whose non-zero histories are positive multiples of each other both get weight 0. */
  lemma SybilsGetZero(sqrt: real -> real, ln: real -> real, hs: seq<Vec>, i: nat, j: nat, s: real)
    requires IsSqrt(sqrt) && i < |hs| && j < |hs| && i != j
    requires s > 0.0 && hs[i] != Zero(|hs[i]|) && hs[j] == Scale(s, hs[i])
    ensures FoolsGoldWeights(sqrt, ln, hs)[i] == 0.0 && FoolsGoldWeights(sqrt, ln, hs)[j] == 0.0
  {
    MultiplesHaveCosineOne(sqrt, hs[i], s);
    FullSimilarityMeansZero(sqrt, ln, hs, i, j);
    FullSimilarityMeansZero(sqrt, ln, hs, j, i);
  }

  /** A client with no positive similarity to anyone keeps full weight. */
  lemma UniqueKeepsFullWeight(sqrt: real -> real, ln: real -> real, hs: seq<Vec>, i: nat)
    requires i < |hs| && ln(99.0) >= 0.5
    requires forall j | 0 <= j < |hs| && j != i :: Cosine(sqrt, hs[i], hs[j]) <= 0.0
    ensures FoolsGoldWeights(sqrt, ln, hs)[i] == 1.0
  {
    hide Cosine, MaxOf;
    var t := Similarities(sqrt, hs);
    var m, p := RowMaxes(t), Pardoned(t);
    MaxOfBounds(t[i]);
    forall j | 0 <= j < |hs| ensures p[i][j] <= 0.0 {
      MaxOfBounds(t[j]);
      assert p[i][j] == PardonedAt(t, m, i, j);
      assert Times(t[i][j], 0.0) == 0.0;
    }
    MaxOfBounds(p[i]);
    var d := Distinctness(p);
    assert d[i] == 1.0;
    MaxOfBounds(d);
    var top := MaxOf(d);
    assert top == 1.0;
    assert 0.99 / (1.0 - 0.99) == 99.0;
  }

  // ----- histories -----

  type History = map<string, Vec>

  /** `entry.iter_mut().zip(w)`: the stored length is kept. */
  function AddZip(h: Vec, w: Vec): (r: Vec)
    ensures |r| == |h|
  {
    seq(|h|, k requires 0 <= k < |h| => if k < |w| then h[k] + w[k] else h[k])
  }

  function Grown(history: History, id: string, w: Vec): Vec {
    AddZip(if id in history then history[id] else Zero(|w|), w)
  }

  /** The history after the first n updates of a batch. */
  function Recorded(history: History, updates: seq<ClientDelta>, n: nat): History
    requires Acceptable(updates) && n <= |updates|
  {
    if n == 0 then history
    else
      var before := Recorded(history, updates, n - 1);
      var u := updates[n-1];
      before[u.clientId := Grown(before, u.clientId, Plain(u.weights))]
  }

  /** Each update's history as it stands right after that update is recorded. */
  function Snapshots(history: History, updates: seq<ClientDelta>): (hs: seq<Vec>)
    requires Acceptable(updates)
    ensures |hs| == |updates|
  {
    seq(|updates|, k requires 0 <= k < |updates| =>
      Grown(Recorded(history, updates, k), updates[k].clientId, Plain(updates[k].weights)))
  }

  /** The combine step: weights over n, or the plain mean when every weight is zero. */
  function Shares(weights: Vec): (s: Vec)
    requires |weights| > 0
    ensures |s| == |weights|
  {
    if forall i | 0 <= i < |weights| :: weights[i] == 0.0 then EqualShares(|weights|)
    else Scale(1.0 / |weights| as real, weights)
  }

  lemma {:induction false} TotalOfUnits(w: Vec)
    requires forall i | 0 <= i < |w| :: 0.0 <= w[i] <= 1.0
    ensures Total(w) <= |w| as real
    ensures Total(w) == |w| as real <==> forall i | 0 <= i < |w| :: w[i] == 1.0
  {
    if |w| > 0 {
      var k := |w| - 1;
      TotalOfUnits(w[..k]);
      if forall i | 0 <= i < k :: w[..k][i] == 1.0 {
        assert forall i | 0 <= i < k :: w[i] == 1.0;
      }
    }
  }

  /** The combine step divides by n and not by the weights' sum, so down-weighting anybody shrinks the
      whole aggregate: the shares add up to one only if every weight is one, or every weight is zero. */
  lemma SharesAtMostOne(w: Vec)
    requires |w| > 0 && forall i | 0 <= i < |w| :: 0.0 <= w[i] <= 1.0
    ensures Total(Shares(w)) <= 1.0
    ensures Total(Shares(w)) == 1.0
      <==> (forall i | 0 <= i < |w| :: w[i] == 0.0) || (forall i | 0 <= i < |w| :: w[i] == 1.0)
  {
    var n := |w| as real;
    if forall i | 0 <= i < |w| :: w[i] == 0.0 {
      EqualSharesAreConvex(|w|);
    } else {
      TotalScale(1.0 / n, w);
      TotalOfUnits(w);
      QuotientAsProduct(Total(w), n);
      Divide(Total(w), n);
      OneTimes(n);
      DivideBound(Total(w), n, 1.0);
    }
  }

  function Round(sqrt: real -> real, ln: real -> real, history: History, updates: seq<ClientDelta>)
      : (r: (History, Outcome))
    ensures r.1.Err? ==> r.0 == history
  {
    if |updates| == 0 then (history, Err(EmptyBatch))
    else
      match DecodeAndValidate(updates)
      case Err(e) => (history, Err(e))
      case Ok(vs) =>
        var hs := Snapshots(history, updates);
        (Recorded(history, updates, |updates|),
         Ok(if |updates| == 1 then vs[0]
            else Comb(Shares(FoolsGoldWeights(sqrt, ln, hs)), vs, Dim(updates))))
  }

  /** A lone update is the answer, whatever its history. */
  lemma LoneClient(sqrt: real -> real, ln: real -> real, history: History, updates: seq<ClientDelta>)
    requires |updates| == 1 && Acceptable(updates)
    ensures Round(sqrt, ln, history, updates).1 == Ok(Plain(updates[0].weights))
  {
  }

  class FoolsGoldAggregator {
    var history: History

    constructor ()
      ensures history == map[]
    {
      history := map[];
    }

    /** `aggregate` */
    method Aggregate(sqrt: real -> real, ln: real -> real, updates: seq<ClientDelta>) returns (r: Outcome)
      modifies this
      ensures (history, r) == Round(sqrt, ln, old(history), updates)
    {
      hide FoolsGoldWeights, Comb, Grown;
      if |updates| == 0 { return Err(EmptyBatch); }
      var decoded := DecodeAndValidate(updates);
      if decoded.Err? { return Err(decoded.error); }
      var vs, n := decoded.value, |updates|;
      var hs: seq<Vec> := [];
      for k := 0 to n
        invariant history == Recorded(old(history), updates, k)
        invariant |hs| == k && forall a | 0 <= a < k :: hs[a] == Snapshots(old(history), updates)[a]
      {
        var id := updates[k].clientId;
        var entry := Grown(history, id, vs[k]);
        history := history[id := entry];
        hs := hs + [entry];
      }
      assert hs == Snapshots(old(history), updates);
      if n == 1 { return Ok(vs[0]); }
      var weights := Weigh(sqrt, ln, hs);
      var combined := WeightedSum(Shares(weights), vs, Dim(updates));
      r := Ok(combined);
    }
  }

  // ----- Sybils over rounds -----

  /** The batch holds exactly one update from `id`, at position p. */
  predicate OnlyAt(updates: seq<ClientDelta>, id: string, p: nat) {
    p < |updates| && forall k | 0 <= k < |updates| :: updates[k].clientId == id <==> k == p
  }

  predicate Absent(updates: seq<ClientDelta>, id: string) {
    forall k | 0 <= k < |updates| :: updates[k].clientId != id
  }

  lemma {:induction false} RecordLeavesOthers(history: History, updates: seq<ClientDelta>, n: nat, id: string)
    requires Acceptable(updates) && n <= |updates|
    requires forall k | 0 <= k < n :: updates[k].clientId != id
    ensures id in Recorded(history, updates, n) <==> id in history
    ensures id in history ==> Recorded(history, updates, n)[id] == history[id]
  {
    if n > 0 { RecordLeavesOthers(history, updates, n - 1, id); }
  }

  lemma {:induction false} RecordOnce(history: History, updates: seq<ClientDelta>, n: nat, id: string, p: nat)
    requires Acceptable(updates) && p < n <= |updates| && OnlyAt(updates, id, p)
    ensures id in Recorded(history, updates, n)
    ensures Recorded(history, updates, n)[id] == Grown(history, id, Plain(updates[p].weights))
    ensures Snapshots(history, updates)[p] == Grown(history, id, Plain(updates[p].weights))
  {
    hide Recorded, Snapshots, Grown, Plain, Acceptable;
    if n > p + 1 {
      RecordOnce(history, updates, n - 1, id, p);
      RecordOther(history, updates, n, id);
    } else {
      RecordLeavesOthers(history, updates, p, id);
      RecordThis(history, updates, p, id);
    }
  }

  /** The n-th update changes no other client's history. */
  lemma RecordOther(history: History, updates: seq<ClientDelta>, n: nat, id: string)
    requires Acceptable(updates) && 0 < n <= |updates| && updates[n-1].clientId != id
    ensures id in Recorded(history, updates, n) <==> id in Recorded(history, updates, n - 1)
    ensures id in Recorded(history, updates, n) ==>
      Recorded(history, updates, n)[id] == Recorded(history, updates, n - 1)[id]
  {
    hide Grown, Acceptable;
  }

  lemma RecordThis(history: History, updates: seq<ClientDelta>, p: nat, id: string)
    requires Acceptable(updates) && p < |updates| && updates[p].clientId == id
    requires id in Recorded(history, updates, p) <==> id in history
    requires id in history ==> Recorded(history, updates, p)[id] == history[id]
    ensures id in Recorded(history, updates, p + 1)
    ensures Recorded(history, updates, p + 1)[id] == Grown(history, id, Plain(updates[p].weights))
    ensures Snapshots(history, updates)[p] == Grown(history, id, Plain(updates[p].weights))
  {
    var w := Plain(updates[p].weights);
    assert Grown(Recorded(history, updates, p), id, w) == Grown(history, id, w);
    hide Grown, Plain;
  }

  /** b's history is s times a's, or neither has one. */
  predicate Proportional(history: History, a: string, b: string, s: real) {
    && (a in history <==> b in history)
    && (a in history ==> history[b] == Scale(s, history[a]))
  }

  lemma GrowProportional(h: Vec, w: Vec, s: real)
    ensures AddZip(Scale(s, h), Scale(s, w)) == Scale(s, AddZip(h, w))
    ensures Scale(s, Zero(|w|)) == Zero(|w|)
  {
    forall k | 0 <= k < |h| && k < |w| ensures Times(s, h[k]) + Times(s, w[k]) == Times(s, h[k] + w[k]) {
      Distribute(h[k], w[k], s);
    }
    assert Times(s, 0.0) == 0.0;
  }

  /** Colluders submit together, b always s times what a submits. */
  ghost predicate Collude(updates: seq<ClientDelta>, a: string, b: string, s: real) {
    Acceptable(updates) ==>
      || (Absent(updates, a) && Absent(updates, b))
      || exists p: nat, q: nat :: OnlyAt(updates, a, p) && OnlyAt(updates, b, q)
           && Plain(updates[q].weights) == Scale(s, Plain(updates[p].weights))
  }

  /** Recording a colluding batch keeps the two histories proportional. */
  lemma RoundKeepsProportion(sqrt: real -> real, ln: real -> real, history: History, updates: seq<ClientDelta>,
        a: string, b: string, s: real)
    requires Proportional(history, a, b, s) && Collude(updates, a, b, s)
    ensures Proportional(Round(sqrt, ln, history, updates).0, a, b, s)
  {
    if |updates| > 0 && Acceptable(updates) {
      var n := |updates|;
      if Absent(updates, a) && Absent(updates, b) {
        RecordLeavesOthers(history, updates, n, a);
        RecordLeavesOthers(history, updates, n, b);
      } else {
        var p: nat, q: nat :| OnlyAt(updates, a, p) && OnlyAt(updates, b, q)
          && Plain(updates[q].weights) == Scale(s, Plain(updates[p].weights));
        ColludersStayProportional(history, updates, a, b, s, p, q);
      }
    }
  }

  lemma ColludersStayProportional(history: History, updates: seq<ClientDelta>, a: string, b: string, s: real, p: nat,
        q: nat)
    requires Acceptable(updates) && Proportional(history, a, b, s)
    requires OnlyAt(updates, a, p) && OnlyAt(updates, b, q)
    requires Plain(updates[q].weights) == Scale(s, Plain(updates[p].weights))
    ensures Proportional(Recorded(history, updates, |updates|), a, b, s)
    ensures Snapshots(history, updates)[q] == Scale(s, Snapshots(history, updates)[p])
  {
    var w := Plain(updates[p].weights);
    RecordOnce(history, updates, |updates|, a, p);
    RecordOnce(history, updates, |updates|, b, q);
    GrowProportional(if a in history then history[a] else Zero(|w|), w, s);
  }

  function Run(sqrt: real -> real, ln: real -> real, batches: seq<seq<ClientDelta>>): History {
    if |batches| == 0 then map[]
    else Round(sqrt, ln, Run(sqrt, ln, batches[..|batches|-1]), batches[|batches|-1]).0
  }

  lemma {:induction false} RunKeepsProportion(sqrt: real -> real, ln: real -> real, batches: seq<seq<ClientDelta>>,
        a: string, b: string, s: real)
    requires forall k | 0 <= k < |batches| :: Collude(batches[k], a, b, s)
    ensures Proportional(Run(sqrt, ln, batches), a, b, s)
  {
    if |batches| > 0 {
      RunKeepsProportion(sqrt, ln, batches[..|batches|-1], a, b, s);
      RoundKeepsProportion(sqrt, ln, Run(sqrt, ln, batches[..|batches|-1]), batches[|batches|-1], a, b, s);
    }
  }

  // ----- what a history is -----

  /** What `id` submitted among the first n updates of a batch, in order. */
  function Submissions(updates: seq<ClientDelta>, n: nat, id: string): (ws: seq<Vec>)
    requires Acceptable(updates) && n <= |updates|
  {
    if n == 0 then []
    else
      Submissions(updates, n - 1, id)
      + if updates[n-1].clientId == id then [Plain(updates[n-1].weights)] else []
  }

  /** What `id` submitted in the accepted batches of a run, in order. */
  function AllSubmissions(batches: seq<seq<ClientDelta>>, id: string): (ws: seq<Vec>) {
    if |batches| == 0 then []
    else
      var last := batches[|batches|-1];
      AllSubmissions(batches[..|batches|-1], id)
      + if Acceptable(last) then Submissions(last, |last|, id) else []
  }

  /** Σ ws[i][j] over the vectors that have a coordinate j. */
  function SumAt(ws: seq<Vec>, j: nat): real {
    if |ws| == 0 then 0.0
    else SumAt(ws[..|ws|-1], j) + if j < |ws[|ws|-1]| then ws[|ws|-1][j] else 0.0
  }

  /** h is the sum of the submissions, at the length of the first. */
  ghost predicate IsSum(h: Vec, ws: seq<Vec>) {
    |ws| > 0 && |h| == |ws[0]| && forall j | 0 <= j < |h| :: h[j] == SumAt(ws, j)
  }

  /** The history of `id` is the sum of what it submitted; a client never seen has none. */
  ghost predicate Accumulated(history: History, id: string, ws: seq<Vec>) {
    (id in history <==> |ws| > 0) && (id in history ==> IsSum(history[id], ws))
  }

  lemma GrownIsSum(history: History, id: string, w: Vec, ws: seq<Vec>)
    requires Accumulated(history, id, ws)
    ensures IsSum(Grown(history, id, w), ws + [w])
  {
    assert (ws + [w])[..|ws|] == ws;
    if id !in history {
      assert ws == [];
    }
  }

  lemma {:induction false} RecordAccumulates(history: History, updates: seq<ClientDelta>, n: nat, id: string,
        ws: seq<Vec>)
    requires Acceptable(updates) && n <= |updates| && Accumulated(history, id, ws)
    ensures Accumulated(Recorded(history, updates, n), id, ws + Submissions(updates, n, id))
  {
    hide Grown, Accumulated, Plain;
    if n == 0 {
      assert ws + [] == ws;
    } else {
      RecordAccumulates(history, updates, n - 1, id, ws);
      var so, u := ws + Submissions(updates, n - 1, id), updates[n-1];
      RecordOne(Recorded(history, updates, n - 1), u.clientId, Plain(u.weights), id, so);
      if u.clientId == id {
        assert ws + Submissions(updates, n, id) == so + [Plain(u.weights)];
      } else {
        assert Submissions(updates, n, id) == Submissions(updates, n - 1, id);
      }
    }
  }

  /** Recording one update adds it to its own client's sum, and leaves every other. */
  lemma RecordOne(history: History, id: string, w: Vec, other: string, ws: seq<Vec>)
    requires Accumulated(history, other, ws)
    ensures Accumulated(history[id := Grown(history, id, w)], other, if id == other then ws + [w] else ws)
  {
    hide Grown, IsSum;
    if id == other { GrownIsSum(history, id, w, ws); }
  }

  /** Over every run, each client's history is the sum of everything it submitted in accepted batches. */
  lemma {:induction false} RunAccumulates(sqrt: real -> real, ln: real -> real, batches: seq<seq<ClientDelta>>,
        id: string)
    ensures Accumulated(Run(sqrt, ln, batches), id, AllSubmissions(batches, id))
  {
    hide Submissions, FoolsGoldWeights, Comb, Shares, Snapshots, Recorded, IsSum;
    if |batches| > 0 {
      var before, last := batches[..|batches|-1], batches[|batches|-1];
      RunAccumulates(sqrt, ln, before, id);
      var history := Run(sqrt, ln, before);
      if Acceptable(last) {
        RecordAccumulates(history, last, |last|, id, AllSubmissions(before, id));
        if |last| == 0 { NothingRecorded(history, last); }
      } else {
        assert AllSubmissions(batches, id) == AllSubmissions(before, id);
      }
    }
  }

  lemma NothingRecorded(history: History, updates: seq<ClientDelta>)
    requires updates == []
    ensures Recorded(history, updates, 0) == history
  {
  }

  /** And the vector a round compares for update k is that sum with what the client sent in this batch, up to
      and including update k. */
  lemma SnapshotsAccumulate(sqrt: real -> real, ln: real -> real, batches: seq<seq<ClientDelta>>,
        updates: seq<ClientDelta>, k: nat)
    requires Acceptable(updates) && k < |updates|
    ensures var id := updates[k].clientId;
      IsSum(Snapshots(Run(sqrt, ln, batches), updates)[k],
            AllSubmissions(batches, id) + Submissions(updates, k + 1, id))
  {
    hide Run, Grown, IsSum;
    var id, history := updates[k].clientId, Run(sqrt, ln, batches);
    RunAccumulates(sqrt, ln, batches, id);
    RecordAccumulates(history, updates, k, id, AllSubmissions(batches, id));
    var ws := AllSubmissions(batches, id) + Submissions(updates, k, id);
    GrownIsSum(Recorded(history, updates, k), id, Plain(updates[k].weights), ws);
    assert ws + [Plain(updates[k].weights)] == AllSubmissions(batches, id) + Submissions(updates, k + 1, id);
  }

  /** Over any run in which two clients always collude, the next round they join together gives both
      weight zero, unless their common history is still zero. */
  lemma ColludersGetZero(sqrt: real -> real, ln: real -> real, batches: seq<seq<ClientDelta>>,
        updates: seq<ClientDelta>,
        a: string, b: string, s: real, p: nat, q: nat)
    requires IsSqrt(sqrt) && s > 0.0 && a != b
    requires forall k | 0 <= k < |batches| :: Collude(batches[k], a, b, s)
    requires Acceptable(updates) && OnlyAt(updates, a, p) && OnlyAt(updates, b, q)
    requires Plain(updates[q].weights) == Scale(s, Plain(updates[p].weights))
    requires var h := Snapshots(Run(sqrt, ln, batches), updates)[p]; h != Zero(|h|)
    ensures var w := FoolsGoldWeights(sqrt, ln, Snapshots(Run(sqrt, ln, batches), updates));
      w[p] == 0.0 && w[q] == 0.0
  {
    var history := Run(sqrt, ln, batches);
    RunKeepsProportion(sqrt, ln, batches, a, b, s);
    ColludersStayProportional(history, updates, a, b, s, p, q);
    SybilsGetZero(sqrt, ln, Snapshots(history, updates), p, q, s);
  }

  /** The weights a round gives. */
  function RoundWeights(sqrt: real -> real, ln: real -> real, history: History, updates: seq<ClientDelta>): (w: Vec)
    requires Acceptable(updates)
    ensures |w| == |updates|
  {
    FoolsGoldWeights(sqrt, ln, Snapshots(history, updates))
  }

  lemma RoundAnswers(sqrt: real -> real, ln: real -> real, history: History, updates: seq<ClientDelta>)
    requires |updates| >= 2 && Acceptable(updates)
    ensures Round(sqrt, ln, history, updates).1
      == Ok(Comb(Shares(RoundWeights(sqrt, ln, history, updates)), Decoded(updates), Dim(updates)))
  {
    hide FoolsGoldWeights, Snapshots, Comb, Shares, Decoded;
  }

  /** The answer, coordinate by coordinate: n times it is the sum of the clients' entries, each times its weight,
      or the plain sum when every weight is zero. */
  lemma RoundIs(sqrt: real -> real, ln: real -> real, history: History, updates: seq<ClientDelta>, j: nat)
    requires |updates| >= 2 && Acceptable(updates) && j < Dim(updates)
    ensures var answer, w := Round(sqrt, ln, history, updates).1, RoundWeights(sqrt, ln, history, updates);
      var column := Coordinate(Decoded(updates), Dim(updates), j);
      && answer.Ok? && |answer.value| == Dim(updates)
      && Times(|updates| as real, answer.value[j])
         == if exists i :: 0 <= i < |w| && w[i] != 0.0 then Total(Products(w, column)) else Total(column)
  {
    RoundAnswers(sqrt, ln, history, updates);
    hide Round, RoundWeights, Comb, Decoded, Acceptable;
    SharedSum(RoundWeights(sqrt, ln, history, updates), Decoded(updates), Dim(updates), j);
  }

  lemma SharedSum(w: Vec, vs: seq<Vec>, dim: nat, j: nat)
    requires |w| == |vs| > 0 && Rect(vs, dim) && j < dim
    ensures var column := Coordinate(vs, dim, j);
      Times(|vs| as real, Comb(Shares(w), vs, dim)[j])
        == if exists i :: 0 <= i < |w| && w[i] != 0.0 then Total(Products(w, column)) else Total(column)
  {
    var n, column := |vs| as real, Coordinate(vs, dim, j);
    if exists i :: 0 <= i < |w| && w[i] != 0.0 {
      CombScale(1.0 / n, w, vs, dim);
      CombAt(w, vs, dim, j);
      var t := Total(Products(w, column));
      Divide(1.0, n);
      Associate(n, 1.0 / n, t);
      OneTimes(t);
    } else {
      MeanIsAverage(vs, dim, j);
    }
  }

  /** p and q count for nothing in the answer, whatever they submit, exactly when somebody has a non-zero
      weight; when nobody has, the answer is the plain mean. */
  ghost predicate IgnoredIff(w: Vec, share: Vec, vs: seq<Vec>, dim: nat, answer: Outcome, p: nat, q: nat)
    requires |w| == |share| == |vs| > 0 && Rect(vs, dim) && p < |vs| && q < |vs|
  {
    && answer == Ok(Comb(share, vs, dim))
    && (share[p] == share[q] == 0.0 <==> exists i :: 0 <= i < |w| && w[i] != 0.0)
    && ((forall i | 0 <= i < |w| :: w[i] == 0.0) ==> answer == Ok(Mean(vs, dim)))
    && (share[p] == share[q] == 0.0 ==> Ignored(share, vs, dim, p, q))
  }

  lemma WeightlessAreIgnored(w: Vec, vs: seq<Vec>, dim: nat, p: nat, q: nat)
    requires |w| == |vs| > 0 && Rect(vs, dim) && p < |vs| && q < |vs| && w[p] == w[q] == 0.0
    ensures IgnoredIff(w, Shares(w), vs, dim, Ok(Comb(Shares(w), vs, dim)), p, q)
  {
    hide Comb, Ignored;
    ZeroShares(w, p);
    ZeroShares(w, q);
    if Shares(w)[p] == Shares(w)[q] == 0.0 {
      UnsharedAreIgnored(Shares(w), vs, dim, p, q);
    }
  }

  /** So in the answer of that round the colluders count for nothing exactly when somebody has a non-zero
      weight; when nobody has, it is the plain mean and they count in full. */
  lemma ColludersAreIgnoredIff(sqrt: real -> real, ln: real -> real, batches: seq<seq<ClientDelta>>,
        updates: seq<ClientDelta>,
        a: string, b: string, s: real, p: nat, q: nat)
    requires IsSqrt(sqrt) && s > 0.0 && a != b
    requires forall k | 0 <= k < |batches| :: Collude(batches[k], a, b, s)
    requires Acceptable(updates) && OnlyAt(updates, a, p) && OnlyAt(updates, b, q)
    requires Plain(updates[q].weights) == Scale(s, Plain(updates[p].weights))
    requires var h := Snapshots(Run(sqrt, ln, batches), updates)[p]; h != Zero(|h|)
    ensures var history := Run(sqrt, ln, batches);
      var w := RoundWeights(sqrt, ln, history, updates);
      IgnoredIff(w, Shares(w), Decoded(updates), Dim(updates), Round(sqrt, ln, history, updates).1, p, q)
  {
    ColludersGetZero(sqrt, ln, batches, updates, a, b, s, p, q);
    TwoPositions(updates, a, b, p, q);
    RoundAnswers(sqrt, ln, Run(sqrt, ln, batches), updates);
    hide FoolsGoldWeights, Snapshots, Run, Round, Collude, IgnoredIff, Comb, Shares;
    WeightlessAreIgnored(RoundWeights(sqrt, ln, Run(sqrt, ln, batches), updates), Decoded(updates), Dim(updates), p, q);
  }

  lemma TwoPositions(updates: seq<ClientDelta>, a: string, b: string, p: nat, q: nat)
    requires OnlyAt(updates, a, p) && OnlyAt(updates, b, q) && a != b
    ensures p != q && p < |updates| && q < |updates|
  {
    assert updates[p].clientId == a && updates[q].clientId == b;
  }

  /** Whatever p and q submit instead, the combination is the same. */
  ghost predicate Ignored(c: Vec, vs: seq<Vec>, dim: nat, p: nat, q: nat)
    requires |c| == |vs| && Rect(vs, dim) && p < |vs| && q < |vs|
  {
    forall x: Vec, y: Vec | |x| == |y| == dim :: Comb(c, vs[p := x][q := y], dim) == Comb(c, vs, dim)
  }

  lemma ZeroShares(w: Vec, i: nat)
    requires i < |w| && w[i] == 0.0
    ensures Shares(w)[i] == 0.0 <==> exists k :: 0 <= k < |w| && w[k] != 0.0
  {
    ZeroTimes(1.0 / |w| as real);
    Divide(1.0, |w| as real);
  }

  lemma UnsharedAreIgnored(c: Vec, vs: seq<Vec>, dim: nat, p: nat, q: nat)
    requires |c| == |vs| && Rect(vs, dim) && p < |vs| && q < |vs| && c[p] == c[q] == 0.0
    ensures Ignored(c, vs, dim, p, q)
  {
    hide Comb;
    forall x: Vec, y: Vec | |x| == |y| == dim ensures Comb(c, vs[p := x][q := y], dim) == Comb(c, vs, dim) {
      CombIgnoresZeros(c, vs[p := x][q := y], vs, dim);
    }
  }

  lemma {:induction false} CombIgnoresZeros(c: Vec, us: seq<Vec>, vs: seq<Vec>, dim: nat)
    requires |c| == |us| == |vs| && Rect(us, dim) && Rect(vs, dim)
    requires forall i | 0 <= i < |c| && c[i] != 0.0 :: us[i] == vs[i]
    ensures Comb(c, us, dim) == Comb(c, vs, dim)
  {
    if |c| > 0 {
      var k := |c| - 1;
      CombIgnoresZeros(c[..k], us[..k], vs[..k], dim);
      if c[k] == 0.0 {
        assert Scale(c[k], us[k]) == Scale(c[k], vs[k]) by {
          forall j | 0 <= j < dim ensures Times(0.0, us[k][j]) == Times(0.0, vs[k][j]) {
            ZeroTimes(us[k][j]);
            ZeroTimes(vs[k][j]);
          }
        }
      }
    }
  }

  /** Two clients who collude alone are such a batch: they get the plain mean of what they sent. */
  lemma ColludersAloneCountInFull(sqrt: real -> real, ln: real -> real, batches: seq<seq<ClientDelta>>,
        updates: seq<ClientDelta>, a: string, b: string, s: real)
    requires IsSqrt(sqrt) && s > 0.0 && a != b
    requires forall k | 0 <= k < |batches| :: Collude(batches[k], a, b, s)
    requires |updates| == 2 && Acceptable(updates) && OnlyAt(updates, a, 0) && OnlyAt(updates, b, 1)
    requires Plain(updates[1].weights) == Scale(s, Plain(updates[0].weights))
    requires var h := Snapshots(Run(sqrt, ln, batches), updates)[0]; h != Zero(|h|)
    ensures Round(sqrt, ln, Run(sqrt, ln, batches), updates).1 == Ok(Mean(Decoded(updates), Dim(updates)))
  {
    ColludersGetZero(sqrt, ln, batches, updates, a, b, s, 0, 1);
    ColludersAreIgnoredIff(sqrt, ln, batches, updates, a, b, s, 0, 1);
    var history := Run(sqrt, ln, batches);
    hide FoolsGoldWeights, Snapshots, Run, Collude, Round, IgnoredIff, OnlyAt, Mean, Comb, Zero;
    PairGetsMean(RoundWeights(sqrt, ln, history, updates), Decoded(updates), Dim(updates),
      Round(sqrt, ln, history, updates).1);
  }

  lemma PairGetsMean(w: Vec, vs: seq<Vec>, dim: nat, answer: Outcome)
    requires |w| == |vs| == 2 && Rect(vs, dim) && w[0] == w[1] == 0.0
    requires IgnoredIff(w, Shares(w), vs, dim, answer, 0, 1)
    ensures answer == Ok(Mean(vs, dim))
  {
    hide Mean, Comb, Shares, Ignored;
    assert forall i | 0 <= i < |w| :: w[i] == 0.0;
  }
}
