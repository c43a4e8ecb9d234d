// `solve` of flanders.rs: Gauss-Jordan elimination with partial pivoting, in place.
//
// The source divides and subtracts only the entries from column `col` on. The row operations
// the theory speaks about act on whole rows; the two agree because every earlier column has
// already been cleared (`Cleared`), and that invariant is what carries the proof.
module GaussJordan {
  import opened Reals
  import opened Vectors
  import opened Matrices
  import opened Wrappers

  const EPSILON: real := 0.000000000001

  // ----- linear systems -----

  /** X solves M·X = R, row by row; `k` is the number of right-hand sides. */
  ghost predicate Solves(m: Matrix, r: Matrix, x: Matrix, k: nat) {
    && |m| == |r| && Rect(m, |x|) && Rect(x, k)
    && forall i | 0 <= i < |m| :: Comb(m[i], x, k) == r[i]
  }

  /** Both systems have exactly the same solutions. */
  ghost predicate Equivalent(m: Matrix, r: Matrix, m': Matrix, r': Matrix, k: nat) {
    forall x: Matrix {:trigger Solves(m, r, x, k)} {:trigger Solves(m', r', x, k)} | Is(x, |m|, k) ::
      Solves(m, r, x, k) <==> Solves(m', r', x, k)
  }

  /** M·x = 0 only for x = 0. */
  ghost predicate TrivialKernel(m: Matrix) {
    forall x: Matrix {:trigger Solves(m, ZeroM(|m|, 1), x, 1)} ::
      Is(x, |m|, 1) && Solves(m, ZeroM(|m|, 1), x, 1) ==> x == ZeroM(|m|, 1)
  }

  /** (m', r') is (m, r) after row operations: same solutions, and the same kernel. */
  ghost predicate Reduces(m: Matrix, r: Matrix, m': Matrix, r': Matrix, k: nat) {
    && |m'| == |m|
    && Equivalent(m, r, m', r', k)
    && Equivalent(m, ZeroM(|m|, 1), m', ZeroM(|m|, 1), 1)
  }

  /** The first `col` columns are those of the identity. */
  ghost predicate Cleared(m: Matrix, col: nat) {
    forall i, c {:trigger m[i][c]} | 0 <= i < |m| && 0 <= c < col && c < |m[i]| ::
      m[i][c] == if i == c then 1.0 else 0.0
  }

  /** Elimination cannot go on: every candidate pivot of column `col` is below the threshold. */
  ghost predicate Stuck(m: Matrix, col: nat) {
    && col < |m| && Cleared(m, col)
    && forall i | col <= i < |m| :: col < |m[i]| && Abs(m[i][col]) < EPSILON
  }

  // ----- the three row operations on whole rows -----

  function Swapped(a: Matrix, p: nat, q: nat): Matrix
    requires p < |a| && q < |a|
  {
    a[p := a[q]][q := a[p]]
  }

  function Normalized(a: Matrix, c: nat, d: real): Matrix
    requires c < |a| && d != 0.0
  {
    a[c := Over(a[c], d)]
  }

  function Eliminated(a: Matrix, row: nat, c: nat, factor: real): Matrix
    requires row < |a| && c < |a| && |a[row]| == |a[c]|
  {
    a[row := Sub(a[row], Scale(factor, a[c]))]
  }

  /** The first n rows, row `c` excepted, each less its own multiple of row `c`; the factors stand in
      column `c` of `m`. */
  function Eliminations(m: Matrix, a: Matrix, c: nat, n: nat): (b: Matrix)
    requires |a| == |m| && c < |m| && Rect(m, |m|) && forall i | 0 <= i < |a| :: |a[i]| == |a[c]|
    ensures |b| == |a| && forall i | 0 <= i < |b| :: |b[i]| == |a[i]|
  {
    seq(|a|, i requires 0 <= i < |a| => if i == c || i >= n then a[i] else Sub(a[i], Scale(m[i][c], a[c])))
  }

  // ----- Gauss-Jordan elimination on whole rows -----

  /** The last of the largest entries of column `col` in rows col..i. */
  function LastLargest(m: Matrix, col: nat, i: nat): (p: nat)
    requires Rect(m, |m|) && col < i <= |m|
    ensures col <= p < i
    decreases i
  {
    if i == col + 1 then col
    else
      var p := LastLargest(m, col, i - 1);
      if Abs(m[i-1][col]) >= Abs(m[p][col]) then i - 1 else p
  }

  type System = (Matrix, Matrix)

  /** One column: pivot, swap, normalize, eliminate; None below the threshold. */
  function ColumnStep(m: Matrix, r: Matrix, k: nat, col: nat): (s: Option<System>)
    requires Rect(m, |m|) && Is(r, |m|, k) && col < |m|
    ensures s.Some? ==> Is(s.value.0, |m|, |m|) && Is(s.value.1, |m|, k)
  {
    var p := LastLargest(m, col, |m|);
    var d := m[p][col];
    if Abs(d) < EPSILON then None
    else
      var m1, r1 := Normalized(Swapped(m, col, p), col, d), Normalized(Swapped(r, col, p), col, d);
      Some((Eliminations(m1, m1, col, |m|), Eliminations(m1, r1, col, |m|)))
  }

  /** The first `col` columns, in turn. */
  function Elimination(m: Matrix, r: Matrix, k: nat, col: nat): (s: Option<System>)
    requires Rect(m, |m|) && Is(r, |m|, k) && col <= |m|
    ensures s.Some? ==> Is(s.value.0, |m|, |m|) && Is(s.value.1, |m|, k)
  {
    if col == 0 then Some((m, r))
    else
      match Elimination(m, r, k, col - 1)
      case None => None
      case Some(s) => ColumnStep(s.0, s.1, k, col - 1)
  }

  /** A system elimination can use: square, with one right-hand row per row. */
  predicate SquareSystem(m: Matrix, rhs: Matrix) {
    |m| > 0 && |m[0]| == |m| && |rhs| == |m|
  }

  /** What `solve` answers. */
  function Solution(m: Matrix, rhs: Matrix): (x: Option<Matrix>)
    requires Rect(m, Cols(m)) && Rect(rhs, Cols(rhs))
    ensures x.Some? ==> SquareSystem(m, rhs) && Is(x.value, |m|, Cols(rhs))
  {
    if !SquareSystem(m, rhs) then None
    else
      match Elimination(m, rhs, Cols(rhs), |m|)
      case None => None
      case Some(s) => Some(s.1)
  }

  /** An elimination that stopped has no later columns. */
  lemma {:induction false} StoppedStaysStopped(m: Matrix, r: Matrix, k: nat, col: nat, n: nat)
    requires Rect(m, |m|) && Is(r, |m|, k) && col <= n <= |m| && Elimination(m, r, k, col).None?
    ensures Elimination(m, r, k, n).None?
  {
    hide ColumnStep;
    if col < n { StoppedStaysStopped(m, r, k, col, n - 1); }
  }

  lemma CombOver(c: Vec, d: real, x: Matrix, k: nat)
    requires d != 0.0 && |c| == |x| && Rect(x, k)
    ensures Comb(Over(c, d), x, k) == Over(Comb(c, x, k), d)
  {
    OverIsScale(c, d);
    OverIsScale(Comb(c, x, k), d);
    CombScale(1.0 / d, c, x, k);
  }

  lemma SwapSolves(m: Matrix, r: Matrix, x: Matrix, k: nat, p: nat, q: nat)
    requires |m| == |r| && p < |m| && q < |m|
    ensures Solves(m, r, x, k) <==> Solves(Swapped(m, p, q), Swapped(r, p, q), x, k)
  {
    var m', r' := Swapped(m, p, q), Swapped(r, p, q);
    if Rect(m', |x|) {
      forall i | 0 <= i < |m| ensures |m[i]| == |x| {
        var j := if i == p then q else if i == q then p else i;
        assert m'[j] == m[i];
      }
    }
    if Solves(m', r', x, k) {
      forall i | 0 <= i < |m| ensures Comb(m[i], x, k) == r[i] {
        var j := if i == p then q else if i == q then p else i;
        assert m'[j] == m[i] && r'[j] == r[i];
      }
    }
  }

  lemma NormalizeSolves(m: Matrix, r: Matrix, x: Matrix, k: nat, c: nat, d: real)
    requires |m| == |r| && c < |m| && d != 0.0 && Rect(m, |x|) && Rect(x, k) && Rect(r, k)
    ensures Solves(m, r, x, k) <==> Solves(Normalized(m, c, d), Normalized(r, c, d), x, k)
  {
    var m', r' := Normalized(m, c, d), Normalized(r, c, d);
    CombOver(m[c], d, x, k);
    OverIsScale(Comb(m[c], x, k), d);
    OverIsScale(r[c], d);
    if Solves(m', r', x, k) {
      assert Comb(m'[c], x, k) == r'[c];
      forall i | 0 <= i < |m| ensures Comb(m[i], x, k) == r[i] {
        if i != c { assert m'[i] == m[i] && r'[i] == r[i]; }
      }
    }
  }

  lemma EliminateSolves(m: Matrix, r: Matrix, x: Matrix, k: nat, row: nat, c: nat, f: real)
    requires |m| == |r| && row < |m| && c < |m| && row != c && Rect(m, |x|) && Rect(x, k) && Rect(r, k)
    ensures Solves(m, r, x, k) <==> Solves(Eliminated(m, row, c, f), Eliminated(r, row, c, f), x, k)
  {
    hide Comb, Times;
    var m', r' := Eliminated(m, row, c, f), Eliminated(r, row, c, f);
    CombSub(m[row], Scale(f, m[c]), x, k);
    CombScale(f, m[c], x, k);
    var p, q := Comb(m[row], x, k), Scale(f, Comb(m[c], x, k));
    assert Comb(m'[row], x, k) == Sub(p, q);
    if Solves(m', r', x, k) {
      assert m'[c] == m[c] && r'[c] == r[c];
      assert Sub(p, q) == Sub(r[row], q);
      assert p == Add(Sub(p, q), q) && r[row] == Add(Sub(r[row], q), q);
      forall i | 0 <= i < |m| ensures Comb(m[i], x, k) == r[i] {
        if i != row { assert m'[i] == m[i] && r'[i] == r[i]; }
      }
    }
  }

  // ----- the operations keep `Reduces` -----

  lemma ReducesTransitive(m: Matrix, r: Matrix, m1: Matrix, r1: Matrix, m2: Matrix, r2: Matrix, k: nat)
    requires Reduces(m, r, m1, r1, k) && Reduces(m1, r1, m2, r2, k)
    ensures Reduces(m, r, m2, r2, k)
  {
  }

  lemma SwapReduces(m: Matrix, r: Matrix, k: nat, p: nat, q: nat)
    requires |m| == |r| && p < |m| && q < |m|
    ensures Reduces(m, r, Swapped(m, p, q), Swapped(r, p, q), k)
  {
    var z := ZeroM(|m|, 1);
    assert Swapped(z, p, q) == z;
    forall x: Matrix, w: nat, s: Matrix | |s| == |m|
      ensures Solves(m, s, x, w) <==> Solves(Swapped(m, p, q), Swapped(s, p, q), x, w)
    {
      SwapSolves(m, s, x, w, p, q);
    }
  }

  lemma NormalizeReduces(m: Matrix, r: Matrix, k: nat, c: nat, d: real)
    requires |m| == |r| && c < |m| && d != 0.0 && Rect(m, |m|) && Rect(r, k)
    ensures Reduces(m, r, Normalized(m, c, d), Normalized(r, c, d), k)
  {
    var z := ZeroM(|m|, 1);
    DivideNothing(d);
    assert Over(Zero(1), d) == Zero(1);
    assert Normalized(z, c, d) == z;
    forall x: Matrix, w: nat, s: Matrix | |s| == |m| && Is(x, |m|, w) && Rect(s, w)
      ensures Solves(m, s, x, w) <==> Solves(Normalized(m, c, d), Normalized(s, c, d), x, w)
    {
      NormalizeSolves(m, s, x, w, c, d);
    }
  }

  lemma DivideNothing(d: real)
    requires d != 0.0
    ensures 0.0 / d == 0.0 && d / d == 1.0
  {
  }

  lemma EliminateReduces(m: Matrix, r: Matrix, k: nat, row: nat, c: nat, f: real)
    requires |m| == |r| && row < |m| && c < |m| && row != c && Rect(m, |m|) && Rect(r, k)
    ensures Reduces(m, r, Eliminated(m, row, c, f), Eliminated(r, row, c, f), k)
  {
    var z := ZeroM(|m|, 1);
    assert Sub(Zero(1), Scale(f, Zero(1))) == Zero(1);
    assert Eliminated(z, row, c, f) == z;
    forall x: Matrix, w: nat, s: Matrix | |s| == |m| && Is(x, |m|, w) && Rect(s, w)
      ensures Solves(m, s, x, w) <==> Solves(Eliminated(m, row, c, f), Eliminated(s, row, c, f), x, w)
    {
      EliminateSolves(m, s, x, w, row, c, f);
    }
  }

  // ----- the source's steps, in place -----

  /** `(col..n).max_by(|m[a][col]| vs |m[b][col]|)` keeps the last of the largest entries. */
  method FindPivot(m: array<Vec>, col: nat) returns (pivot: nat)
    requires col < m.Length && Rect(m[..], m.Length)
    ensures pivot == LastLargest(m[..], col, m.Length)
    ensures col <= pivot < m.Length
    ensures forall i | col <= i < m.Length :: Abs(m[i][col]) <= Abs(m[pivot][col])
  {
    pivot := col;
    for i := col + 1 to m.Length
      invariant pivot == LastLargest(m[..], col, i)
      invariant forall s | col <= s < i :: Abs(m[s][col]) <= Abs(m[pivot][col])
    {
      if Abs(m[i][col]) >= Abs(m[pivot][col]) { pivot := i; }
    }
  }

  method SwapRows(a: array<Vec>, p: nat, q: nat)
    requires p < a.Length && q < a.Length
    modifies a
    ensures a[..] == Swapped(old(a[..]), p, q)
  {
    a[p], a[q] := a[q], a[p];
  }

  /** `for value in a[c][from..] { *value /= d }`; the entries before `from` are zero. */
  method DivideRow(a: array<Vec>, c: nat, from: nat, d: real)
    requires c < a.Length && from <= |a[c]| && d != 0.0
    requires forall j | 0 <= j < from :: a[c][j] == 0.0
    modifies a
    ensures a[..] == Normalized(old(a[..]), c, d)
  {
    ghost var was := a[..];
    for j := from to |a[c]|
      invariant |a[c]| == |was[c]|
      invariant forall s | 0 <= s < j :: a[c][s] == if s < from then 0.0 else was[c][s] / d
      invariant forall s | j <= s < |was[c]| :: a[c][s] == was[c][s]
      invariant forall i | 0 <= i < a.Length && i != c :: a[i] == was[i]
    {
      a[c] := a[c][j := a[c][j] / d];
    }
    DivideNothing(d);
    assert a[c] == Over(was[c], d);
  }

  /** `*t -= factor * p` from column `from` on; before it the pivot row is zero. */
  method SubtractRow(a: array<Vec>, row: nat, c: nat, from: nat, factor: real)
    requires row < a.Length && c < a.Length && row != c
    requires |a[row]| == |a[c]| && from <= |a[c]|
    requires forall j | 0 <= j < from :: a[c][j] == 0.0
    modifies a
    ensures |old(a[row])| == |old(a[c])|
    ensures a[..] == Eliminated(old(a[..]), row, c, factor)
  {
    ghost var was := a[..];
    for j := from to |a[c]|
      invariant a[c] == was[c] && |a[row]| == |was[c]|
      invariant forall s | 0 <= s < j :: a[row][s] == was[row][s] - Times(factor, was[c][s])
      invariant forall s | j <= s < |was[c]| :: a[row][s] == was[row][s]
      invariant forall i | 0 <= i < a.Length && i != row :: a[i] == was[i]
    {
      a[row] := a[row][j := a[row][j] - factor * a[c][j]];
    }
    assert a[row] == Sub(was[row], Scale(factor, was[c]));
  }

  /** Clearing column `col` in every other row; a zero factor leaves a row alone. */
  method ClearColumn(m: array<Vec>, rhs: array<Vec>, col: nat, k: nat)
    requires m != rhs && m.Length == rhs.Length && col < m.Length
    requires Rect(m[..], m.Length) && Rect(rhs[..], k)
    requires forall j | 0 <= j < col :: m[col][j] == 0.0
    modifies m, rhs
    ensures Rect(old(m[..]), m.Length) && Rect(old(rhs[..]), k)
    ensures m[..] == Eliminations(old(m[..]), old(m[..]), col, m.Length)
    ensures rhs[..] == Eliminations(old(m[..]), old(rhs[..]), col, m.Length)
  {
    var n := m.Length;
    ghost var m0, r0 := m[..], rhs[..];
    for row := 0 to n
      invariant m[..] == Eliminations(m0, m0, col, row)
      invariant rhs[..] == Eliminations(m0, r0, col, row)
    {
      EliminationsSnoc(m0, m0, col, row);
      EliminationsSnoc(m0, r0, col, row);
      hide Eliminations;
      if row == col { continue; }
      var factor := m[row][col];
      if factor == 0.0 { continue; }
      SubtractRow(m, row, col, col, factor);
      SubtractRow(rhs, row, col, 0, factor);
    }
  }

  /** One more row is one more elimination step, or none when its factor is zero. */
  lemma EliminationsSnoc(m: Matrix, a: Matrix, c: nat, row: nat)
    requires |a| == |m| && c < |m| && row < |m| && Rect(m, |m|) && forall i | 0 <= i < |a| :: |a[i]| == |a[c]|
    ensures var b := Eliminations(m, a, c, row);
      && b[row] == a[row] && b[c] == a[c]
      && Eliminations(m, a, c, row + 1) == (if row == c then b else Eliminated(b, row, c, m[row][c]))
      && (m[row][c] == 0.0 ==> Eliminations(m, a, c, row + 1) == b)
  {
    SubtractNothing(a[row], a[c]);
  }

  lemma SubtractNothing(u: Vec, v: Vec)
    requires |u| == |v|
    ensures Sub(u, Scale(0.0, v)) == u
  {
  }

  lemma NothingReduces(m: Matrix, r: Matrix, k: nat)
    ensures Reduces(m, r, m, r, k)
  {
  }

  lemma ClearedIsIdentity(m: Matrix)
    requires Rect(m, |m|) && Cleared(m, |m|)
    ensures m == Identity(|m|)
  {
    forall i | 0 <= i < |m| ensures m[i] == Unit(|m|, i) {
    }
  }

  /** The identity system is solved by its right-hand side and by nothing else. */
  lemma IdentitySystem(r: Matrix, x: Matrix, k: nat)
    requires Is(x, |r|, k) && Rect(r, k)
    ensures Solves(Identity(|r|), r, x, k) <==> x == r
  {
    forall i | 0 <= i < |r| ensures Comb(Identity(|r|)[i], x, k) == x[i] {
      CombUnit(i, x, k);
    }
  }

  /** One turn of the outer loop, in place. */
  method Advance(m: array<Vec>, rhs: array<Vec>, col: nat, k: nat) returns (ok: bool)
    requires m != rhs && m.Length == rhs.Length && col < m.Length
    requires Rect(m[..], m.Length) && Rect(rhs[..], k) && Cleared(m[..], col)
    modifies m, rhs
    ensures Rect(old(m[..]), m.Length) && Is(old(rhs[..]), m.Length, k)
    ensures ColumnStep(old(m[..]), old(rhs[..]), k, col) == if ok then Some((m[..], rhs[..])) else None
  {
    var pivot := FindPivot(m, col);
    if Abs(m[pivot][col]) < EPSILON { return false; }
    ghost var m0 := m[..];
    SwapRows(m, col, pivot);
    SwapRows(rhs, col, pivot);
    ClearedAfterSwap(m0, col, pivot);
    ghost var m1 := m[..];
    var d := m[col][col];
    DivideRow(m, col, col, d);
    DivideRow(rhs, col, 0, d);
    ClearedAfterNormalize(m1, col, d);
    ClearColumn(m, rhs, col, k);
    ok := true;
  }

  /** `solve`: in place, and on the columns from `col` on, it computes what elimination on whole rows
      computes. */
  method Solve(m0: Matrix, rhs0: Matrix) returns (r: Option<Matrix>)
    requires Rect(m0, Cols(m0)) && Rect(rhs0, Cols(rhs0))
    ensures r == Solution(m0, rhs0)
  {
    hide ColumnStep, Cleared;
    var n, k := |m0|, Cols(rhs0);
    if n == 0 || |m0[0]| != n || |rhs0| != n { return None; }
    var m := new Vec[n](i requires 0 <= i < n => m0[i]);
    var rhs := new Vec[n](i requires 0 <= i < n => rhs0[i]);
    assert m[..] == m0 && rhs[..] == rhs0;
    for col := 0 to n
      invariant Rect(m[..], n) && Rect(rhs[..], k)
      invariant Elimination(m0, rhs0, k, col) == Some((m[..], rhs[..]))
    {
      EliminationSound(m0, rhs0, k, col);
      var ok := Advance(m, rhs, col, k);
      if !ok {
        StoppedStaysStopped(m0, rhs0, k, col + 1, n);
        return None;
      }
    }
    r := Some(rhs[..]);
  }

  // ----- soundness -----

  lemma NoEliminations(m: Matrix, a: Matrix, c: nat)
    requires |a| == |m| && c < |m| && Rect(m, |m|) && forall i | 0 <= i < |a| :: |a[i]| == |a[c]|
    ensures Eliminations(m, a, c, 0) == a
  {
  }

  lemma OneMoreElimination(m: Matrix, r: Matrix, k: nat, col: nat, n: nat)
    requires |m| == |r| && col < |m| && n < |m| && Rect(m, |m|) && Rect(r, k)
    ensures Reduces(Eliminations(m, m, col, n), Eliminations(m, r, col, n),
                    Eliminations(m, m, col, n + 1), Eliminations(m, r, col, n + 1), k)
  {
    EliminationsSnoc(m, m, col, n);
    EliminationsSnoc(m, r, col, n);
    var m1, r1 := Eliminations(m, m, col, n), Eliminations(m, r, col, n);
    hide Reduces, Eliminated, Eliminations;
    if n == col { NothingReduces(m1, r1, k); } else { EliminateReduces(m1, r1, k, n, col, m[n][col]); }
  }

  lemma {:induction false} EliminationsReduce(m: Matrix, r: Matrix, k: nat, col: nat, n: nat)
    requires |m| == |r| && col < |m| && n <= |m| && Rect(m, |m|) && Rect(r, k)
    ensures Reduces(m, r, Eliminations(m, m, col, n), Eliminations(m, r, col, n), k)
  {
    hide Reduces, Eliminations;
    if n == 0 {
      NoEliminations(m, m, col);
      NoEliminations(m, r, col);
      NothingReduces(m, r, k);
    } else {
      EliminationsReduce(m, r, k, col, n - 1);
      OneMoreElimination(m, r, k, col, n - 1);
      ReducesTransitive(m, r, Eliminations(m, m, col, n - 1), Eliminations(m, r, col, n - 1),
                        Eliminations(m, m, col, n), Eliminations(m, r, col, n), k);
    }
  }

  /** Eliminating with a normalized pivot clears one more column. */
  lemma EliminationsClear(m: Matrix, col: nat)
    requires Rect(m, |m|) && col < |m| && Cleared(m, col) && m[col][col] == 1.0
    ensures Cleared(Eliminations(m, m, col, |m|), col + 1)
  {
    var b := Eliminations(m, m, col, |m|);
    forall i, c | 0 <= i < |m| && 0 <= c < col + 1 ensures b[i][c] == if i == c then 1.0 else 0.0 {
      assert c < col ==> m[col][c] == 0.0;
    }
  }

  /** One column keeps the solutions and clears the column, or is stuck on it. */
  lemma ColumnStepSound(m: Matrix, r: Matrix, k: nat, col: nat)
    requires Rect(m, |m|) && Is(r, |m|, k) && col < |m| && Cleared(m, col)
    ensures var s := ColumnStep(m, r, k, col);
      s.Some? ==> Cleared(s.value.0, col + 1) && Reduces(m, r, s.value.0, s.value.1, k)
    ensures ColumnStep(m, r, k, col).None? <==> Stuck(m, col)
  {
    hide Eliminations, Reduces, Over;
    LastLargestIsLargest(m, col, |m|);
    var p := LastLargest(m, col, |m|);
    var d := m[p][col];
    if Abs(d) >= EPSILON {
      var m1, r1 := Swapped(m, col, p), Swapped(r, col, p);
      SwapReduces(m, r, k, col, p);
      ClearedAfterSwap(m, col, p);
      var m2, r2 := Normalized(m1, col, d), Normalized(r1, col, d);
      NormalizeReduces(m1, r1, k, col, d);
      ClearedAfterNormalize(m1, col, d);
      ReducesTransitive(m, r, m1, r1, m2, r2, k);
      EliminationsReduce(m2, r2, k, col, |m|);
      EliminationsClear(m2, col);
      ReducesTransitive(m, r, m2, r2, Eliminations(m2, m2, col, |m|), Eliminations(m2, r2, col, |m|), k);
    }
  }

  lemma {:induction false} LastLargestIsLargest(m: Matrix, col: nat, i: nat)
    requires Rect(m, |m|) && col < i <= |m|
    ensures forall s | col <= s < i :: Abs(m[s][col]) <= Abs(m[LastLargest(m, col, i)][col])
    decreases i
  {
    if i > col + 1 { LastLargestIsLargest(m, col, i - 1); }
  }

  /** Elimination stops on column c: the columns before it went through, and none of its candidates
      reaches the threshold. */
  ghost predicate StopsAt(m: Matrix, r: Matrix, k: nat, c: nat)
    requires Rect(m, |m|) && Is(r, |m|, k)
  {
    c < |m| && Elimination(m, r, k, c).Some? && Stuck(Elimination(m, r, k, c).value.0, c)
  }

  /** Elimination keeps the solutions and clears its columns, unless it stops, which it does exactly on
      a column without a candidate. */
  lemma {:induction false} EliminationSound(m: Matrix, r: Matrix, k: nat, col: nat)
    requires Rect(m, |m|) && Is(r, |m|, k) && col <= |m|
    ensures var s := Elimination(m, r, k, col);
      s.Some? ==> Cleared(s.value.0, col) && Reduces(m, r, s.value.0, s.value.1, k)
    ensures Elimination(m, r, k, col).None? <==> exists c: nat :: c < col && StopsAt(m, r, k, c)
  {
    hide ColumnStep, Reduces, Stuck, Cleared;
    if col == 0 {
      NothingReduces(m, r, k);
      NothingCleared(m);
    } else {
      EliminationSound(m, r, k, col - 1);
      var before := Elimination(m, r, k, col - 1);
      if before.Some? {
        var (m1, r1) := before.value;
        ColumnStepSound(m1, r1, k, col - 1);
        var after := ColumnStep(m1, r1, k, col - 1);
        assert StopsAt(m, r, k, col - 1) <==> after.None?;
        if after.Some? { ReducesTransitive(m, r, m1, r1, after.value.0, after.value.1, k); }
      }
    }
  }

  lemma NothingCleared(m: Matrix)
    ensures Cleared(m, 0)
  {
  }

  /**
   * Whatever `solve` returns solves the system it was given, nothing else does, and the matrix was
   * invertible. On a square system it gives up exactly when elimination goes through up to some column
   * and finds all its candidates below 1e-12.
   */
  lemma SolutionIsSound(m: Matrix, rhs: Matrix)
    requires Rect(m, Cols(m)) && Rect(rhs, Cols(rhs))
    ensures Solution(m, rhs).Some? ==>
      && TrivialKernel(m)
      && forall x: Matrix | Is(x, |m|, Cols(rhs)) ::
           Solves(m, rhs, x, Cols(rhs)) <==> x == Solution(m, rhs).value
    ensures SquareSystem(m, rhs) ==>
      (Solution(m, rhs).None? <==> exists col: nat :: StopsAt(m, rhs, Cols(rhs), col))
  {
    hide Elimination, Reduces, Stuck, Solves, TrivialKernel;
    if SquareSystem(m, rhs) {
      var k := Cols(rhs);
      EliminationSound(m, rhs, k, |m|);
      var s := Elimination(m, rhs, k, |m|);
      if s.Some? {
        ClearedIsIdentity(s.value.0);
        IdentityReached(m, rhs, s.value.1, k);
      }
    }
  }

  /** A system reduced to the identity is solved by what has become of its right-hand side. */
  lemma IdentityReached(m: Matrix, r: Matrix, r': Matrix, k: nat)
    requires Reduces(m, r, Identity(|m|), r', k) && Is(r', |m|, k)
    ensures forall x: Matrix | Is(x, |m|, k) :: Solves(m, r, x, k) <==> x == r'
    ensures TrivialKernel(m)
  {
    hide Solves;
    forall x: Matrix | Is(x, |m|, k) ensures Solves(m, r, x, k) <==> x == r' {
      IdentitySystem(r', x, k);
    }
    forall x: Matrix | Is(x, |m|, 1) && Solves(m, ZeroM(|m|, 1), x, 1) ensures x == ZeroM(|m|, 1) {
      IdentitySystem(ZeroM(|m|, 1), x, 1);
    }
  }

  lemma ClearedAfterSwap(m: Matrix, col: nat, pivot: nat)
    requires Rect(m, |m|) && col <= pivot < |m| && Cleared(m, col)
    ensures Cleared(Swapped(m, col, pivot), col)
    ensures forall j | 0 <= j < col :: Swapped(m, col, pivot)[col][j] == 0.0
  {
  }

  lemma ClearedAfterNormalize(m: Matrix, col: nat, d: real)
    requires Rect(m, |m|) && col < |m| && Cleared(m, col) && d == m[col][col] && d != 0.0
    ensures Cleared(Normalized(m, col, d), col) && Normalized(m, col, d)[col][col] == 1.0
  {
    DivideNothing(d);
  }

  // ----- what giving up means -----

  /** The kernel vector read off column `col` once the columns before it are cleared. */
  function KernelVector(m: Matrix, col: nat): (x: Matrix)
    requires col < |m| && Rect(m, |m|)
    ensures Is(x, |m|, 1)
  {
    seq(|m|, i requires 0 <= i < |m| => [if i < col then -m[i][col] else if i == col then 1.0 else 0.0])
  }

  lemma {:induction false} KernelPrefix(m: Matrix, col: nat, i: nat, c: nat)
    requires col < |m| && Rect(m, |m|) && Cleared(m, col) && i < |m| && c <= |m|
    ensures Comb(m[i][..c], KernelVector(m, col)[..c], 1)[0]
         == (if i < col && i < c then -m[i][col] else 0.0) + (if col < c then m[i][col] else 0.0)
  {
    if c > 0 {
      KernelPrefix(m, col, i, c - 1);
      assert m[i][..c][..c - 1] == m[i][..c - 1];
      assert KernelVector(m, col)[..c][..c - 1] == KernelVector(m, col)[..c - 1];
    }
  }

  /** Stopping on a column of zeros means the original matrix is singular; `SolutionIsSound`
      gives the converse, that a singular matrix is always refused. */
  lemma ZeroPivotMeansSingular(m: Matrix, r: Matrix, m': Matrix, r': Matrix, k: nat, col: nat)
    requires Reduces(m, r, m', r', k) && Rect(m, |m|) && Rect(m', |m|)
    requires col < |m| && Cleared(m', col)
    requires forall i | col <= i < |m'| :: m'[i][col] == 0.0
    ensures !TrivialKernel(m)
  {
    var x, z := KernelVector(m', col), ZeroM(|m|, 1);
    forall i | 0 <= i < |m'| ensures Comb(m'[i], x, 1) == z[i] {
      KernelPrefix(m', col, i, |m'|);
      assert m'[i][..|m'|] == m'[i] && x[..|m'|] == x;
    }
    assert Solves(m', z, x, 1);
    assert Solves(m, z, x, 1);
    assert x[col][0] != z[col][0];
  }

  lemma StepMatrixIgnoresRhs(m: Matrix, r: Matrix, k: nat, s: Matrix, j: nat, col: nat)
    requires Rect(m, |m|) && Is(r, |m|, k) && Is(s, |m|, j) && col < |m|
    ensures var p, q := ColumnStep(m, r, k, col), ColumnStep(m, s, j, col);
      (p.Some? <==> q.Some?) && (p.Some? ==> p.value.0 == q.value.0)
  {
  }

  /** What elimination does to the matrix does not depend on the right-hand side. */
  lemma {:induction false} MatrixIgnoresRhs(m: Matrix, r: Matrix, k: nat, s: Matrix, j: nat, col: nat)
    requires Rect(m, |m|) && Is(r, |m|, k) && Is(s, |m|, j) && col <= |m|
    ensures var p, q := Elimination(m, r, k, col), Elimination(m, s, j, col);
      (p.Some? <==> q.Some?) && (p.Some? ==> p.value.0 == q.value.0)
  {
    hide ColumnStep;
    if col > 0 {
      MatrixIgnoresRhs(m, r, k, s, j, col - 1);
      var p, q := Elimination(m, r, k, col - 1), Elimination(m, s, j, col - 1);
      if p.Some? { StepMatrixIgnoresRhs(p.value.0, p.value.1, k, q.value.1, j, col - 1); }
    }
  }

  /** A right-hand side of small entries, zero where the pivots were. */
  predicate SmallBelow(s: Matrix, n: nat, col: nat, bound: real) {
    && Is(s, n, 1)
    && (forall i | 0 <= i < n && i < col :: s[i] == [0.0])
    && (forall i | 0 <= i < n :: Abs(s[i][0]) < bound)
  }

  /** A column step that ends in zero on its pivot row only swapped the right-hand side. */
  lemma StepPullsBack(m: Matrix, s: Matrix, col: nat, bound: real)
    requires Rect(m, |m|) && Is(s, |m|, 1) && col < |m|
    requires ColumnStep(m, s, 1, col).Some? && SmallBelow(ColumnStep(m, s, 1, col).value.1, |m|, col + 1, bound)
    ensures SmallBelow(s, |m|, col, bound)
  {
    var after := ColumnStep(m, s, 1, col).value.1;
    var p := LastLargest(m, col, |m|);
    var d := m[p][col];
    var swapped := Swapped(s, col, p);
    assert after[col] == Over(s[p], d) == [s[p][0] / d];
    Divide(s[p][0], d);
    assert s[p][0] == 0.0 by { assert Times(0.0, d) == 0.0; }
    assert s[p] == [0.0];
    forall i | 0 <= i < |m| && i != col ensures after[i] == swapped[i] {
      SubtractNothingScaled(swapped[i], Normalized(Swapped(m, col, p), col, d)[i][col]);
    }
    forall i | 0 <= i < |m| ensures Abs(s[i][0]) < bound && (i < col ==> s[i] == [0.0]) {
      if i == p {
        assert Abs(after[col][0]) < bound;
      } else if i == col {
        assert after[p] == swapped[p] == s[col];
      } else {
        assert after[i] == swapped[i] == s[i];
      }
    }
  }

  lemma SubtractNothingScaled(u: Vec, f: real)
    requires |u| == 1
    ensures Sub(u, Scale(f, [0.0])) == u
  {
    assert Times(f, 0.0) == 0.0;
  }

  lemma {:induction false} PullsBack(m: Matrix, s: Matrix, col: nat, bound: real)
    requires Rect(m, |m|) && Is(s, |m|, 1) && col <= |m|
    requires Elimination(m, s, 1, col).Some? && SmallBelow(Elimination(m, s, 1, col).value.1, |m|, col, bound)
    ensures SmallBelow(s, |m|, 0, bound)
  {
    hide ColumnStep;
    if col > 0 {
      var (m1, s1) := Elimination(m, s, 1, col - 1).value;
      hide SmallBelow;
      StepPullsBack(m1, s1, col - 1, bound);
      PullsBack(m, s, col - 1, bound);
    }
  }

  /** M·x for a single column x. */
  function Image(m: Matrix, x: Matrix): (s: Matrix)
    requires Rect(m, |x|) && Rect(x, 1)
    ensures Is(s, |m|, 1)
  {
    seq(|m|, i requires 0 <= i < |m| => Comb(m[i], x, 1))
  }

  /** x has an entry one, and M·x has none of 1e-12 or more. */
  ghost predicate AlmostKernel(m: Matrix, x: Matrix, col: nat)
    requires Rect(m, |m|)
  {
    Is(x, |m|, 1) && col < |m| && x[col][0] == 1.0 && SmallBelow(Image(m, x), |m|, 0, EPSILON)
  }

  /** A refused matrix is singular up to the threshold: the vector read off the column on which
      elimination stopped is almost a kernel vector of the original matrix. */
  lemma StoppedIsAlmostSingular(m: Matrix, r: Matrix, k: nat, col: nat)
    requires Rect(m, |m|) && Is(r, |m|, k) && StopsAt(m, r, k, col)
    ensures AlmostKernel(m, KernelVector(Elimination(m, r, k, col).value.0, col), col)
  {
    var m' := Elimination(m, r, k, col).value.0;
    var x := KernelVector(m', col);
    var s := Image(m, x);
    hide Elimination, Reduces, KernelVector, Comb, Solves, SmallBelow;
    MatrixIgnoresRhs(m, r, k, s, 1, col);
    EliminationSound(m, s, 1, col);
    var s' := Elimination(m, s, 1, col).value.1;
    ImageReduces(m, x, m', s');
    ImageOfKernelVector(m', col);
    PullsBack(m, s, col, EPSILON);
  }

  lemma ImageReduces(m: Matrix, x: Matrix, m': Matrix, s': Matrix)
    requires Rect(m, |m|) && Is(x, |m|, 1) && Is(m', |m|, |m|) && Is(s', |m|, 1)
    requires Reduces(m, Image(m, x), m', s', 1)
    ensures s' == Image(m', x)
  {
    hide Comb;
    assert Solves(m, Image(m, x), x, 1);
    assert Solves(m', s', x, 1);
  }

  lemma ImageOfKernelVector(m: Matrix, col: nat)
    requires Rect(m, |m|) && Stuck(m, col)
    ensures SmallBelow(Image(m, KernelVector(m, col)), |m|, col, EPSILON)
  {
    hide Comb;
    var x := KernelVector(m, col);
    forall i | 0 <= i < |m| ensures Abs(Image(m, x)[i][0]) < EPSILON && (i < col ==> Image(m, x)[i] == [0.0]) {
      KernelPrefix(m, col, i, |m|);
      assert m[i][..|m|] == m[i] && x[..|m|] == x;
      assert Image(m, x)[i] == Comb(m[i], x, 1);
    }
  }

  // ----- the threshold -----

  /** x·I after its first col columns: rows divided by x so far. */
  function PartlyScaled(n: nat, x: real, col: nat): (m: Matrix)
    ensures Is(m, n, n)
  {
    seq(n, i requires 0 <= i < n => if i < col then Unit(n, i) else Scale(x, Unit(n, i)))
  }

  function PartlyDivided(r: Matrix, x: real, col: nat): (s: Matrix)
    requires x != 0.0
    ensures |s| == |r| && forall i | 0 <= i < |s| :: |s[i]| == |r[i]|
  {
    seq(|r|, i requires 0 <= i < |r| => if i < col then Over(r[i], x) else r[i])
  }

  lemma PartlyScaledEntry(n: nat, x: real, col: nat, i: nat)
    requires col < n && i < n
    ensures PartlyScaled(n, x, col)[i][col] == if i == col then x else 0.0
  {
    OneTimes(x);
    assert Times(x, 0.0) == 0.0;
  }

  lemma {:induction false} ScaledPivot(n: nat, x: real, col: nat, i: nat)
    requires col < i <= n && (Abs(x) >= EPSILON || i == col + 1)
    ensures LastLargest(PartlyScaled(n, x, col), col, i) == col
    decreases i
  {
    if i > col + 1 {
      ScaledPivot(n, x, col, i - 1);
      PartlyScaledEntry(n, x, col, i - 1);
      PartlyScaledEntry(n, x, col, col);
    }
  }

  lemma ScaledNormalized(n: nat, x: real, r: Matrix, col: nat)
    requires col < n == |r| && x != 0.0
    ensures Normalized(PartlyScaled(n, x, col), col, x) == PartlyScaled(n, x, col + 1)
    ensures Normalized(PartlyDivided(r, x, col), col, x) == PartlyDivided(r, x, col + 1)
  {
    forall j | 0 <= j < n ensures Times(x, Unit(n, col)[j]) / x == Unit(n, col)[j] {
      Commute(x, Unit(n, col)[j]);
      DivideUnique(Times(x, Unit(n, col)[j]), x, Unit(n, col)[j]);
    }
    assert Over(Scale(x, Unit(n, col)), x) == Unit(n, col);
  }

  lemma ScaledStep(n: nat, x: real, r: Matrix, k: nat, col: nat)
    requires col < n && Is(r, n, k) && Abs(x) >= EPSILON
    ensures ColumnStep(PartlyScaled(n, x, col), PartlyDivided(r, x, col), k, col)
      == Some((PartlyScaled(n, x, col + 1), PartlyDivided(r, x, col + 1)))
  {
    var m, s := PartlyScaled(n, x, col), PartlyDivided(r, x, col);
    ScaledPivot(n, x, col, n);
    PartlyScaledEntry(n, x, col, col);
    assert Swapped(m, col, col) == m && Swapped(s, col, col) == s;
    var m1, s1 := Normalized(m, col, x), Normalized(s, col, x);
    ScaledNormalized(n, x, r, col);
    hide Times;
    forall i | 0 <= i < n && i != col ensures m1[i][col] == 0.0 {
      PartlyScaledEntry(n, x, col, i);
    }
    forall i | 0 <= i < n
      ensures Eliminations(m1, m1, col, n)[i] == m1[i] && Eliminations(m1, s1, col, n)[i] == s1[i]
    {
      if i != col {
        SubtractNothing(m1[i], m1[col]);
        SubtractNothing(s1[i], s1[col]);
      }
    }
    assert Eliminations(m1, m1, col, n) == m1 && Eliminations(m1, s1, col, n) == s1;
  }

  lemma {:induction false} ScaledElimination(n: nat, x: real, r: Matrix, k: nat, col: nat)
    requires n > 0 && col <= n && Is(r, n, k) && Abs(x) >= EPSILON
    ensures Elimination(PartlyScaled(n, x, 0), r, k, col)
      == Some((PartlyScaled(n, x, col), PartlyDivided(r, x, col)))
  {
    hide ColumnStep, PartlyScaled;
    if col == 0 {
      assert PartlyDivided(r, x, 0) == r;
    } else {
      hide PartlyDivided;
      ScaledElimination(n, x, r, k, col - 1);
      ScaledStep(n, x, r, k, col - 1);
    }
  }

  /** Refusal is not singularity: x·I is invertible for every x but zero, and is refused exactly when
      x is below the threshold. */
  lemma ThresholdDecides(n: nat, x: real, r: Matrix)
    requires n > 0 && |r| == n && Rect(r, Cols(r))
    ensures Solution(ScaleM(x, Identity(n)), r) == if Abs(x) < EPSILON then None else Some(PartlyDivided(r, x, n))
    ensures TrivialKernel(ScaleM(x, Identity(n))) <==> x != 0.0
  {
    var m, k := ScaleM(x, Identity(n)), Cols(r);
    assert m == PartlyScaled(n, x, 0);
    if Abs(x) >= EPSILON {
      ScaledElimination(n, x, r, k, n);
    } else {
      SmallIsRefused(n, x, r, k);
    }
    ScaledKernel(n, x);
  }

  lemma {:induction false} SmallPivot(n: nat, x: real, i: nat)
    requires 0 < i <= n && Abs(x) < EPSILON
    ensures var m := PartlyScaled(n, x, 0); Abs(m[LastLargest(m, 0, i)][0]) < EPSILON
  {
    PartlyScaledEntry(n, x, 0, i - 1);
    if i > 1 { SmallPivot(n, x, i - 1); }
  }

  lemma SmallIsRefused(n: nat, x: real, r: Matrix, k: nat)
    requires n > 0 && Is(r, n, k) && Abs(x) < EPSILON
    ensures Elimination(PartlyScaled(n, x, 0), r, k, n).None?
  {
    var m := PartlyScaled(n, x, 0);
    SmallPivot(n, x, n);
    assert Elimination(m, r, k, 0) == Some((m, r));
    assert Elimination(m, r, k, 1) == ColumnStep(m, r, k, 0);
    StoppedStaysStopped(m, r, k, 1, n);
  }

  lemma ScaledKernel(n: nat, x: real)
    requires n > 0
    ensures TrivialKernel(ScaleM(x, Identity(n))) <==> x != 0.0
  {
    var m, z := ScaleM(x, Identity(n)), ZeroM(n, 1);
    forall y: Matrix | Is(y, n, 1) ensures Solves(m, z, y, 1) <==> ScaleM(x, y) == z {
      ScaledSystem(n, x, y);
    }
    hide Solves, ScaleM, ZeroM;
    if x != 0.0 {
      forall y: Matrix | Is(y, n, 1) && ScaleM(x, y) == z ensures y == z {
        ScaledToZero(n, x, y);
      }
    } else {
      ScaledToZero(n, x, seq(n, _ => [1.0]));
    }
  }

  lemma ScaledSystem(n: nat, x: real, y: Matrix)
    requires n > 0 && Is(y, n, 1)
    ensures Solves(ScaleM(x, Identity(n)), ZeroM(n, 1), y, 1) <==> ScaleM(x, y) == ZeroM(n, 1)
  {
    var m := ScaleM(x, Identity(n));
    forall i | 0 <= i < n ensures Comb(m[i], y, 1) == ScaleM(x, y)[i] {
      CombScale(x, Unit(n, i), y, 1);
      CombUnit(i, y, 1);
    }
    hide Comb, Scale;
  }

  lemma ScaledToZero(n: nat, x: real, y: Matrix)
    requires n > 0 && Is(y, n, 1)
    ensures x != 0.0 && ScaleM(x, y) == ZeroM(n, 1) ==> y == ZeroM(n, 1)
    ensures x == 0.0 ==> ScaleM(x, y) == ZeroM(n, 1)
    ensures y[0] == [1.0] ==> y != ZeroM(n, 1)
  {
    if x != 0.0 && ScaleM(x, y) == ZeroM(n, 1) {
      forall i | 0 <= i < n ensures y[i] == Zero(1) {
        assert Scale(x, y[i]) == ScaleM(x, y)[i] == Zero(1);
        assert Scale(x, y[i])[0] == 0.0;
        ZeroFactor(x, y[i][0]);
      }
    }
    if x == 0.0 {
      forall i | 0 <= i < n ensures ScaleM(x, y)[i] == Zero(1) {
        assert Scale(0.0, y[i])[0] == 0.0;
      }
    }
    if y[0] == [1.0] {
      assert ZeroM(n, 1)[0] == Zero(1);
      assert y[0][0] == 1.0;
    }
  }

  lemma ZeroFactor(x: real, y: real)
    requires x != 0.0 && Times(x, y) == 0.0
    ensures y == 0.0
  {
  }
}
