// The two-row edit distance of profile.rs, and what makes it the edit distance: it is the length of
// a shortest script of insertions, deletions and substitutions, and a metric.
module Levenshtein {
  import opened Wrappers

  function Min(a: nat, b: nat): nat {
    if a <= b then a else b
  }

  /** The distance between the first i characters of a and the first j of b. */
  function Dist(a: string, i: nat, b: string, j: nat): nat
    requires i <= |a| && j <= |b|
  {
    if i == 0 then j
    else if j == 0 then i
    else
      Min(Min(Dist(a, i - 1, b, j) + 1, Dist(a, i, b, j - 1) + 1),
          Dist(a, i - 1, b, j - 1) + if a[i-1] != b[j-1] then 1 else 0)
  }

  lemma DistEdge(a: string, b: string)
    ensures forall j | 0 <= j <= |b| :: Dist(a, 0, b, j) == j
    ensures forall i | 0 <= i <= |a| :: Dist(a, i, b, 0) == i
  {
  }

  lemma DistStep(a: string, i: nat, b: string, j: nat)
    requires i < |a| && j < |b|
    ensures Dist(a, i + 1, b, j + 1)
      == Min(Min(Dist(a, i, b, j + 1) + 1, Dist(a, i + 1, b, j) + 1),
             Dist(a, i, b, j) + if a[i] != b[j] then 1 else 0)
  {
  }

  /** `levenshtein`: only two rows of the table are kept, swapped after each character of a. */
  method EditDistance(a: string, b: string) returns (d: nat)
    ensures d == Dist(a, |a|, b, |b|)
  {
    hide Dist;
    DistEdge(a, b);
    var n := |b|;
    var prev := new nat[n + 1](j => j);
    var cur := new nat[n + 1](_ => 0);
    for i := 0 to |a|
      invariant fresh(prev) && fresh(cur) && prev != cur && prev.Length == cur.Length == n + 1
      invariant forall j | 0 <= j <= n :: prev[j] == Dist(a, i, b, j)
    {
      cur[0] := i + 1;
      for j := 0 to n
        invariant forall k | 0 <= k <= n :: prev[k] == Dist(a, i, b, k)
        invariant forall k | 0 <= k <= j :: cur[k] == Dist(a, i + 1, b, k)
      {
        DistStep(a, i, b, j);
        var cost := if a[i] != b[j] then 1 else 0;
        cur[j + 1] := Min(Min(prev[j + 1] + 1, cur[j] + 1), prev[j] + cost);
      }
      prev, cur := cur, prev;
    }
    d := prev[n];
  }

  // ----- edit scripts -----

  /** One edit at the end of what has been read so far. */
  datatype Edit = Keep | Substitute(c: char) | Insert(c: char) | Delete

  function Cost(script: seq<Edit>): nat {
    if |script| == 0 then 0
    else Cost(script[..|script|-1]) + if script[|script|-1].Keep? then 0 else 1
  }

  /** The script, read left to right, consumes a and produces b. */
  predicate Rewrites(script: seq<Edit>, a: string, b: string)
    decreases |script|
  {
    if |script| == 0 then a == "" && b == ""
    else
      var rest, last := script[..|script|-1], script[|script|-1];
      match last
      case Keep => |a| > 0 && |b| > 0 && a[|a|-1] == b[|b|-1] && Rewrites(rest, a[..|a|-1], b[..|b|-1])
      case Substitute(c) => |a| > 0 && |b| > 0 && b[|b|-1] == c && Rewrites(rest, a[..|a|-1], b[..|b|-1])
      case Insert(c) => |b| > 0 && b[|b|-1] == c && Rewrites(rest, a, b[..|b|-1])
      case Delete => |a| > 0 && Rewrites(rest, a[..|a|-1], b)
  }

  function D(a: string, b: string): nat {
    Dist(a, |a|, b, |b|)
  }

  /** The distance of prefixes is the distance of the prefixes as strings. */
  lemma {:induction false} DistOfPrefix(a: string, i: nat, b: string, j: nat)
    requires i <= |a| && j <= |b|
    ensures Dist(a, i, b, j) == D(a[..i], b[..j])
  {
    Restrict(a, a[..i], i, b, b[..j], j);
  }

  lemma {:induction false} Restrict(a: string, a': string, i: nat, b: string, b': string, j: nat)
    requires i <= |a| && i <= |a'| && j <= |b| && j <= |b'|
    requires (forall k | 0 <= k < i :: a[k] == a'[k]) && (forall k | 0 <= k < j :: b[k] == b'[k])
    ensures Dist(a, i, b, j) == Dist(a', i, b', j)
    decreases i + j
  {
    hide Dist;
    DistEdge(a, b);
    DistEdge(a', b');
    if i > 0 && j > 0 {
      DistStep(a, i - 1, b, j - 1);
      DistStep(a', i - 1, b', j - 1);
      Restrict(a, a', i - 1, b, b', j);
      Restrict(a, a', i, b, b', j - 1);
      Restrict(a, a', i - 1, b, b', j - 1);
    }
  }

  /** The recurrence on whole strings. */
  lemma Unfold(a: string, b: string)
    ensures |a| == 0 ==> D(a, b) == |b|
    ensures |b| == 0 ==> D(a, b) == |a|
    ensures |a| > 0 && |b| > 0 ==>
      var a', b' := a[..|a|-1], b[..|b|-1];
      D(a, b) == Min(Min(D(a', b) + 1, D(a, b') + 1), D(a', b') + if a[|a|-1] != b[|b|-1] then 1 else 0)
  {
    hide Dist;
    DistEdge(a, b);
    assert a[..|a|] == a && b[..|b|] == b;
    if |a| > 0 && |b| > 0 {
      DistStep(a, |a| - 1, b, |b| - 1);
      DistOfPrefix(a, |a| - 1, b, |b|);
      DistOfPrefix(a, |a|, b, |b| - 1);
      DistOfPrefix(a, |a| - 1, b, |b| - 1);
    }
  }

  /** Dropping a character changes the distance by at most one. */
  lemma OneEdit(a: string, b: string)
    ensures |a| > 0 ==> D(a, b) <= D(a[..|a|-1], b) + 1
    ensures |b| > 0 ==> D(a, b) <= D(a, b[..|b|-1]) + 1
    ensures |a| > 0 && |b| > 0 ==>
      D(a, b) <= D(a[..|a|-1], b[..|b|-1]) + if a[|a|-1] != b[|b|-1] then 1 else 0
  {
    hide D;
    Unfold(a, b);
    if |a| > 0 { Unfold(a[..|a|-1], b); }
    if |b| > 0 { Unfold(a, b[..|b|-1]); }
  }

  /** No script is shorter than the distance. */
  lemma {:induction false} NoShorterScript(script: seq<Edit>, a: string, b: string)
    requires Rewrites(script, a, b)
    ensures D(a, b) <= Cost(script)
    decreases |script|
  {
    hide D;
    OneEdit(a, b);
    if |script| == 0 {
      Unfold(a, b);
    } else {
      var rest, last := script[..|script|-1], script[|script|-1];
      match last
      case Keep => NoShorterScript(rest, a[..|a|-1], b[..|b|-1]);
      case Substitute(_) => NoShorterScript(rest, a[..|a|-1], b[..|b|-1]);
      case Insert(_) => NoShorterScript(rest, a, b[..|b|-1]);
      case Delete => NoShorterScript(rest, a[..|a|-1], b);
    }
  }

  /** Some script has exactly the distance as its cost. */
  lemma {:induction false} ShortestScript(a: string, b: string) returns (script: seq<Edit>)
    ensures Rewrites(script, a, b) && Cost(script) == D(a, b)
    decreases |a| + |b|
  {
    hide D;
    Unfold(a, b);
    if |a| == 0 && |b| == 0 {
      script := [];
    } else if |b| > 0 && (|a| == 0 || D(a, b) == D(a, b[..|b|-1]) + 1) {
      Unfold(a, b[..|b|-1]);
      var rest := ShortestScript(a, b[..|b|-1]);
      script := rest + [Insert(b[|b|-1])];
      assert script[..|script|-1] == rest;
    } else if |b| == 0 || D(a, b) == D(a[..|a|-1], b) + 1 {
      Unfold(a[..|a|-1], b);
      var rest := ShortestScript(a[..|a|-1], b);
      script := rest + [Delete];
      assert script[..|script|-1] == rest;
    } else {
      var rest := ShortestScript(a[..|a|-1], b[..|b|-1]);
      script := rest + [if a[|a|-1] == b[|b|-1] then Keep else Substitute(b[|b|-1])];
      assert script[..|script|-1] == rest;
    }
  }

  // ----- a metric -----

  lemma {:induction false} Symmetric(a: string, b: string)
    ensures D(a, b) == D(b, a)
    decreases |a| + |b|
  {
    hide D;
    Unfold(a, b);
    Unfold(b, a);
    if |a| > 0 && |b| > 0 {
      Symmetric(a[..|a|-1], b);
      Symmetric(a, b[..|b|-1]);
      Symmetric(a[..|a|-1], b[..|b|-1]);
    }
  }

  /** Zero exactly between equal strings. */
  lemma {:induction false} ZeroMeansEqual(a: string, b: string)
    ensures D(a, b) == 0 <==> a == b
    decreases |a|
  {
    hide D;
    Unfold(a, b);
    if |a| > 0 && |b| > 0 {
      var a', b' := a[..|a|-1], b[..|b|-1];
      ZeroMeansEqual(a', b');
      assert a == a' + [a[|a|-1]] && b == b' + [b[|b|-1]];
    }
  }

  lemma {:induction false} LengthBounds(a: string, b: string)
    ensures D(a, b) <= |a| + |b| && |a| <= D(a, b) + |b| && |b| <= D(a, b) + |a|
    decreases |a| + |b|
  {
    hide D;
    Unfold(a, b);
    if |a| > 0 && |b| > 0 {
      LengthBounds(a[..|a|-1], b);
      LengthBounds(a, b[..|b|-1]);
      LengthBounds(a[..|a|-1], b[..|b|-1]);
    }
  }

  /** Editing a into b and b into c edits a into c. */
  lemma {:induction false} Triangle(a: string, b: string, c: string)
    ensures D(a, c) <= D(a, b) + D(b, c)
    decreases |a| + |b| + |c|
  {
    hide D;
    Unfold(a, b);
    Unfold(b, c);
    OneEdit(a, c);
    LengthBounds(a, c);
    LengthBounds(a, b);
    LengthBounds(b, c);
    if |a| > 0 && |b| > 0 && |c| > 0 {
      TriangleStep(a, b, c);
    }
  }

  lemma {:induction false} TriangleStep(a: string, b: string, c: string)
    requires |a| > 0 && |b| > 0 && |c| > 0
    ensures D(a, c) <= D(a, b) + D(b, c)
    decreases |a| + |b| + |c|, 0
  {
    hide D;
    var a', b', c' := a[..|a|-1], b[..|b|-1], c[..|c|-1];
    Unfold(a, b);
    Unfold(b, c);
    OneEdit(a, c);
    Triangle(a', b, c);
    Triangle(a, b, c');
    Triangle(a, b', c);
    Triangle(a, b', c');
    Triangle(a', b', c);
    Triangle(a', b', c');
  }

  // ----- "did you mean" -----

  /** valid[i] is the first of the keys nearest to `key`. */
  predicate FirstNearest(key: string, valid: seq<string>, i: nat) {
    && i < |valid|
    && (forall j | 0 <= j < |valid| :: D(key, valid[i]) <= D(key, valid[j]))
    && (forall j | 0 <= j < i :: D(key, valid[i]) < D(key, valid[j]))
  }

  /** The suggestion for an unknown key: the first of the nearest valid keys, if within two edits. */
  ghost predicate Suggested(key: string, valid: seq<string>, r: Option<string>) {
    && (r.None? <==> forall k | k in valid :: D(key, k) > 2)
    && (r.Some? ==> exists i: nat :: FirstNearest(key, valid, i) && valid[i] == r.value && D(key, valid[i]) <= 2)
  }

  method Suggest(key: string, valid: seq<string>) returns (r: Option<string>)
    ensures Suggested(key, valid, r)
  {
    hide D;
    r := None;
    ghost var best: nat := 0;
    var bestDistance: nat := 0;
    for i := 0 to |valid|
      invariant r.None? ==> forall j | 0 <= j < i :: D(key, valid[j]) > 2
      invariant r.Some? ==> best < i && valid[best] == r.value && bestDistance == D(key, valid[best]) <= 2
      invariant r.Some? ==> forall j | 0 <= j < i :: bestDistance <= D(key, valid[j])
      invariant r.Some? ==> forall j | 0 <= j < best :: bestDistance < D(key, valid[j])
    {
      var d := EditDistance(key, valid[i]);
      assert d == D(key, valid[i]) by { DIs(key, valid[i]); }
      if d <= 2 && (r.None? || d < bestDistance) {
        best, bestDistance, r := i, d, Some(valid[i]);
      }
    }
    assert r.Some? ==> FirstNearest(key, valid, best);
  }

  lemma DIs(a: string, b: string)
    ensures D(a, b) == Dist(a, |a|, b, |b|)
  {
  }
}
