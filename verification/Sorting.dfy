// The library sort the source calls (`sort_by`, stable), and the counting facts about sorted
// sequences that the robust aggregators rest on.
module Sorting {
  import opened Reals
  import opened Vectors

  ghost predicate SortedBy<T>(s: seq<T>, key: T -> real) {
    forall i, j | 0 <= i < j < |s| :: key(s[i]) <= key(s[j])
  }

  /** x goes after every element whose key is not larger. */
  function Insert<T>(s: seq<T>, x: T, key: T -> real): (r: seq<T>)
    ensures |r| == |s| + 1
  {
    if |s| == 0 || key(s[|s|-1]) <= key(x) then s + [x]
    else Insert(s[..|s|-1], x, key) + [s[|s|-1]]
  }

  /** The insertion sort: stable, as `SortByIsStable` shows. */
  function SortBy<T>(s: seq<T>, key: T -> real): (r: seq<T>)
    ensures |r| == |s|
  {
    if |s| == 0 then [] else Insert(SortBy(s[..|s|-1], key), s[|s|-1], key)
  }

  lemma {:induction false} InsertIsSorted<T>(s: seq<T>, x: T, key: T -> real)
    requires SortedBy(s, key)
    ensures SortedBy(Insert(s, x, key), key)
    ensures forall i | 0 <= i < |s| + 1 :: key(Insert(s, x, key)[i]) <= key(Insert(s, x, key)[|s|])
    ensures key(Insert(s, x, key)[|s|]) == key(x) || (|s| > 0 && Insert(s, x, key)[|s|] == s[|s|-1])
  {
    if |s| > 0 && key(s[|s|-1]) > key(x) {
      InsertIsSorted(s[..|s|-1], x, key);
    }
  }

  lemma {:induction false} SortByIsSorted<T>(s: seq<T>, key: T -> real)
    ensures SortedBy(SortBy(s, key), key)
  {
    if |s| > 0 {
      SortByIsSorted(s[..|s|-1], key);
      InsertIsSorted(SortBy(s[..|s|-1], key), s[|s|-1], key);
    }
  }

  lemma {:induction false} InsertPermutes<T>(s: seq<T>, x: T, key: T -> real)
    ensures multiset(Insert(s, x, key)) == multiset(s) + multiset{x}
  {
    if |s| > 0 && key(s[|s|-1]) > key(x) {
      InsertPermutes(s[..|s|-1], x, key);
      assert s == s[..|s|-1] + [s[|s|-1]];
    }
  }

  lemma {:induction false} SortByPermutes<T>(s: seq<T>, key: T -> real)
    ensures multiset(SortBy(s, key)) == multiset(s)
  {
    if |s| > 0 {
      SortByPermutes(s[..|s|-1], key);
      InsertPermutes(SortBy(s[..|s|-1], key), s[|s|-1], key);
      assert s == s[..|s|-1] + [s[|s|-1]];
    }
  }

  /** The elements of one key, in order. */
  function WithKey<T>(s: seq<T>, key: T -> real, c: real): seq<T> {
    if |s| == 0 then [] else WithKey(s[..|s|-1], key, c) + if key(s[|s|-1]) == c then [s[|s|-1]] else []
  }

  lemma {:induction false} InsertIsStable<T>(s: seq<T>, x: T, key: T -> real, c: real)
    ensures WithKey(Insert(s, x, key), key, c) == WithKey(s, key, c) + if key(x) == c then [x] else []
  {
    if |s| == 0 || key(s[|s|-1]) <= key(x) {
      assert (s + [x])[..|s|] == s;
    } else {
      var k := |s| - 1;
      InsertIsStable(s[..k], x, key, c);
      var r := Insert(s[..k], x, key);
      assert (r + [s[k]])[..|r|] == r;
    }
  }

  /** The sort is stable: elements of one key keep their order. */
  lemma {:induction false} SortByIsStable<T>(s: seq<T>, key: T -> real, c: real)
    ensures WithKey(SortBy(s, key), key, c) == WithKey(s, key, c)
  {
    if |s| > 0 {
      SortByIsStable(s[..|s|-1], key, c);
      InsertIsStable(SortBy(s[..|s|-1], key), s[|s|-1], key, c);
    }
  }

  /** A permutation of a list with strictly increasing keys sorts back to that list. */
  lemma SortRestores<T>(s: seq<T>, t: seq<T>, key: T -> real)
    requires multiset(s) == multiset(t)
    requires forall i, j | 0 <= i < j < |t| :: key(t[i]) < key(t[j])
    ensures SortBy(s, key) == t
  {
    SortByPermutes(s, key);
    SortByIsSorted(s, key);
    SortedUnique(SortBy(s, key), t, key);
  }

  lemma {:induction false} SortedUnique<T>(a: seq<T>, b: seq<T>, key: T -> real)
    requires multiset(a) == multiset(b) && SortedBy(a, key)
    requires forall i, j | 0 <= i < j < |b| :: key(b[i]) < key(b[j])
    ensures a == b
  {
    hide SortedBy;
    SameLength(a, b);
    if |b| > 0 {
      var k := |b| - 1;
      SortedPrefix(a, key);
      SameLast(a, b, key);
      SameFront(a, b);
      SortedUnique(a[..k], b[..k], key);
      assert a == a[..k] + [a[k]] && b == b[..k] + [b[k]];
    }
  }

  lemma SameLength<T>(a: seq<T>, b: seq<T>)
    requires multiset(a) == multiset(b)
    ensures |a| == |b|
  {
    assert |a| == |multiset(a)| == |multiset(b)| == |b|;
  }

  lemma SortedPrefix<T>(a: seq<T>, key: T -> real)
    requires |a| > 0 && SortedBy(a, key)
    ensures SortedBy(a[..|a|-1], key)
  {
  }

  lemma SameFront<T>(a: seq<T>, b: seq<T>)
    requires |a| == |b| > 0 && a[|a|-1] == b[|b|-1] && multiset(a) == multiset(b)
    ensures multiset(a[..|a|-1]) == multiset(b[..|b|-1])
  {
    DropLast(a);
    DropLast(b);
  }

  lemma DropLast<T>(a: seq<T>)
    requires |a| > 0
    ensures multiset(a[..|a|-1]) == multiset(a) - multiset{a[|a|-1]}
  {
    assert a == a[..|a|-1] + [a[|a|-1]];
  }

  lemma SameLast<T>(a: seq<T>, b: seq<T>, key: T -> real)
    requires |a| == |b| > 0 && multiset(a) == multiset(b) && SortedBy(a, key)
    requires forall i, j | 0 <= i < j < |b| :: key(b[i]) < key(b[j])
    ensures a[|a|-1] == b[|b|-1]
  {
    var k := |b| - 1;
    assert a[k] in multiset(b) && b[k] in multiset(a);
    var i :| 0 <= i < |b| && b[i] == a[k];
    var j :| 0 <= j < |a| && a[j] == b[k];
    var lower, upper := key(b[i]), key(b[k]);
    assert key(a[j]) <= key(a[k]);
    assert i < k ==> lower < upper;
  }

  // ----- reals -----

  function Itself(): real -> real {
    (x: real) => x
  }

  function Sort(s: Vec): (r: Vec)
    ensures |r| == |s|
  {
    SortBy(s, Itself())
  }

  lemma SortIsSorted(s: Vec)
    ensures forall i, j | 0 <= i < j < |s| :: Sort(s)[i] <= Sort(s)[j]
  {
    SortByIsSorted(s, Itself());
    forall i, j | 0 <= i < j < |s| ensures Sort(s)[i] <= Sort(s)[j] {
      assert Itself()(Sort(s)[i]) <= Itself()(Sort(s)[j]);
    }
  }

  /** `values.sort_by(..)` on a slice: the library's sort leaves the slice sorted. */
  method SortInPlace(a: array<real>)
    modifies a
    ensures a[..] == Sort(old(a[..]))
  {
    var sorted := Sort(a[..]);
    forall i | 0 <= i < a.Length { a[i] := sorted[i]; }
  }

  // ----- counting -----

  function CountIf<T>(s: seq<T>, p: T -> bool): (n: nat)
    ensures n <= |s|
  {
    if |s| == 0 then 0 else CountIf(s[..|s|-1], p) + if p(s[|s|-1]) then 1 else 0
  }

  function Below(x: real): real -> bool {
    (y: real) => y < x
  }

  function Above(x: real): real -> bool {
    (y: real) => y > x
  }

  lemma {:induction false} CountInsert<T>(s: seq<T>, x: T, key: T -> real, p: T -> bool)
    ensures CountIf(Insert(s, x, key), p) == CountIf(s, p) + if p(x) then 1 else 0
  {
    if |s| == 0 || key(s[|s|-1]) <= key(x) {
      assert (s + [x])[..|s|] == s;
    } else {
      var k := |s| - 1;
      CountInsert(s[..k], x, key, p);
      var r := Insert(s[..k], x, key);
      assert (r + [s[k]])[..|r|] == r;
    }
  }

  /** Sorting does not change how many elements satisfy a property. */
  lemma {:induction false} CountSort<T>(s: seq<T>, key: T -> real, p: T -> bool)
    ensures CountIf(SortBy(s, key), p) == CountIf(s, p)
  {
    if |s| > 0 {
      CountSort(s[..|s|-1], key, p);
      CountInsert(SortBy(s[..|s|-1], key), s[|s|-1], key, p);
    }
  }

  lemma {:induction false} CountPrefix<T>(s: seq<T>, k: nat, p: T -> bool)
    requires k <= |s|
    ensures CountIf(s[..k], p) <= CountIf(s, p)
  {
    if k == |s| {
      assert s[..k] == s;
    } else {
      CountPrefix(s[..|s|-1], k, p);
      assert s[..|s|-1][..k] == s[..k];
    }
  }

  lemma {:induction false} CountAll<T>(s: seq<T>, p: T -> bool)
    requires forall i | 0 <= i < |s| :: p(s[i])
    ensures CountIf(s, p) == |s|
  {
    if |s| > 0 { CountAll(s[..|s|-1], p); }
  }

  lemma {:induction false} CountConcat<T>(a: seq<T>, b: seq<T>, p: T -> bool)
    ensures CountIf(a + b, p) == CountIf(a, p) + CountIf(b, p)
  {
    if |b| == 0 {
      assert a + b == a;
    } else {
      CountConcat(a, b[..|b|-1], p);
      assert (a + b)[..|a + b| - 1] == a + b[..|b|-1];
    }
  }

  /** Elements with the property sit at indices of B, so there are at most |B| of them. */
  lemma {:induction false} CountWithin<T>(s: seq<T>, p: T -> bool, b: set<nat>)
    requires forall i: nat | i < |s| && p(s[i]) :: i in b
    ensures CountIf(s, p) <= |b|
  {
    if |s| > 0 {
      var k := |s| - 1;
      if p(s[k]) {
        CountWithin(s[..k], p, b - {k});
      } else {
        CountWithin(s[..k], p, b);
      }
    }
  }

  lemma SmallPrefixCounts(r: Vec, i: nat, lo: real)
    requires i < |r| && r[i] < lo && forall a, b | 0 <= a < b < |r| :: r[a] <= r[b]
    ensures CountIf(r, Below(lo)) > i
  {
    CountAll(r[..i + 1], Below(lo));
    CountPrefix(r, i + 1, Below(lo));
  }

  lemma LargeSuffixCounts(r: Vec, i: nat, hi: real)
    requires i < |r| && r[i] > hi && forall a, b | 0 <= a < b < |r| :: r[a] <= r[b]
    ensures CountIf(r, Above(hi)) >= |r| - i
  {
    CountAll(r[i..], Above(hi));
    CountConcat(r[..i], r[i..], Above(hi));
    assert r == r[..i] + r[i..];
  }

  lemma CountSorted(s: Vec, p: real -> bool)
    ensures CountIf(Sort(s), p) == CountIf(s, p)
  {
    CountSort(s, Itself(), p);
  }

  /** If at most t values are below `lo`, every value from rank t on is at least `lo`. */
  lemma RankFromBelow(s: Vec, t: nat, lo: real)
    requires CountIf(s, Below(lo)) <= t
    ensures forall i | t <= i < |s| :: Sort(s)[i] >= lo
  {
    hide Sort, CountIf, Below;
    CountSorted(s, Below(lo));
    SortIsSorted(s);
    forall i | t <= i < |s| ensures Sort(s)[i] >= lo {
      if Sort(s)[i] < lo { SmallPrefixCounts(Sort(s), i, lo); }
    }
  }

  /** If at most t values are above `hi`, every value but the last t of the order is at most `hi`. */
  lemma RankFromAbove(s: Vec, t: nat, hi: real)
    requires CountIf(s, Above(hi)) <= t
    ensures forall i | 0 <= i < |s| - t :: Sort(s)[i] <= hi
  {
    hide Sort, CountIf, Above;
    CountSorted(s, Above(hi));
    SortIsSorted(s);
    forall i | 0 <= i < |s| - t ensures Sort(s)[i] <= hi {
      if Sort(s)[i] > hi { LargeSuffixCounts(Sort(s), i, hi); }
    }
  }

  /** The same for any key: if at most t elements have a key above `hi`, all but the last t
      of the order have a key of at most `hi`. */
  lemma RankKeyFromAbove<T>(s: seq<T>, key: T -> real, p: T -> bool, t: nat, hi: real)
    requires forall x {:trigger p(x)} | x in s :: p(x) <==> key(x) > hi
    requires CountIf(s, p) <= t
    ensures forall i | 0 <= i < |s| - t :: key(SortBy(s, key)[i]) <= hi
  {
    var r := SortBy(s, key);
    CountSort(s, key, p);
    SortByIsSorted(s, key);
    SortByPermutes(s, key);
    hide SortBy, CountIf;
    forall x | x in r ensures x in s {
      assert x in multiset(r);
    }
    forall i | 0 <= i < |s| - t ensures key(r[i]) <= hi {
      if key(r[i]) > hi { LargeKeysCount(r, key, p, i, hi); }
    }
  }

  lemma LargeKeysCount<T>(r: seq<T>, key: T -> real, p: T -> bool, i: nat, hi: real)
    requires i < |r| && SortedBy(r, key) && key(r[i]) > hi
    requires forall x {:trigger p(x)} | x in r :: p(x) <==> key(x) > hi
    ensures CountIf(r, p) >= |r| - i
  {
    forall j | i <= j < |r| ensures p(r[j]) {
      assert i < j ==> key(r[i]) <= key(r[j]);
    }
    hide SortedBy, CountIf;
    CountAll(r[i..], p);
    CountConcat(r[..i], r[i..], p);
    assert r == r[..i] + r[i..];
  }

  // ----- ranking indices -----

  function Indices(n: nat): (s: seq<nat>)
    ensures |s| == n
  {
    seq(n, i requires 0 <= i < n => i)
  }

  function Members(s: seq<nat>): set<nat> {
    set i | i in s
  }

  lemma {:induction false} DistinctSetSize(s: seq<nat>)
    requires forall i, j | 0 <= i < j < |s| :: s[i] != s[j]
    ensures |Members(s)| == |s|
  {
    if |s| > 0 {
      var k := |s| - 1;
      DistinctSetSize(s[..k]);
      assert Members(s) == Members(s[..k]) + {s[k]};
      assert s[k] !in Members(s[..k]);
    }
  }

  /** The members of a stable ranking of 0..n: a permutation, so distinct and in range. */
  lemma RankingIsPermutation(n: nat, key: nat -> real)
    ensures forall i | 0 <= i < n :: SortBy<nat>(Indices(n), key)[i] < n
    ensures forall i, j | 0 <= i < j < n :: SortBy<nat>(Indices(n), key)[i] != SortBy<nat>(Indices(n), key)[j]
    ensures forall x: nat | x < n :: x in SortBy<nat>(Indices(n), key)
  {
    var s := Indices(n);
    var r := SortBy(s, key);
    SortByPermutes(s, key);
    forall i | 0 <= i < n ensures r[i] < n {
      assert r[i] in multiset(r);
      assert r[i] in s;
    }
    forall x: nat | x < n ensures x in r {
      assert s[x] == x;
      assert x in multiset(s);
    }
    forall i, j | 0 <= i < j < n ensures r[i] != r[j] {
      if r[i] == r[j] {
        TwiceCounts(r, i, j);
        OnceCounts(n, r[i]);
      }
    }
  }

  function ScoreKey(scores: Vec): nat -> real {
    (i: nat) => if i < |scores| then scores[i] else 0.0
  }

  function IndexKey(): nat -> real {
    (i: nat) => i as real
  }

  /** The m indices with the lowest scores, in score order. */
  function LowestScores(scores: Vec, m: nat): (r: seq<nat>)
    requires m <= |scores|
    ensures |r| == m
  {
    SortBy<nat>(Indices(|scores|), ScoreKey(scores))[..m]
  }

  /** They are m distinct indices, and nobody left out scores less. */
  lemma LowestScoresAreLowest(scores: Vec, m: nat)
    requires m <= |scores|
    ensures var r := LowestScores(scores, m);
      && (forall i | 0 <= i < m :: r[i] < |scores|)
      && (forall i, j | 0 <= i < j < m :: r[i] != r[j])
      && (forall i, x: nat | 0 <= i < m && x < |scores| && x !in r :: scores[r[i]] <= scores[x])
  {
    var key, n := ScoreKey(scores), |scores|;
    var all := SortBy<nat>(Indices(n), key);
    RankingIsPermutation(n, key);
    SortByIsSorted<nat>(Indices(n), key);
    hide SortBy;
    var r := all[..m];
    forall j | 0 <= j < m ensures all[j] in r {
      assert r[j] == all[j];
    }
    forall i, x: nat | 0 <= i < m && x < n && x !in r ensures scores[r[i]] <= scores[x] {
      assert x in all;
      var j :| 0 <= j < n && all[j] == x;
      assert j >= m;
      assert key(all[i]) <= key(all[j]);
    }
  }

  /** By key, and by index among equal keys. */
  ghost predicate Ranked(r: seq<nat>, key: nat -> real) {
    forall i, j | 0 <= i < j < |r| :: key(r[i]) < key(r[j]) || (key(r[i]) == key(r[j]) && r[i] < r[j])
  }

  lemma {:induction false} InsertKeepsRanked(r: seq<nat>, x: nat, key: nat -> real)
    requires Ranked(r, key) && forall i | 0 <= i < |r| :: r[i] < x
    ensures Ranked(Insert(r, x, key), key)
  {
    if |r| > 0 && key(r[|r|-1]) > key(x) {
      var k := |r| - 1;
      InsertKeepsRanked(r[..k], x, key);
      var s := Insert(r[..k], x, key);
      forall i | 0 <= i < |s| ensures key(s[i]) < key(r[k]) || (key(s[i]) == key(r[k]) && s[i] < r[k]) {
        InsertFrom(r[..k], x, key, i);
      }
    }
  }

  lemma InsertFrom<T>(s: seq<T>, x: T, key: T -> real, i: nat)
    requires i <= |s|
    ensures Insert(s, x, key)[i] == x || Insert(s, x, key)[i] in s
  {
    InsertPermutes(s, x, key);
    assert Insert(s, x, key)[i] in multiset(Insert(s, x, key));
  }

  lemma {:induction false} IndicesRanked(n: nat, key: nat -> real)
    ensures Ranked(SortBy<nat>(Indices(n), key), key)
  {
    if n > 0 {
      assert Indices(n)[..n - 1] == Indices(n - 1);
      IndicesRanked(n - 1, key);
      RankingIsPermutation(n - 1, key);
      InsertKeepsRanked(SortBy<nat>(Indices(n - 1), key), n - 1, key);
    }
  }

  /** Ties go to the earlier index: one left out scores more than everyone chosen, or as much and
      comes later. */
  lemma LowestScoresBreakTies(scores: Vec, m: nat)
    requires m <= |scores|
    ensures var r := LowestScores(scores, m);
      forall i, x: nat | 0 <= i < m && x < |scores| && x !in r ::
        r[i] < |scores| && (scores[r[i]] < scores[x] || (scores[r[i]] == scores[x] && r[i] < x))
  {
    var key, n := ScoreKey(scores), |scores|;
    var all := SortBy<nat>(Indices(n), key);
    RankingIsPermutation(n, key);
    IndicesRanked(n, key);
    hide SortBy;
    var r := all[..m];
    forall j | 0 <= j < m ensures all[j] in r {
      assert r[j] == all[j];
    }
    forall i, x: nat | 0 <= i < m && x < n && x !in r
      ensures r[i] < n && (scores[r[i]] < scores[x] || (scores[r[i]] == scores[x] && r[i] < x))
    {
      assert x in all;
      var j :| 0 <= j < n && all[j] == x;
      assert j >= m;
      assert r[i] == all[i];
    }
  }

  lemma TwiceCounts<T>(r: seq<T>, i: nat, j: nat)
    requires i < j < |r| && r[i] == r[j]
    ensures multiset(r)[r[i]] >= 2
  {
    assert r == r[..i] + [r[i]] + r[i + 1..j] + [r[j]] + r[j + 1..];
  }

  lemma {:induction false} OnceCounts(n: nat, x: nat)
    ensures multiset(Indices(n))[x] <= 1
    ensures x >= n ==> multiset(Indices(n))[x] == 0
  {
    if n > 0 {
      OnceCounts(n - 1, x);
      assert Indices(n) == Indices(n - 1) + [n - 1];
    }
  }

  // ----- sums of the smallest -----

  /** The sum of the k smallest values. */
  function SmallestSum(s: Vec, k: nat): real
    requires k <= |s|
  {
    Total(Sort(s)[..k])
  }

  /** If all but t values are at most `hi`, the k ≤ |s| − t smallest sum to at most k·hi. */
  lemma SmallestSumAtMost(s: Vec, k: nat, t: nat, hi: real)
    requires k + t <= |s| && CountIf(s, Above(hi)) <= t
    ensures SmallestSum(s, k) <= Times(k as real, hi)
  {
    hide Sort, CountIf, Total, Times;
    RankFromAbove(s, t, hi);
    TotalAtMost(Sort(s)[..k], hi);
  }

  lemma {:induction false} TotalAtMost(c: Vec, hi: real)
    requires forall i | 0 <= i < |c| :: c[i] <= hi
    ensures Total(c) <= Times(|c| as real, hi)
  {
    if |c| > 0 {
      TotalAtMost(c[..|c|-1], hi);
      Distribute((|c| - 1) as real, 1.0, hi);
    }
  }

  /** If non-negative values have at most t below `lo`, the k ≥ t smallest sum to at least (k−t)·lo. */
  lemma SmallestSumAtLeast(s: Vec, k: nat, t: nat, lo: real)
    requires t <= k <= |s| && CountIf(s, Below(lo)) <= t && lo >= 0.0
    requires forall i | 0 <= i < |s| :: s[i] >= 0.0
    ensures SmallestSum(s, k) >= Times((k - t) as real, lo)
  {
    hide Sort, CountIf, Total, Times;
    var r := Sort(s);
    RankFromBelow(s, t, lo);
    NothingBelow(s, 0.0);
    RankFromBelow(s, 0, 0.0);
    TotalAtLeast(r[..k], t, lo);
  }

  lemma {:induction false} NothingBelow(s: Vec, lo: real)
    requires forall i | 0 <= i < |s| :: s[i] >= lo
    ensures CountIf(s, Below(lo)) == 0
  {
    if |s| > 0 { NothingBelow(s[..|s|-1], lo); }
  }

  lemma {:induction false} TotalAtLeast(c: Vec, t: nat, lo: real)
    requires t <= |c| && forall i | 0 <= i < |c| :: c[i] >= 0.0
    requires forall i | t <= i < |c| :: c[i] >= lo
    ensures Total(c) >= Times((|c| - t) as real, lo)
  {
    if |c| == t {
      TotalNonNegative(c);
      assert Times(0.0, lo) == 0.0;
    } else {
      TotalAtLeast(c[..|c|-1], t, lo);
      Distribute((|c| - 1 - t) as real, 1.0, lo);
    }
  }
}
