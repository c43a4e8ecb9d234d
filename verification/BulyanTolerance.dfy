// How many attackers Bulyan withstands as the catalog composes it: its filter, and then the trimmed mean
// of a fraction of what the filter selected.
module BulyanTolerance {
  import opened Reals
  import opened Vectors
  import opened Wrappers
  import opened Updates
  import opened Sorting
  import opened OrderStatistics
  import opened Krum
  import opened Bulyan
  import opened FilteredAggregation

  /** The catalog's Bulyan. */
  function Answer(fraction: real, updates: seq<ClientDelta>): Outcome {
    Filtered(BulyanF(fraction), us => CoordinateWise(TrimmedMean(fraction), us), updates)
  }

  /** At coordinate k everyone but the attackers is between lo and hi. */
  ghost predicate HonestWithin(updates: seq<ClientDelta>, byz: set<nat>, k: nat, lo: real, hi: real)
    requires |updates| > 0 && Acceptable(updates) && k < Dim(updates)
  {
    forall i: nat | i < |updates| && i !in byz :: lo <= Decoded(updates)[i][k] <= hi
  }

  /** Whatever b attackers out of n submit, every coordinate of the answer is in the honest range. */
  ghost predicate Safe(fraction: real, n: nat, b: nat) {
    forall updates: seq<ClientDelta>, byz: set<nat>, k: nat, lo: real, hi: real |
      |updates| == n > 0 && Acceptable(updates) && k < Dim(updates) && |byz| <= b
      && HonestWithin(updates, byz, k, lo, hi) ::
      InRange(Answer(fraction, updates), k, lo, hi)
  }

  predicate InRange(r: Outcome, k: nat, lo: real, hi: real) {
    r.Ok? && k < |r.value| && lo <= r.value[k] <= hi
  }

  // ----- the attack -----

  /** The i-th corner of the simplex. */
  function Corner(n: nat, i: nat): (v: Vec)
    ensures |v| == n
  {
    seq(n, j requires 0 <= j < n => if j == i then 1.0 else 0.0)
  }

  lemma {:induction false} DotCorner(v: Vec, i: nat)
    ensures Dot(v, Corner(|v|, i)) == if i < |v| then v[i] else 0.0
  {
    if |v| > 0 {
      var k := |v| - 1;
      DotCorner(v[..k], i);
      assert Corner(|v|, i)[..k] == Corner(k, i);
      OneTimes(v[k]);
      ZeroTimes(v[k]);
    }
  }

  /** All corners are equally far apart. */
  lemma CornersAreApart(n: nat, i: nat, j: nat)
    requires i < n && j < n
    ensures SqDist(Corner(n, i), Corner(n, j)) == if i == j then 0.0 else 2.0
  {
    SqSub(Corner(n, i), Corner(n, j));
    DotCorner(Corner(n, i), i);
    DotCorner(Corner(n, i), j);
    DotCorner(Corner(n, j), j);
  }

  /** The first b clients agree on corner 0; each of the others is at a corner of its own. */
  function Place(n: nat, b: nat, i: nat): (v: Vec)
    ensures |v| == n
  {
    Corner(n, if i < b then 0 else i)
  }

  function Crowd(n: nat, b: nat): (vs: seq<Vec>)
    ensures |vs| == n && Rect(vs, n)
  {
    seq(n, i requires 0 <= i < n => Place(n, b, i))
  }

  function Batch(n: nat, b: nat): (updates: seq<ClientDelta>)
    ensures |updates| == n
  {
    seq(n, i requires 0 <= i < n => ClientDelta("", 1, Wire(Place(n, b, i)), 1, None, None))
  }

  lemma BatchIsCrowd(n: nat, b: nat)
    requires n > 0
    ensures Acceptable(Batch(n, b)) && Dim(Batch(n, b)) == n && Decoded(Batch(n, b)) == Crowd(n, b)
  {
    hide Place;
  }

  // ----- Krum takes the attackers first -----

  /** The attackers are the first c of the pool. */
  ghost predicate AttackersFirst(pool: seq<nat>, b: nat, c: nat) {
    c <= |pool| && forall k | 0 <= k < |pool| :: pool[k] < b <==> k < c
  }

  lemma CrowdDistances(n: nat, b: nat, pool: seq<nat>, i: nat, j: nat)
    requires b <= n && Valid(pool, n) && i < |pool| && j < |pool| && i != j
    ensures var d := SqDist(Pool(Crowd(n, b), n, pool)[i], Pool(Crowd(n, b), n, pool)[j]);
      0.0 <= d <= 2.0 && (pool[i] >= b ==> d == 2.0)
  {
    assert pool[i] != pool[j] by {
      if i < j { assert pool[i] < pool[j]; } else { assert pool[j] < pool[i]; }
    }
    CornersAreApart(n, if pool[i] < b then 0 else pool[i], if pool[j] < b then 0 else pool[j]);
  }

  /** Nobody is farther than √2 from an attacker, and nobody nearer than that to anybody else. */
  lemma CrowdScores(fraction: real, n: nat, b: nat, pool: seq<nat>, i: nat)
    requires b <= n && Valid(pool, n) && i < |pool|
    ensures var vs := Pool(Crowd(n, b), n, pool);
      var k := Neighbours(fraction, |vs|);
      var bound := Times((if k <= |vs| - 1 then k else |vs| - 1) as real, 2.0);
      if pool[i] < b then Score(fraction, vs, n, i) <= bound else Score(fraction, vs, n, i) >= bound
  {
    var vs := Pool(Crowd(n, b), n, pool);
    var others := Others(vs, n, i);
    var m := |vs| - 1;
    var k := if Neighbours(fraction, |vs|) <= m then Neighbours(fraction, |vs|) else m;
    forall x | 0 <= x < m ensures 0.0 <= others[x] <= 2.0 && (pool[i] >= b ==> others[x] == 2.0) {
      CrowdDistances(n, b, pool, i, if x < i then x else x + 1);
    }
    hide Crowd, Pool, Others, Neighbours, CountIf, SmallestSum;
    if pool[i] < b {
      NothingAbove(others, 2.0);
      SmallestSumAtMost(others, k, 0, 2.0);
    } else {
      NothingBelow(others, 2.0);
      SmallestSumAtLeast(others, k, 0, 2.0);
    }
  }

  lemma {:induction false} NothingAbove(s: Vec, hi: real)
    requires forall i | 0 <= i < |s| :: s[i] <= hi
    ensures CountIf(s, Above(hi)) == 0
  {
    if |s| > 0 { NothingAbove(s[..|s|-1], hi); }
  }

  lemma ChoiceIsAttacker(fraction: real, n: nat, b: nat, pool: seq<nat>)
    requires b <= n && Valid(pool, n) && |pool| > 0 && pool[0] < b
    ensures pool[Choice(fraction, Crowd(n, b), n, pool)] < b
  {
    var vs, best := Pool(Crowd(n, b), n, pool), Choice(fraction, Crowd(n, b), n, pool);
    CrowdScores(fraction, n, b, pool, 0);
    CrowdScores(fraction, n, b, pool, best);
    hide Crowd, Pool, Score, Neighbours, Times;
    var scores := Scores(fraction, vs, n);
    assert FirstMinimum(scores, best);
    if best > 0 { assert scores[best] < scores[0]; }
  }

  /** So the first picks are attackers, until none is left or enough are chosen. */
  lemma {:induction false} PicksAttackers(fraction: real, n: nat, b: nat, pool: seq<nat>, c: nat, wanted: nat)
    requires b <= n && Valid(pool, n) && wanted <= |pool| && AttackersFirst(pool, b, c)
    ensures forall t | 0 <= t < wanted && t < c :: Picks(fraction, Crowd(n, b), n, pool, wanted)[t] < b
    decreases wanted
  {
    hide Choice, Crowd;
    if wanted > 0 && |pool| > 1 && c > 0 {
      var best := Choice(fraction, Crowd(n, b), n, pool);
      ChoiceIsAttacker(fraction, n, b, pool);
      PicksStep(fraction, Crowd(n, b), n, pool, wanted);
      AttackersStayFirst(pool, b, c, best);
      PicksAttackers(fraction, n, b, Without(pool, best), c - 1, wanted - 1);
    }
  }

  lemma AttackersStayFirst(pool: seq<nat>, b: nat, c: nat, k: nat)
    requires AttackersFirst(pool, b, c) && k < |pool| && pool[k] < b
    ensures AttackersFirst(Without(pool, k), b, c - 1)
  {
  }

  // ----- the trimmed mean falls -----

  function IsAttacker(b: nat): nat -> bool {
    (i: nat) => i < b
  }

  /** Of the selected set at least the smaller of b and its size are attackers. */
  lemma SelectsAttackers(fraction: real, n: nat, b: nat)
    requires 0 < n && b <= n
    ensures var selected := Selection(BulyanF(fraction), Crowd(n, b), n);
      var theta := Theta(fraction, n);
      CountIf(selected, IsAttacker(b)) >= if b <= theta then b else theta
  {
    hide Crowd, Theta;
    var theta := Theta(fraction, n);
    var picks := Picks(fraction, Crowd(n, b), n, Indices(n), theta);
    PicksAttackers(fraction, n, b, Indices(n), b, theta);
    var m := if b <= theta then b else theta;
    hide Picks, CountIf, Indices, SortBy;
    CountAll(picks[..m], IsAttacker(b));
    CountPrefix(picks, m, IsAttacker(b));
    CountSort(picks, IndexKey(), IsAttacker(b));
  }

  lemma {:induction false} CountMirrors(v: Vec, selected: seq<nat>, b: nat)
    requires |v| == |selected| && forall i | 0 <= i < |v| :: v[i] == if selected[i] < b then 1.0 else 0.0
    ensures CountIf(v, Below(1.0)) + CountIf(selected, IsAttacker(b)) == |v|
  {
    if |v| > 0 {
      var k := |v| - 1;
      CountMirrors(v[..k], selected[..k], b);
    }
  }

  /** Coordinate 0 of what is chosen: 1 from an attacker, 0 from anybody else. */
  lemma ChosenCoordinate(n: nat, b: nat, selected: seq<nat>)
    requires 0 < b <= n && |selected| > 0 && forall i | 0 <= i < |selected| :: selected[i] < n
    ensures var c := Chosen(Batch(n, b), selected);
      && Acceptable(c) && Dim(c) == n
      && forall i | 0 <= i < |selected| ::
           Coordinate(Decoded(c), n, 0)[i] == if selected[i] < b then 1.0 else 0.0
  {
    BatchIsCrowd(n, b);
    hide Batch;
    ChosenDecode(Batch(n, b), selected);
  }

  /** More attackers than the combiner trims from the selected set lift an answer on which everybody else
      agrees, for every fraction and every n. */
  lemma AttackSucceeds(fraction: real, n: nat, b: nat)
    requires n > 0 && TrimCount(fraction, Theta(fraction, n)) < b <= n
    ensures Acceptable(Batch(n, b)) && Dim(Batch(n, b)) == n
    ensures HonestWithin(Batch(n, b), Attackers(n, 1, b), 0, 0.0, 0.0)
    ensures !InRange(Answer(fraction, Batch(n, b)), 0, 0.0, 0.0)
  {
    BatchIsCrowd(n, b);
    HonestAgree(n, b);
    hide Batch, Crowd, Theta, TrimCount, Attackers, HonestWithin, CountIf, Selection, Acceptable;
    var selected := Selection(BulyanF(fraction), Crowd(n, b), n);
    SelectionIsAscending(BulyanF(fraction), Crowd(n, b), n);
    SelectsAttackers(fraction, n, b);
    ChosenCoordinate(n, b, selected);
    var c := Chosen(Batch(n, b), selected);
    var v := Coordinate(Decoded(c), n, 0);
    CountMirrors(v, selected, b);
    TrimmedMeanLifted(fraction, v);
    AnswerIs(fraction, Batch(n, b));
  }

  lemma HonestAgree(n: nat, b: nat)
    requires 0 < b <= n
    ensures Acceptable(Batch(n, b)) && Dim(Batch(n, b)) == n
    ensures HonestWithin(Batch(n, b), Attackers(n, 1, b), 0, 0.0, 0.0)
  {
    BatchIsCrowd(n, b);
    hide Batch;
    assert forall i: nat :: GroupOf(i, 1) == i;
  }

  /** A lone update, which the filter never sees, is its own selection. */
  lemma AnswerIs(fraction: real, updates: seq<ClientDelta>)
    requires |updates| > 0 && Acceptable(updates)
    ensures var selected := Selection(BulyanF(fraction), Decoded(updates), Dim(updates));
      && Ascending(selected, |updates|) && |selected| > 0
      && Answer(fraction, updates) == CoordinateWise(TrimmedMean(fraction), Chosen(updates, selected))
  {
    hide Selection, CoordinateWise;
    SelectionIsAscending(BulyanF(fraction), Decoded(updates), Dim(updates));
    if |updates| == 1 {
      assert Chosen(updates, Selection(BulyanF(fraction), Decoded(updates), Dim(updates))) == updates;
    }
  }

  // ----- the tolerance -----

  /** For every fraction and every n: Bulyan is safe against b attackers exactly when b is at most the
      number its trimmed mean discards from each end of the selected set. */
  lemma ToleranceIs(fraction: real, n: nat, b: nat)
    requires n > 0
    ensures Safe(fraction, n, b) <==> b <= TrimCount(fraction, Theta(fraction, n))
  {
    hide TrimCount, Theta, Answer, InRange, HonestWithin, Batch, Attackers;
    if b <= TrimCount(fraction, Theta(fraction, n)) {
      forall updates: seq<ClientDelta>, byz: set<nat>, k: nat, lo: real, hi: real |
        |updates| == n && Acceptable(updates) && k < Dim(updates) && |byz| <= b
        && HonestWithin(updates, byz, k, lo, hi)
        ensures InRange(Answer(fraction, updates), k, lo, hi)
      {
        WithinTolerance(fraction, updates, byz, k, lo, hi);
      }
    } else {
      var c := if b <= n then b else n;
      AttackSucceeds(fraction, n, c);
      AttackersAreFew(n, 1, c);
    }
  }

  lemma WithinTolerance(fraction: real, updates: seq<ClientDelta>, byz: set<nat>, k: nat, lo: real, hi: real)
    requires |updates| > 0 && Acceptable(updates) && k < Dim(updates) && HonestWithin(updates, byz, k, lo, hi)
    requires |byz| <= TrimCount(fraction, Theta(fraction, |updates|))
    ensures InRange(Answer(fraction, updates), k, lo, hi)
  {
    hide TrimCount, Theta, Filtered, Selection;
    BulyanIsSafe(fraction, updates, byz, k, lo, hi);
  }

  /** The batch size the configuration asks of Bulyan is exactly what leaves the selected set large enough
      for Krum's own requirement, so a median over it would withstand all f attackers; the trimmed mean
      does exactly when f is its trim count. */
  lemma RequirementIsMajority(fraction: real, n: nat)
    requires n > 0 && 0.0 <= fraction <= 1.0
    ensures var r, theta := Requirement("bulyan", fraction, n), Theta(fraction, n);
      && r.Some? && r.value.excluded == ByzantineCount(fraction, n)
      && (r.value.SatisfiedBy(n) <==> theta >= 2 * r.value.excluded + 3)
      && (r.value.SatisfiedBy(n) ==> Withstands(Median, theta, r.value.excluded))
      && (Safe(fraction, n, r.value.excluded) <==> r.value.excluded <= TrimCount(fraction, theta))
  {
    ToleranceIs(fraction, n, ByzantineCount(fraction, n));
    hide Safe, TrimCount;
  }

  /** It does not follow: with eleven clients and the fraction 0.2 the requirement is met for two attackers,
      seven updates are selected, one is trimmed from each end, and two attackers move the answer. */
  lemma RequirementIsNotEnough()
    ensures var r := Requirement("bulyan", 0.2, 11);
      r.Some? && r.value.SatisfiedBy(11) && r.value.excluded == 2
    ensures !Safe(0.2, 11, 2)
  {
    ToleranceIs(0.2, 11, 2);
    AtTheDefault();
    hide Safe, FloorToNat, ByzantineCount;
    RequirementIsMajority(0.2, 11);
  }

  lemma AtTheDefault()
    ensures ByzantineCount(0.2, 11) == 2 && ByzantineCount(0.2, 7) == 1
  {
    assert FloorToNat(0.2 * 11.0) == 2 && FloorToNat(0.2 * 7.0) == 1;
  }
}
