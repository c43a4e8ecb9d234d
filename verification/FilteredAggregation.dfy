// `FilteredAggregator` (robust.rs), which hands the survivors of a filter to any other aggregator.
module FilteredAggregation {
  import opened Reals
  import opened Vectors
  import opened Wrappers
  import opened Updates
  import opened Sorting
  import opened OrderStatistics
  import opened Krum
  import opened Bulyan
  import Faba

  datatype Filter = KrumF(fraction: real) | MultiKrumF(fraction: real) | BulyanF(fraction: real) | FabaF(fraction: real)

  /** What each filter keeps. */
  function Selection(filter: Filter, vs: seq<Vec>, dim: nat): seq<nat>
    requires |vs| > 0 && Rect(vs, dim)
  {
    var n := |vs|;
    match filter
    case KrumF(fraction) => [FirstMin(Scores(fraction, vs, dim))]
    case MultiKrumF(fraction) =>
      SortBy(LowestScores(Scores(fraction, vs, dim), n - ByzantineCount(fraction, n)), IndexKey())
    case BulyanF(fraction) => SortBy(Picks(fraction, vs, dim, Indices(n), Theta(fraction, n)), IndexKey())
    case FabaF(fraction) => SortBy(Faba.Remaining(vs, dim, ByzantineCount(fraction, n)), IndexKey())
  }

  /** How many of n updates each filter keeps. */
  function Survivors(filter: Filter, n: nat): nat
    requires n > 0
  {
    match filter
    case KrumF(_) => 1
    case MultiKrumF(fraction) => n - ByzantineCount(fraction, n)
    case BulyanF(fraction) => Theta(fraction, n)
    case FabaF(fraction) => n - ByzantineCount(fraction, n)
  }

  /** Every filter keeps a fixed positive number of updates, each once, in batch order. */
  lemma SelectionIsAscending(filter: Filter, vs: seq<Vec>, dim: nat)
    requires |vs| > 0 && Rect(vs, dim)
    ensures |Selection(filter, vs, dim)| == Survivors(filter, |vs|) >= 1
    ensures Ascending(Selection(filter, vs, dim), |vs|)
  {
    hide Scores, SortBy, Picks, Faba.Remaining;
    match filter
    case KrumF(fraction) =>
    case MultiKrumF(fraction) =>
      RankingIsPermutation(|vs|, ScoreKey(Scores(fraction, vs, dim)));
      SortedIndices(LowestScores(Scores(fraction, vs, dim), |vs| - ByzantineCount(fraction, |vs|)), |vs|);
    case BulyanF(fraction) => BulyanSelects(fraction, vs, dim);
    case FabaF(fraction) => Faba.FabaSelects(fraction, vs, dim);
  }

  method Select(sqrt: real -> real, filter: Filter, vs: seq<Vec>, dim: nat) returns (selected: seq<nat>)
    requires IsSqrt(sqrt) && |vs| > 0 && Rect(vs, dim)
    ensures selected == Selection(filter, vs, dim)
  {
    hide Scores, SortBy, Picks, FirstMin, Theta, Faba.Remaining;
    match filter
    case KrumF(fraction) =>
      var best := KrumFilter(sqrt, fraction, vs, dim);
      FirstMinimumIsUnique(Scores(fraction, vs, dim), best, FirstMin(Scores(fraction, vs, dim)));
      selected := [best];
    case MultiKrumF(fraction) => selected := MultiKrumFilter(sqrt, fraction, vs, dim);
    case BulyanF(fraction) => selected := BulyanFilter(sqrt, fraction, vs, dim);
    case FabaF(fraction) => selected := Faba.FabaFilter(sqrt, fraction, vs, dim);
  }

  /** The updates at the selected indices. */
  function Chosen(updates: seq<ClientDelta>, selected: seq<nat>): (c: seq<ClientDelta>)
    requires forall i | 0 <= i < |selected| :: selected[i] < |updates|
    ensures |c| == |selected|
  {
    seq(|selected|, i requires 0 <= i < |selected| => updates[selected[i]])
  }

  /** The combiner's answer on the survivors. Bulyan looks at a lone update only to hand it on, so
      nothing has been decoded then. */
  function Filtered(filter: Filter, combiner: seq<ClientDelta> -> Outcome, updates: seq<ClientDelta>): Outcome {
    if |updates| == 0 then Err(EmptyBatch)
    else if filter.BulyanF? && |updates| == 1 then combiner(updates)
    else
      match DecodeAndValidate(updates)
      case Err(e) => Err(e)
      case Ok(vs) =>
        SelectionIsAscending(filter, vs, Dim(updates));
        combiner(Chosen(updates, Selection(filter, vs, Dim(updates))))
  }

  /** `FilteredAggregator::aggregate` over any combiner, which is never given an empty batch. */
  method FilteredAggregate(sqrt: real -> real, filter: Filter, combiner: seq<ClientDelta> -> Outcome,
                           updates: seq<ClientDelta>) returns (r: Outcome)
    requires IsSqrt(sqrt)
    ensures r == Filtered(filter, combiner, updates)
  {
    hide Selection;
    if |updates| == 0 { return Err(EmptyBatch); }
    if filter.BulyanF? && |updates| == 1 {
      assert updates == [updates[0]];
      return combiner([updates[0]]);
    }
    var decoded := DecodeAndValidate(updates);
    if decoded.Err? { return Err(decoded.error); }
    var selected := Select(sqrt, filter, decoded.value, Dim(updates));
    SelectionIsAscending(filter, decoded.value, Dim(updates));
    if |selected| == 0 { return Err(EmptyBatch); }
    r := combiner(Chosen(updates, selected));
  }

  function Best(fraction: real, vs: seq<Vec>, dim: nat): (best: nat)
    requires |vs| > 0 && Rect(vs, dim)
    ensures best < |vs|
  {
    FirstMin(Scores(fraction, vs, dim))
  }

  lemma FedAvgOfOne(u: ClientDelta)
    requires AllFinite(u.weights) && u.numSamples <= MAX_PLAUSIBLE_SAMPLE_COUNT
    ensures FedAvg([u]) == if u.numSamples == 0 then Err(ZeroWeightSum) else Ok(Plain(u.weights))
  {
    assert Acceptable([u]);
    var c, v := SampleCounts([u]), Plain(u.weights);
    assert c[..0] == [] && Total(c) == u.numSamples as real;
    if u.numSamples > 0 {
      var w := Over(c, Total(c));
      DivideUnique(Total(c), Total(c), 1.0);
      assert w == [1.0] && Decoded([u]) == [v];
      assert Comb([1.0], [v], |v|) == Add(Zero(|v|), Scale(1.0, v)) == v by {
        assert [1.0][..0] == [] && [v][..0] == [];
      }
    }
  }

  /** Krum as the catalog composes it, with FedAvg: the answer is the selected update itself exactly
      when that update reports samples; otherwise the round fails. With few enough attackers the
      answer is an honest update or near one. */
  lemma KrumAnswers(fraction: real, updates: seq<ClientDelta>, byz: set<nat>, d: real)
    requires |updates| > 0 && Acceptable(updates)
    ensures var vs, dim := Decoded(updates), Dim(updates);
      var best := Best(fraction, vs, dim);
      && Filtered(KrumF(fraction), FedAvg, updates)
         == (if updates[best].numSamples == 0 then Err(ZeroWeightSum) else Ok(vs[best]))
      && (KrumRegime(fraction, |vs|, byz) && HonestCluster(vs, dim, byz, d) ==>
            Resilient(fraction, vs, dim, byz, d, best))
  {
    hide FirstMin, Scores, KrumRegime, HonestCluster, Resilient, FedAvg;
    var vs, dim := Decoded(updates), Dim(updates);
    var best := Best(fraction, vs, dim);
    SelectionIsAscending(KrumF(fraction), vs, dim);
    assert Chosen(updates, [best]) == [updates[best]];
    FedAvgOfOne(updates[best]);
    if KrumRegime(fraction, |vs|, byz) && HonestCluster(vs, dim, byz, d) {
      KrumIsResilient(fraction, vs, dim, byz, d, best);
    }
  }

  /** Multi-Krum as the catalog composes it, with FedAvg: the answer is the weighted mean of the n − f updates of
      least score, ties going to the earlier, and fails when they report no samples. With few enough attackers
      every one of them is honest or near an honest one. */
  lemma MultiKrumAnswers(fraction: real, updates: seq<ClientDelta>, byz: set<nat>, d: real)
    requires |updates| > 0 && Acceptable(updates)
    ensures var n, vs, dim := |updates|, Decoded(updates), Dim(updates);
      var kept := Selection(MultiKrumF(fraction), vs, dim);
      && Ascending(kept, n) && |kept| == n - ByzantineCount(fraction, n)
      && (forall i: nat, x: nat | i in kept && x < n && x !in kept ::
            i < n && (Score(fraction, vs, dim, i) < Score(fraction, vs, dim, x)
                      || (Score(fraction, vs, dim, i) == Score(fraction, vs, dim, x) && i < x)))
      && AnswersMean(MultiKrumF(fraction), updates, kept)
      && (KrumRegime(fraction, n, byz) && HonestCluster(vs, dim, byz, d) ==>
            forall i | i in kept :: i < n && Resilient(fraction, vs, dim, byz, d, i))
  {
    hide KrumRegime, HonestCluster, Resilient, Score, ByzantineCount, Selection, Ascending, AnswersMean, Decoded;
    SelectionIsAscending(MultiKrumF(fraction), Decoded(updates), Dim(updates));
    MultiKrumRanks(fraction, Decoded(updates), Dim(updates));
    AnswerIsMean(MultiKrumF(fraction), updates);
    if KrumRegime(fraction, |updates|, byz) && HonestCluster(Decoded(updates), Dim(updates), byz, d) {
      MultiKrumKeepsResilient(fraction, Decoded(updates), Dim(updates), byz, d);
    }
  }

  lemma MultiKrumRanks(fraction: real, vs: seq<Vec>, dim: nat)
    requires |vs| > 0 && Rect(vs, dim)
    ensures var kept := Selection(MultiKrumF(fraction), vs, dim);
      forall i: nat, x: nat | i in kept && x < |vs| && x !in kept ::
        i < |vs| && (Score(fraction, vs, dim, i) < Score(fraction, vs, dim, x)
                     || (Score(fraction, vs, dim, i) == Score(fraction, vs, dim, x) && i < x))
  {
    hide Selection, LowestScores, Score, ByzantineCount, Scores;
    MultiKrumKeeps(fraction, vs, dim);
    var kept, scores := Selection(MultiKrumF(fraction), vs, dim), Scores(fraction, vs, dim);
    forall i: nat, x: nat | i in kept && x < |vs| && x !in kept
      ensures i < |vs| && (Score(fraction, vs, dim, i) < Score(fraction, vs, dim, x)
                           || (Score(fraction, vs, dim, i) == Score(fraction, vs, dim, x) && i < x))
    {
      Preferred(scores, |vs| - ByzantineCount(fraction, |vs|), i, x);
      ScoresAt(fraction, vs, dim, i);
      ScoresAt(fraction, vs, dim, x);
    }
  }

  lemma ScoresAt(fraction: real, vs: seq<Vec>, dim: nat, i: nat)
    requires Rect(vs, dim) && i < |vs|
    ensures Scores(fraction, vs, dim)[i] == Score(fraction, vs, dim, i)
  {
    hide Score;
  }

  lemma Preferred(scores: Vec, m: nat, i: nat, x: nat)
    requires m <= |scores| && i in LowestScores(scores, m) && x < |scores| && x !in LowestScores(scores, m)
    ensures i < |scores| && (scores[i] < scores[x] || (scores[i] == scores[x] && i < x))
  {
    LowestScoresBreakTies(scores, m);
    hide LowestScores;
    var r: nat :| r < m && LowestScores(scores, m)[r] == i;
  }

  lemma MultiKrumKeepsResilient(fraction: real, vs: seq<Vec>, dim: nat, byz: set<nat>, d: real)
    requires |vs| > 0 && Rect(vs, dim) && KrumRegime(fraction, |vs|, byz) && HonestCluster(vs, dim, byz, d)
    ensures forall i | i in Selection(MultiKrumF(fraction), vs, dim) ::
      i < |vs| && Resilient(fraction, vs, dim, byz, d, i)
  {
    hide Selection, KrumRegime, HonestCluster, Resilient, Score, ByzantineCount, LowestScores, Scores;
    MultiKrumKeeps(fraction, vs, dim);
    var m := |vs| - ByzantineCount(fraction, |vs|);
    var lowest := LowestScores(Scores(fraction, vs, dim), m);
    forall i | i in Selection(MultiKrumF(fraction), vs, dim)
      ensures i < |vs| && Resilient(fraction, vs, dim, byz, d, i)
    {
      var r: nat :| r < m && lowest[r] == i;
      MultiKrumIsResilient(fraction, vs, dim, byz, d, r);
    }
  }

  lemma MultiKrumKeeps(fraction: real, vs: seq<Vec>, dim: nat)
    requires |vs| > 0 && Rect(vs, dim)
    ensures var lowest := LowestScores(Scores(fraction, vs, dim), |vs| - ByzantineCount(fraction, |vs|));
      forall x: nat :: x in Selection(MultiKrumF(fraction), vs, dim) <==> x in lowest
  {
    hide Scores, SortBy, ByzantineCount;
    RankingIsPermutation(|vs|, ScoreKey(Scores(fraction, vs, dim)));
    SortedIndices(LowestScores(Scores(fraction, vs, dim), |vs| - ByzantineCount(fraction, |vs|)), |vs|);
  }

  /** FABA as the catalog composes it: the answer is the weighted mean of what is left after f removals. */
  lemma FabaAnswers(fraction: real, updates: seq<ClientDelta>)
    requires |updates| > 0 && Acceptable(updates)
    ensures var n, vs, dim := |updates|, Decoded(updates), Dim(updates);
      var kept := Selection(FabaF(fraction), vs, dim);
      kept == Faba.Remaining(vs, dim, ByzantineCount(fraction, n)) && AnswersMean(FabaF(fraction), updates, kept)
  {
    hide AnswersMean, Faba.Remaining, Selection, Decoded, ByzantineCount;
    FabaKeeps(fraction, Decoded(updates), Dim(updates));
    AnswerIsMean(FabaF(fraction), updates);
  }

  lemma FabaKeeps(fraction: real, vs: seq<Vec>, dim: nat)
    requires |vs| > 0 && Rect(vs, dim)
    ensures Selection(FabaF(fraction), vs, dim) == Faba.Remaining(vs, dim, ByzantineCount(fraction, |vs|))
  {
    hide Faba.Remaining, SortBy, ByzantineCount;
    Faba.FabaSelects(fraction, vs, dim);
  }

  /** The filter in front of FedAvg answers the sample-weighted mean of the kept updates, or fails when they
      report no samples. */
  ghost predicate AnswersMean(filter: Filter, updates: seq<ClientDelta>, kept: seq<nat>)
    requires |kept| > 0 && (forall i | 0 <= i < |kept| :: kept[i] < |updates|)
    requires |updates| > 0 && Acceptable(updates)
  {
    ChosenDecode(updates, kept);
    var chosen, r := Chosen(updates, kept), Filtered(filter, FedAvg, updates);
    if Total(SampleCounts(chosen)) == 0.0 then r == Err(ZeroWeightSum)
    else r.Ok? && IsWeightedMean(chosen, r.value)
  }

  lemma AnswerIsMean(filter: Filter, updates: seq<ClientDelta>)
    requires |updates| > 0 && Acceptable(updates) && !filter.BulyanF?
    ensures var kept := Selection(filter, Decoded(updates), Dim(updates));
      && Ascending(kept, |updates|) && |kept| > 0 && AnswersMean(filter, updates, kept)
  {
    hide Selection, IsWeightedMean, Total;
    SelectionIsAscending(filter, Decoded(updates), Dim(updates));
    var kept := Selection(filter, Decoded(updates), Dim(updates));
    ChosenDecode(updates, kept);
    var chosen := Chosen(updates, kept);
    if FedAvg(chosen).Ok? { FedAvgMeans(chosen); }
  }

  // ----- a filter in front of a coordinate-wise statistic -----

  /** The places of the selection that hold an attacker. */
  function ByzantinePlaces(selected: seq<nat>, byz: set<nat>): (s: set<nat>) {
    set i: nat | i < |selected| && selected[i] in byz
  }

  lemma {:induction false} PlacesAreFew(selected: seq<nat>, byz: set<nat>, n: nat)
    requires Ascending(selected, n)
    ensures |ByzantinePlaces(selected, byz)| <= |byz|
  {
    if |selected| > 0 {
      var k := |selected| - 1;
      PlacesAreFew(selected[..k], byz - {selected[k]}, n);
      PlacesStep(selected, byz, n);
    }
  }

  lemma PlacesStep(selected: seq<nat>, byz: set<nat>, n: nat)
    requires |selected| > 0 && Ascending(selected, n)
    ensures var k := |selected| - 1;
      ByzantinePlaces(selected, byz)
        == ByzantinePlaces(selected[..k], byz - {selected[k]}) + if selected[k] in byz then {k} else {}
  {
  }

  lemma ChosenDecode(updates: seq<ClientDelta>, selected: seq<nat>)
    requires |updates| > 0 && Acceptable(updates) && |selected| > 0
    requires forall i | 0 <= i < |selected| :: selected[i] < |updates|
    ensures var c := Chosen(updates, selected);
      && Acceptable(c) && Dim(c) == Dim(updates)
      && forall i | 0 <= i < |selected| :: Decoded(c)[i] == Decoded(updates)[selected[i]]
  {
  }

  /** Behind any of the filters a coordinate-wise statistic answers within the honest range at every
      coordinate, as long as it withstands the attackers the filter let through. */
  lemma FilteredRange(filter: Filter, stat: Statistic, updates: seq<ClientDelta>, byz: set<nat>,
                      k: nat, lo: real, hi: real)
    requires |updates| > 0 && Acceptable(updates) && k < Dim(updates)
    requires forall i: nat | i < |updates| && i !in byz :: lo <= Decoded(updates)[i][k] <= hi
    requires Withstands(stat, Survivors(filter, |updates|),
      |ByzantinePlaces(Selection(filter, Decoded(updates), Dim(updates)), byz)|)
    ensures var r := Filtered(filter, us => CoordinateWise(stat, us), updates);
      r.Ok? && |r.value| == Dim(updates) && lo <= r.value[k] <= hi
  {
    hide Selection, Withstands;
    var selected := Selection(filter, Decoded(updates), Dim(updates));
    SelectionIsAscending(filter, Decoded(updates), Dim(updates));
    ChosenDecode(updates, selected);
    var c := Chosen(updates, selected);
    HonestRange(stat, c, ByzantinePlaces(selected, byz), k, lo, hi);
    if filter.BulyanF? && |updates| == 1 {
      assert c == updates;
    }
  }

  /** Bulyan as the catalog composes it is safe whenever the attackers chosen, or all there are, number
      at most the share of the selected set its trimmed mean discards from each end. */
  lemma BulyanIsSafe(fraction: real, updates: seq<ClientDelta>, byz: set<nat>, k: nat, lo: real, hi: real)
    requires |updates| > 0 && Acceptable(updates) && k < Dim(updates)
    requires forall i: nat | i < |updates| && i !in byz :: lo <= Decoded(updates)[i][k] <= hi
    requires var chosen := Selection(BulyanF(fraction), Decoded(updates), Dim(updates));
      var t := TrimCount(fraction, Theta(fraction, |updates|));
      |ByzantinePlaces(chosen, byz)| <= t || |byz| <= t
    ensures var r := Filtered(BulyanF(fraction), us => CoordinateWise(TrimmedMean(fraction), us), updates);
      r.Ok? && |r.value| == Dim(updates) && lo <= r.value[k] <= hi
  {
    hide Selection, TrimCount, Theta, Filtered;
    var selected := Selection(BulyanF(fraction), Decoded(updates), Dim(updates));
    SelectionIsAscending(BulyanF(fraction), Decoded(updates), Dim(updates));
    PlacesAreFew(selected, byz, |updates|);
    FilteredRange(BulyanF(fraction), TrimmedMean(fraction), updates, byz, k, lo, hi);
  }
}
