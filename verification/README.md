# A verified model of the Conflux server's numerical and protocol core

Conflux is a federated-learning server: clients train locally and submit weight vectors, a round
buffer collects them until a quorum or a deadline, and an aggregator turns a batch into the next
global model. This project models the parts of it whose correctness is a theorem rather than a
convention, in exact real arithmetic, and proves those theorems:

- `GaussJordan`, `RidgeFit`, `RidgeExistence`, `Flanders`, `FlandersScores` (over `Matrices`): the
  linear solver, the alternating least squares fit, the ridge that keeps it solvable, the stateful top-k
  filter of `flanders.rs`, and where its scores come from.
- `OrderStatistics`, `Krum`, `Bulyan`, `Faba`, `FilteredAggregation`, `BulyanTolerance`,
  `GeometricMedian` (over `Sorting`): the Byzantine-robust family of `robust.rs`, with the batch
  requirements of `preconditions.rs`.
- `FedOpt`, `FedNova`, `Scaffold`: the server optimizers of `optimization.rs` as state machines;
  SCAFFOLD together with its Python and Rust client halves.
- `CenteredClipping`, `FoolsGold`: the cross-round defences of `temporal.rs`.
- `RoundBuffers`: the round buffer under every interleaving of any number of pushers and one flusher.
- `Levenshtein`, `Profiles`: the edit distance and the profile inheritance of `profile.rs`.
- `Chunks`: the chunkers of the two client SDKs and the server's reassembly.
- `Updates`: decoding and validating a batch, and FedAvg; `Vectors`, `Reals`, `Integers`, `Wrappers`:
  the algebra underneath.

Code that updates state in place is a class or a method over arrays here too, proved equal to a
function of its inputs and its old state (`Round`, `Solution`, `FitOf`, `Dist`, ...); the theorems are
about those functions, so they hold of what the methods compute. For each operation some of them say what
the function is without naming its parts: sums, ranks and products of the submitted values. A square root is any function `sqrt`
with `sqrt(x) >= 0` and `sqrt(x)^2 = x` on non-negative arguments, a logarithm any function `ln`.
Multiplication appears under a name (`Times`, `Prod`), which changes nothing but keeps proofs short.

## Where the code and its documentation differ

The model follows the code.

- FedYogi: two comments (`crates/conflux-core/src/optimization.rs:48-55` and `351-353`) say that the
  second moment shrinks when the squared update exceeds the estimate, and a third (`365-366`) that it
  can become negative. The code shrinks it exactly when the square is positive and below the estimate,
  and never below beta2 times the estimate (`FedOpt.YogiDirection`).
- FLANDERS: the fit is said to fail legitimately in early rounds, before there is enough history
  (`crates/conflux-core/src/flanders.rs:288-291`). In exact arithmetic it never does with a ridge of at
  least 1e-12 times the larger dimension, which the default 1e-6 is up to a million clients
  (`RidgeExistence.FitExists`).
- FedNova: a client without a step count is said to be weighted exactly as FedAvg would weight it
  (`optimization.rs:1344-1346`). It is, if and only if it carries no weight or the mean substituted for
  its count equals the effective step count (`FedNova.WeightedAsFedAvgIff`, with a counterexample in
  `FedNova.DefaultTauIsNotNeutral`). The substituted mean is not clamped, although reported counts are.
- Bulyan: n >= 4f + 3 is reported as the regime its citation covers (`preconditions.rs:3-8`, `73`), but
  the combiner trims a fraction of the selected set and not of the batch, as `robust.rs:431-438` says. It
  withstands exactly as many attackers as that trims (`BulyanTolerance.ToleranceIs`), which can be fewer
  than f with the requirement met (`BulyanTolerance.RequirementIsNotEnough`).
- Krum: averaging the one selected update is said to reproduce it (`robust.rs:174-177`). When that
  update reports zero samples the round fails instead (`FilteredAggregation.KrumAnswers`).
- FoolsGold: the aggregate is divided by the number of clients and not by the sum of the weights, so it
  is an average only when every weight is one or every weight is zero (`FoolsGold.SharesAtMostOne`).
- Chunkers: the two SDKs agree unless a variate is present but empty, or the chunk count leaves the
  range of the wire's 32-bit field (`Chunks.ChunkersAgreeIff`).
- `trainer.py` keeps its own initial weights when the server sends the all-zero placeholder, but still
  differences against the received zeros; `Scaffold.ScaffoldClient.Train` takes the local steps, and so
  that substitution, as a parameter.

## Model

| member | source | states |
|---|---|---|
| Matrices.Matmul | crates/conflux-core/src/flanders.rs:101-116 | the three nested loops, with zero factors skipped, compute the matrix product |
| Matrices.MulAt | crates/conflux-core/src/flanders.rs:101-116 | its entries are the sums over k of a[i][k] b[k][j] |
| Matrices.TransposeOf | crates/conflux-core/src/flanders.rs:118-127 | the nested loops compute the transpose |
| Matrices.Adjoint | crates/conflux-core/src/flanders.rs:301-321 | moving a factor across the Frobenius inner product transposes it: the step that turns a normal equation into a minimum |
| GaussJordan.FindPivot | crates/conflux-core/src/flanders.rs:143-148 | the pivot is the last of the largest entries of the column from the diagonal down |
| GaussJordan.DivideRow | crates/conflux-core/src/flanders.rs:155-161 | dividing only the entries from the pivot column on normalizes the whole row, because the entries before it are zero |
| GaussJordan.SubtractRow | crates/conflux-core/src/flanders.rs:181-193 | subtracting only from the pivot column on subtracts the whole multiple of the pivot row |
| GaussJordan.ClearColumn | crates/conflux-core/src/flanders.rs:163-194 | the elimination loop, in place and skipping zero factors, subtracts from every other row its own multiple of the pivot row |
| GaussJordan.Advance | crates/conflux-core/src/flanders.rs:140-195 | one turn of the outer loop is one column step on whole rows, or gives up below the threshold |
| GaussJordan.Solve | crates/conflux-core/src/flanders.rs:134-201 | working in place on columns col..n, the solver returns what elimination on whole rows returns |
| GaussJordan.ColumnStepSound | crates/conflux-core/src/flanders.rs:140-195 | one column step keeps all solutions and clears the column while keeping the cleared ones cleared; it gives up exactly when the column is stuck, every candidate below 1e-12 |
| GaussJordan.SolutionIsSound | crates/conflux-core/src/flanders.rs:134-201 | whatever the solver returns solves the given system, nothing else does, and the matrix has a trivial kernel; on a square system it returns None exactly when elimination goes through up to some column and is stuck there |
| GaussJordan.StoppedIsAlmostSingular | crates/conflux-core/src/flanders.rs:149-151 | a refused matrix is singular up to the threshold: it sends a vector with an entry 1 to one with every entry below 1e-12 |
| GaussJordan.ZeroPivotMeansSingular | crates/conflux-core/src/flanders.rs:149-151 | elimination that meets a column of zero candidates started from a singular matrix: a kernel vector is exhibited |
| GaussJordan.ThresholdDecides | crates/conflux-core/src/flanders.rs:149-151 | it need not be singular: x I, of any size and with any right-hand side, is invertible for every x but zero and refused exactly when x is below 1e-12 |
| RidgeFit.AddToA | crates/conflux-core/src/flanders.rs:304-315 | one pair adds Z Z^T and Y Z^T to the two running sums |
| RidgeFit.SumsForA | crates/conflux-core/src/flanders.rs:302-315 | the A-step's sums are the Gram matrix and the moments of its regression |
| RidgeFit.SumsForB | crates/conflux-core/src/flanders.rs:325-338 | the B-step's sums are the Gram matrix and the moments of its regression |
| RidgeFit.AStep | crates/conflux-core/src/flanders.rs:300-321 | solving for the transpose of A with the ridge added in place answers the A-step's ridge regression, or None |
| RidgeFit.BStep | crates/conflux-core/src/flanders.rs:323-342 | the same for B |
| RidgeFit.StepsAreNormal | crates/conflux-core/src/flanders.rs:300-342 | each step's answer satisfies its normal equations |
| RidgeFit.RidgeIdentity | crates/conflux-core/src/flanders.rs:300-342 | at a solution of the normal equations the loss of any other point exceeds it by exactly the energy of the difference plus the ridge times its squared norm |
| RidgeFit.RidgeMinimum | crates/conflux-core/src/flanders.rs:300-342 | so the solution is a minimum, and the only one when the ridge is positive |
| RidgeFit.AStepIsOptimal | crates/conflux-core/src/flanders.rs:300-321 | A minimises the whole two-factor objective for this B, strictly when the ridge is positive |
| RidgeFit.BStepIsOptimal | crates/conflux-core/src/flanders.rs:323-342 | B minimises it for this A |
| RidgeFit.SweepFits | crates/conflux-core/src/flanders.rs:299-343 | one sweep never increases the objective; its A is the best left factor for the B it started from, and its B the best right factor for that A |
| RidgeFit.FitIsFitted | crates/conflux-core/src/flanders.rs:292-352 | after any number of sweeps the objective is no larger than at the identity start and than a sweep earlier, B is the best right factor for A, and A the best left factor for the previous sweep's B |
| RidgeFit.FitMar | crates/conflux-core/src/flanders.rs:292-352 | the loop computes exactly the configured number of sweeps from the identities, giving up when a solve does |
| RidgeExistence.RidgeHasNoAlmostKernel | crates/conflux-core/src/flanders.rs:316-318 | a Gram matrix with a ridge of at least n 1e-12 added sends no vector with an entry 1 to one with all entries below 1e-12 |
| RidgeExistence.RidgeIsSolved | crates/conflux-core/src/flanders.rs:316-321 | so the solver never refuses such a ridge regression, whatever the designs and the right-hand side |
| RidgeExistence.FitExists | crates/conflux-core/src/flanders.rs:286-352 | and with a ridge of at least 1e-12 times the larger dimension every fit exists, after any number of sweeps |
| Flanders.CoordinatesAreSpread | crates/conflux-core/src/flanders.rs:364-369 | the sampled coordinates are strictly increasing, in range, start at zero, number min(dim, limit) unless the limit is zero, and every gap, the last to the end included, is the floor of dim/limit or one more |
| Flanders.SampledAt | crates/conflux-core/src/flanders.rs:364-369 | when there are more coordinates than the limit, the i-th sampled one is the last at or before i dim/limit |
| Flanders.Observe | crates/conflux-core/src/flanders.rs:373-390 | the observation matrix holds each ordered client's sampled weights, and is refused exactly when a client is missing or has another dimension |
| Flanders.CommonIdsAre | crates/conflux-core/src/flanders.rs:419-424 | the column order is strictly sorted and consists exactly of the ids present now and in every snapshot of the window |
| Flanders.ConsecutivePairs | crates/conflux-core/src/flanders.rs:434-443 | the fit sees exactly the consecutive snapshot pairs that can both be observed |
| Flanders.FlandersAggregator.MakeForecast | crates/conflux-core/src/flanders.rs:432-463 | the forecast is the fitted factors applied to the last snapshot, and is absent exactly where the source leaves it absent |
| Flanders.ForecastIsFitted | crates/conflux-core/src/flanders.rs:432-463 | every forecast is A times the last snapshot times B, column by column, for factors no worse than the identities, B the best partner of A and A the best partner of the B before it |
| Flanders.ForecastExistsIff | crates/conflux-core/src/flanders.rs:432-463 | with such a ridge there is a forecast exactly when two clients are common to at least two rounds of history, some consecutive pair of snapshots can be observed, and so can the last |
| Flanders.PanicsIff | crates/conflux-core/src/flanders.rs:292-294 | the source panics exactly on a batch of empty vectors when two of its clients are common to a history that holds two consecutive rounds of empty vectors from them |
| Flanders.CurrentHoldsLast | crates/conflux-core/src/flanders.rs:400-404 | a round's snapshot holds every id's last update |
| Flanders.CurrentHoldsOnly | crates/conflux-core/src/flanders.rs:400-404 | and no other id |
| Flanders.ScoreMeasuresSurprise | crates/conflux-core/src/flanders.rs:465-504 | a client scores zero exactly when it submitted what was predicted for it, or without a prediction the current global model; before there is either everybody does |
| Flanders.KeptAreLowest | crates/conflux-core/src/flanders.rs:526-533 | exactly k clients are kept, and no dropped client scores less than a kept one, or as much and came earlier |
| Flanders.BaseSeesKept | crates/conflux-core/src/flanders.rs:517-556 | the base is given exactly k >= 1 updates, all m of them before there is a signal; with a signal the number dropped is the least integer not below f times m, unless a single update is left |
| Flanders.RoundFilters | crates/conflux-core/src/flanders.rs:506-558 | read off a round's diagnostics: the base answers for exactly the updates marked kept, k of them, none scoring above a dropped one and ties going to the earlier, and a refusal changes no memory |
| FlandersScores.RoundScores | crates/conflux-core/src/flanders.rs:406-504 | every diagnostic of a round: a client in the forecast is scored by its squared distance to its own column of A Theta B over the sampled coordinates, everybody else by the distance to the global model, or zero before there is one; A and B are fitted to exactly the consecutive rounds that hold models of this dimension for all common clients, Theta is the last round; with enough ridge there is a forecast exactly when such a pair and such a last round exist for two common clients |
| FlandersScores.RunScores | crates/conflux-core/src/flanders.rs:406-572 | the same after any run, where the rounds remembered are the last window accepted ones and the global model the last accepted answer |
| Flanders.FlandersAggregator.PushTrimmed | crates/conflux-core/src/flanders.rs:563-566 | pushing a snapshot and popping from the front leaves the last window snapshots |
| Flanders.FlandersAggregator.Aggregate | crates/conflux-core/src/flanders.rs:393-573 | the new history, global model, diagnostics and answer are the round function of the old ones; an empty or invalid batch changes nothing |
| Flanders.RunRemembers | crates/conflux-core/src/flanders.rs:558-572 | over every run of batches through the aggregator's round the history is the last window accepted rounds and the global model the last accepted result; refused batches leave no trace |
| Flanders.RunFilters | crates/conflux-core/src/flanders.rs:506-572 | after any run, the next batch is filtered exactly when some earlier round was accepted; then all but the ceiling of f times m survive, at least one, none scoring above a dropped one, and the base answers for them |
| Flanders.EmptyVectorsPanic | crates/conflux-core/src/flanders.rs:292-294 | two clients submitting empty vectors over FedAvg: two rounds are accepted and the third panics |
| Sorting.SortByIsSorted | crates/conflux-core/src/robust.rs:297 | the function standing for the library's stable sort sorts |
| Sorting.SortByPermutes | crates/conflux-core/src/robust.rs:297 | and permutes |
| Sorting.SortByIsStable | crates/conflux-core/src/robust.rs:222-226 | and keeps elements of equal key in their order |
| Sorting.LowestScoresBreakTies | crates/conflux-core/src/robust.rs:215-235 | so of the m lowest scores nobody left out scores less than anybody chosen, or as much with an earlier index |
| Sorting.SortRestores | crates/conflux-server/src/dispatcher.rs:64-65 | sorting any permutation of a list with strictly increasing keys gives the list back |
| OrderStatistics.Combine | crates/conflux-core/src/robust.rs:295-367 | the three statistics on one coordinate's slice, with what each leaves in the slice |
| OrderStatistics.TrimmedMeanIs | crates/conflux-core/src/robust.rs:295-303 | the trimmed mean is the mean of what is left of the values when the t least and the t greatest are taken away |
| OrderStatistics.TrimCountIs | crates/conflux-core/src/robust.rs:297-300 | t is the assumed share rounded down, but never so large that nothing is left |
| OrderStatistics.MedianIs | crates/conflux-core/src/robust.rs:311-321 | the median is halfway between the two values of middle rank, which are one for an odd number |
| OrderStatistics.RankIsUnique | crates/conflux-core/src/robust.rs:311-321 | and only one value has a rank |
| OrderStatistics.MedianOfMeansIs | crates/conflux-core/src/robust.rs:352-367 | the median of means is the median of the consecutive chunks' means, each chunk's size times its mean being its sum; one chunk gives the plain mean |
| OrderStatistics.TrimmedMeanHonest | crates/conflux-core/src/robust.rs:295-303 | with at most the trim count of Byzantine values the trimmed mean lies between the honest bounds |
| OrderStatistics.MedianHonest | crates/conflux-core/src/robust.rs:311-321 | with fewer than half Byzantine values the median lies between the honest bounds |
| OrderStatistics.MedianOfMeansHonest | crates/conflux-core/src/robust.rs:352-367 | with Byzantine clients fewer than half the groups so does the median of means, since b clients touch at most b groups |
| OrderStatistics.Aggregate | crates/conflux-core/src/robust.rs:268-283 | the aggregator applies the statistic to each coordinate of an acceptable batch, or reports the batch's error |
| OrderStatistics.HonestRange | crates/conflux-core/src/robust.rs:268-367 | every output coordinate of every statistic lies between the honest minimum and maximum while the attackers are within its tolerance |
| OrderStatistics.ToleranceIsExact | crates/conflux-core/src/robust.rs:295-367 | beyond the tolerance some attack by that many clients drags the statistic away from a value all honest clients agree on |
| OrderStatistics.NoTrimIsMean | crates/conflux-core/src/robust.rs:295-303 | with nothing to trim the trimmed mean is the mean |
| OrderStatistics.GroupsOfOne | crates/conflux-core/src/robust.rs:343-346 | with groups of one the median of means is the median |
| Krum.DistanceMatrix | crates/conflux-core/src/robust.rs:39-53 | each pair computed once and stored twice gives a matrix whose squared entries are all pairwise squared distances |
| Krum.KrumScores | crates/conflux-core/src/robust.rs:152-171 | every score is the sum of the squared distances to the nearest other updates, with the source's clamps on how many |
| Krum.NeighboursAre | crates/conflux-core/src/robust.rs:158-159 | the nearest n - f - 2 count, or one when there are not so many |
| Krum.KrumFilter | crates/conflux-core/src/robust.rs:185-198 | the first update of least score |
| Krum.MultiKrumFilter | crates/conflux-core/src/robust.rs:215-235 | the n - f lowest scores, in index order |
| Krum.HonestScore | crates/conflux-core/src/robust.rs:152-171 | in Krum's regime an honest update scores at most (n-f-2) D |
| Krum.ByzantineScore | crates/conflux-core/src/robust.rs:152-171 | a Byzantine update scores at least (n-2f-1) times its squared distance to the nearest honest one |
| Krum.KrumIsResilient | crates/conflux-core/src/robust.rs:185-198 | with at most f Byzantine of n >= 2f+3 and honest pairwise squared distances at most D, the selected update is honest or within squared distance (n-f-2)/(n-2f-1) D of an honest one |
| Krum.MultiKrumIsResilient | crates/conflux-core/src/robust.rs:215-235 | the same for every survivor of Multi-Krum |
| Krum.RequirementIsTheHypothesis | crates/conflux-config/src/preconditions.rs:47-84 | the configuration's copy of the count equals the aggregator's, and a satisfied requirement for krum is exactly the regime of Krum's theorem, one for trimmed_mean exactly the exact trim; bulyan's is in the BulyanTolerance rows |
| Krum.KrumRequirementIsMet | crates/conflux-config/src/preconditions.rs:47-84 | for a fraction below one half the requirement is met at every n >= 3/(1 - 2 fraction) |
| Bulyan.BulyanFilter | crates/conflux-core/src/robust.rs:448-476 | the loop terminates with the sorted picks of the shrinking pool, the last lone candidate taken unscored |
| Bulyan.EachPickIsMinimal | crates/conflux-core/src/robust.rs:457-466 | every pick made while more than one candidate remains has the least Krum score of the pool at its turn |
| Bulyan.BulyanSelects | crates/conflux-core/src/robust.rs:448-476 | exactly max(1, n - 2f) distinct indices, ascending |
| Faba.FindFarthest | crates/conflux-core/src/robust.rs:394-410 | one pass finds the last of the updates farthest from the mean of the pool |
| Faba.FabaFilter | crates/conflux-core/src/robust.rs:383-418 | the loop removes the farthest update f times |
| Faba.FabaSelects | crates/conflux-core/src/robust.rs:383-418 | exactly n - f updates survive, already ascending |
| Faba.RemovalIs | crates/conflux-core/src/robust.rs:390-412 | each removal takes the last of the updates farthest from the mean of those still there |
| Faba.FabaShrinksSpread | crates/conflux-core/src/robust.rs:390-412 | over the whole filter the survivors' mean squared deviation from their own mean never increases |
| FilteredAggregation.FilteredAggregate | crates/conflux-core/src/robust.rs:120-136 | the answer is the combiner's on the chosen updates, or the batch's error; a lone update reaches Bulyan's combiner undecoded |
| FilteredAggregation.SelectionIsAscending | crates/conflux-core/src/robust.rs:120-136 | every filter keeps a fixed positive number of updates, each once and in batch order, so the combiner never receives an empty batch |
| FilteredAggregation.KrumAnswers | crates/conflux-core/src/robust.rs:173-198 | Krum with FedAvg answers the selected update itself exactly when it reports samples and fails otherwise; in the regime the answer is resilient |
| FilteredAggregation.MultiKrumAnswers | crates/conflux-core/src/robust.rs:215-235 | Multi-Krum with FedAvg answers the sample-weighted mean of the n - f updates of least score, ties going to the earlier; in the regime every one of them is resilient |
| FilteredAggregation.FabaAnswers | crates/conflux-core/src/robust.rs:383-418 | FABA with FedAvg answers the sample-weighted mean of what is left after f removals |
| FilteredAggregation.FilteredRange | crates/conflux-core/src/robust.rs:120-136 | behind any of the filters a coordinate-wise statistic stays in the honest range at every coordinate while it withstands the attackers the filter let through |
| FilteredAggregation.BulyanIsSafe | crates/conflux-core/src/lib.rs:629-632 | Bulyan with its trimmed mean answers in the honest range whenever the attackers chosen, or all there are, number at most the trim count of the selected set |
| BulyanTolerance.AttackSucceeds | crates/conflux-core/src/robust.rs:448-476 | for every fraction, n and b beyond that trim count, a batch in which b clients who agree are picked first by the shrinking-pool Krum scores and lift the answer off the value everybody else submits |
| BulyanTolerance.ToleranceIs | crates/conflux-core/src/lib.rs:629-632 | for every fraction and n, the answer stays in the honest range at every coordinate for all batches with b attackers exactly when b is at most the trim count of the selected set |
| BulyanTolerance.RequirementIsMajority | crates/conflux-config/src/preconditions.rs:72-73 | the requirement n >= 4f + 3 is exactly that the selected set meets Krum's own 2f + 3, enough for a median over it to withstand f attackers; the trimmed mean does exactly when f is at most its trim count |
| BulyanTolerance.RequirementIsNotEnough | crates/conflux-config/src/preconditions.rs:72-73 | at the default fraction 0.2 with eleven clients the requirement is met and two attackers still move the answer |
| GeometricMedian.Combine | crates/conflux-core/src/robust.rs:680-746 | the loop computes the configured number of Weiszfeld steps from the weighted mean, its early exit included |
| GeometricMedian.StartIs | crates/conflux-core/src/robust.rs:698-707 | the iteration starts at the sample-weighted mean, or at zero without samples, and each iterate is the step from the one before |
| GeometricMedian.StepIs | crates/conflux-core/src/robust.rs:711-743 | the step is the mean of the updates weighted by their samples over their distance, floored: each such weight times the floored distance is the sample count, and their total times the new point is the weighted sum |
| GeometricMedian.Aggregate | crates/conflux-core/src/robust.rs:633-646 | the aggregator's answer on an acceptable batch, or the batch's error |
| GeometricMedian.Majorizes | crates/conflux-core/src/robust.rs:711-723 | the parabola through the current distance, with the source's floor, lies above the smoothed distance everywhere |
| GeometricMedian.MeanMinimizesSpread | crates/conflux-core/src/robust.rs:733-741 | anywhere else the reweighted spread exceeds its value at the reweighted mean by the total weight times the squared distance |
| GeometricMedian.StepDescends | crates/conflux-core/src/robust.rs:712-743 | one Weiszfeld step lowers the weighted sum of smoothed distances by at least half its squared length times the total inverse-distance weight: strictly, unless it does not move |
| GeometricMedian.IterationDescends | crates/conflux-core/src/robust.rs:712-743 | nor does any number of them |
| GeometricMedian.IteratesStayInRange | crates/conflux-core/src/robust.rs:698-743 | every iterate lies coordinate by coordinate in the range of the updates that carry weight |
| GeometricMedian.NoWeightGivesZero | crates/conflux-core/src/robust.rs:698-731 | with no sample counts at all the answer is the zero vector, whatever was submitted |
| Vectors.AccumulateWeighted | crates/conflux-core/src/weights.rs:152-165 | the shared loop adds a multiple of a vector in place |
| Vectors.AccumulateScaledDifference | crates/conflux-core/src/weights.rs:184-196 | the shared loop adds a multiple of a difference in place |
| Updates.DecodeError | crates/conflux-core/src/weights.rs:74-77 | the first pass names the first update that does not decode |
| Updates.LengthError | crates/conflux-core/src/weights.rs:79-90 | the second names the first update whose length is not the first one's |
| Updates.ValueError | crates/conflux-core/src/weights.rs:92-110 | the third names the first update with a non-finite weight, at its first position, or an implausible sample count |
| Updates.DecodeAndValidate | crates/conflux-core/src/weights.rs:73-113 | a batch passes exactly when every update decodes, has the first one's length, is finite and reports a plausible sample count |
| Updates.FedAvgAggregate | crates/conflux-core/src/averaging.rs:39-65 | the loop computes the sample-weighted mean, or the source's error |
| Updates.FedAvgIsWeighted | crates/conflux-core/src/averaging.rs:48-63 | the total sample count times the answer is the sum of the updates, each times its own sample count |
| Updates.FedAvgIsAverage | crates/conflux-core/src/averaging.rs:48-63 | the same coordinate by coordinate: samples times the answer's entry is the sum of samples times entries |
| Updates.FedAvgIsConvex | crates/conflux-core/src/averaging.rs:39-65 | it succeeds exactly on a non-empty acceptable batch with a sample somewhere, and its answer stays in the contributors' range |
| Updates.FedAvgOfEqualCounts | crates/conflux-core/src/averaging.rs:39-79 | with equal sample counts FedAvg is the unweighted mean |
| FedOpt.Advance | crates/conflux-core/src/optimization.rs:337-389 | the loop over coordinates computes the new moments, the new model and the first coordinate with a zero denominator |
| FedOpt.TargetIs | crates/conflux-core/src/optimization.rs:272-288 | a round steers toward the unweighted mean of the batch, coordinate by coordinate, or toward the wrapped base's answer |
| FedOpt.SeedRound | crates/conflux-core/src/optimization.rs:295-322 | the first accepted round, and the first of a new dimension, answers and stores the target, with no momentum and tau squared under every coordinate |
| FedOpt.StepRound | crates/conflux-core/src/optimization.rs:341-376 | every other accepted round: m averages the difference to the target, v takes in its square as the variant does, floored at tau squared, and the move times (sqrt(v) + tau) is eta m |
| FedOpt.RefusedRound | crates/conflux-core/src/optimization.rs:384-396 | a round is refused exactly when a denominator is zero or narrowing lost a coordinate, blames the first such coordinate, and changes nothing |
| FedOpt.FedOptAggregator.Aggregate | crates/conflux-core/src/optimization.rs:264-396 | the new state and answer are the round function of the old state: seeding, reseeding on a changed dimension, the step, or a rejection that leaves model and both moments as they were |
| FedOpt.StepKeepsBound | crates/conflux-core/src/optimization.rs:341-370 | whatever the pseudo-gradient, one step of each variant keeps the squared first moment within K times the second and the second above tau squared |
| FedOpt.StepIsSmall | crates/conflux-core/src/optimization.rs:375 | a coordinate within the bound steps by at most eta times the root of K |
| FedOpt.RunKeepsBound | crates/conflux-core/src/optimization.rs:264-396 | the bound holds after every sequence of batches, rejected rounds included |
| FedOpt.RoundIsBounded | crates/conflux-core/src/optimization.rs:264-396 | in any run a round without reseeding moves each coordinate by at most eta times the root of K, and a rejected one moves nothing |
| FedOpt.DriftIsBounded | crates/conflux-core/src/optimization.rs:264-396 | n rounds move each coordinate by at most n times that |
| FedOpt.PaperRatesAreCovered | crates/conflux-core/src/optimization.rs:66-71 | at the default decay rates K = 5.5 covers FedAdam and FedYogi, and K = 1 covers FedAdagrad |
| FedOpt.PaperDrift | crates/conflux-core/src/optimization.rs:66-71 | so with the default parameters n rounds move each coordinate by at most n, or 2.346 n under FedAdam and FedYogi, whatever the clients submit |
| FedOpt.YogiDirection | crates/conflux-core/src/optimization.rs:350-363 | FedYogi's second moment shrinks exactly when the incoming square is positive and below the estimate, grows exactly when above, and never falls below beta2 times the estimate |
| FedOpt.StepFollowsMoment | crates/conflux-core/src/optimization.rs:375 | a coordinate steps in the direction of its first moment and rests only when that is zero |
| FedOpt.MemorylessStepsTowardTarget | crates/conflux-core/src/optimization.rs:340-376 | with beta1 = 0 an accepted round moves every coordinate toward the batch's aggregate, and leaves it only where it is there already |
| FedNova.WeightedDeltas | crates/conflux-core/src/optimization.rs:1467-1476 | the loop over clients computes the normalized sum of differences |
| FedNova.FedNovaAggregator.Aggregate | crates/conflux-core/src/optimization.rs:1381-1494 | the new state and answer are the round function of the old state, with FedAvg as the seed and as both fallbacks; a rejection changes nothing |
| FedNova.RoundFallsBack | crates/conflux-core/src/optimization.rs:1395-1421 | without a stored model of the dimension, or with no step count reported, the answer and the new model are the sample-weighted mean |
| FedNova.TausAre | crates/conflux-core/src/optimization.rs:1423-1448 | a client's tau is its reported count, clamped, or the mean of the reported counts |
| FedNova.SharesAre | crates/conflux-core/src/optimization.rs:1431-1444 | its share is its samples over all samples, or equal shares when nobody has any |
| FedNova.UpdateIsAffine | crates/conflux-core/src/optimization.rs:1458-1482 | the new model is (1 - tau_eff S) x plus tau_eff times the sum of (p_k/tau_k) x_k |
| FedNova.OvershootIsAtLeastOne | crates/conflux-core/src/optimization.rs:1327-1330 | tau_eff S >= 1, with equality exactly when every client that carries weight took tau_eff steps |
| FedNova.AgreementMeansTauEff | crates/conflux-core/src/optimization.rs:1327-1330 | which is exactly when the clients that carry weight agree on their step counts |
| FedNova.AgreementGivesMean | crates/conflux-core/src/optimization.rs:1329-1330 | and then the update is the plain weighted mean |
| FedNova.RoundIsNormalizedAveraging | crates/conflux-core/src/optimization.rs:1381-1494 | a round with a stored model and a reported step count answers the affine combination, with convex p and every tau at least one |
| FedNova.AgreeingRoundIsFedAvg | crates/conflux-core/src/optimization.rs:1413-1493 | with some samples and agreeing step counts the round's answer is FedAvg's |
| FedNova.WeightedAsFedAvgIff | crates/conflux-core/src/optimization.rs:1344-1349 | a client is weighted as FedAvg would weight it exactly when it carries no weight or its tau is tau_eff |
| FedNova.DefaultTauIsNotNeutral | crates/conflux-core/src/optimization.rs:1423-1448 | a three-client batch in which a client without a step count is not |
| Scaffold.ScaffoldAggregator.Variates | crates/conflux-core/src/optimization.rs:1590-1614 | the loop computes 1/N times the sum of the usable variates, skipping missing, undecodable, non-finite and misshapen ones |
| Scaffold.ScaffoldAggregator.Aggregate | crates/conflux-core/src/optimization.rs:1618-1706 | the new model and variate and the answer are the round function of the old state; a rejection changes neither |
| Scaffold.RoundMovesTowardMean | crates/conflux-core/src/optimization.rs:1634-1705 | an accepted batch of the stored dimension answers and stores the point the fraction eta of the way from the stored model to the clients' unweighted mean; without a stored model of that dimension, the sample-weighted mean |
| Scaffold.ModelMovesTowardMean | crates/conflux-core/src/optimization.rs:1659-1681 | the model moves the fraction eta of the way to the mean of the clients' models, and onto it at the default rate |
| Scaffold.ScaffoldClient.Train | baselines/_harness/trainer.py:109-148 | the client trains along (c - c_i), submits what it trained and a report which, plus the c it received, times K lr is how far it moved, and adds that report to its own variate |
| Scaffold.ScaffoldClient.OnControlVariate | baselines/_harness/trainer.py:68-69 | the client keeps the last variate it received |
| Scaffold.TurnAbsorbs | crates/conflux-core/src/optimization.rs:1634-1705 | an accepted batch of the model's dimension, the seed round included, raises N c by exactly its variates; a refused one leaves it; and whatever becomes of a batch, its variates and the old N c are in the new N c or accounted lost |
| Scaffold.StepConserves | crates/conflux-client/examples/logreg.rs:268-307 | every step of a client, an outsider or the server keeps: sum of c_i + what outsiders submitted = N c + variates in flight + variates lost |
| Scaffold.RunConserves | crates/conflux-core/src/optimization.rs:1638-1646 | so it holds over every run with any participation, order, delay and rejection, whatever else is submitted: no variate, malformed, invented, repeated, or of another dimension |
| Scaffold.VariatesAgreeIff | crates/conflux-core/src/optimization.rs:1640-1642 | in every reachable state N c equals the sum of all c_i exactly when the variates in flight and lost add up to what outsiders submitted; with nothing in flight or lost it exceeds that sum by exactly what they did |
| Scaffold.HandedOutIsMean | crates/conflux-core/src/optimization.rs:1638-1642 | in every reachable state the variate handed out is the mean of the N clients' own exactly when the variates in flight and lost add up to what outsiders submitted; and exactly then the corrections (c - c_i) cancel over the clients |
| Scaffold.FullParticipation | crates/conflux-core/src/optimization.rs:1584-1706 | after a round with all N clients c is the mean of (x - y_i)/(K lr), the seed round included |
| Scaffold.FullParticipationIs | crates/conflux-core/src/optimization.rs:1584-1706 | in the clients' own terms: K lr times the new c is the old model minus the mean of theirs |
| CenteredClipping.SumClipped | crates/conflux-core/src/temporal.rs:385-398 | the loop computes the sum of the clipped deviations |
| CenteredClipping.CenteredClippingAggregator.Aggregate | crates/conflux-core/src/temporal.rs:338-412 | the new reference and answer are the round function of the old reference, reseeded from the mean on a changed dimension |
| CenteredClipping.RoundIsClippedMean | crates/conflux-core/src/temporal.rs:385-407 | n times the distance of the answer from the reference is, coordinate by coordinate, the sum of the clipped deviations |
| CenteredClipping.ClipScaleIs | crates/conflux-core/src/temporal.rs:387-397 | a deviation within tau is left alone, and a longer one gets length tau |
| CenteredClipping.FreshStart | crates/conflux-core/src/temporal.rs:351-362 | without a reference of the batch's dimension the batch is clipped against its own mean: the answer is within tau of it, and is it when nobody is farther |
| CenteredClipping.ClippedWithin | crates/conflux-core/src/temporal.rs:387-397 | a clipped deviation has norm at most tau |
| CenteredClipping.RoundMovesAtMostTau | crates/conflux-core/src/temporal.rs:400-409 | one round moves the reference by at most tau |
| CenteredClipping.RunDrift | crates/conflux-core/src/temporal.rs:338-412 | k batches of one dimension, accepted or not, move it by at most k tau |
| CenteredClipping.Influence | crates/conflux-core/src/temporal.rs:385-407 | from one reference, batches of n clients that differ in b of them give answers at most 2 b tau / n apart |
| CenteredClipping.ClippedProjects | crates/conflux-core/src/temporal.rs:387-397 | clipping projects a deviation onto the ball of radius tau |
| CenteredClipping.RoundIsNonExpansive | crates/conflux-core/src/temporal.rs:385-407 | so on one batch a round brings two references no further apart |
| CenteredClipping.RunInfluence | crates/conflux-core/src/temporal.rs:338-412 | two runs from one reference over any two sequences of batches end no further apart than the sum over rounds of 2 b tau / n for n taken updates that differ in b, 2 tau for taken batches of different sizes, and tau when only one is taken |
| CenteredClipping.FewChangesStayClose | crates/conflux-core/src/temporal.rs:338-412 | so changing at most b of n clients in each of k rounds, without a refusal on one side only, moves the reference by at most k 2 b tau / n |
| CenteredClipping.UnclippedIsMean | crates/conflux-core/src/temporal.rs:385-407 | when nobody is farther than tau from the reference the answer is the plain mean |
| FoolsGold.CosineAtMostOne | crates/conflux-core/src/temporal.rs:44-52 | no cosine exceeds one, even between histories of different lengths |
| FoolsGold.MultiplesHaveCosineOne | crates/conflux-core/src/temporal.rs:44-52 | a positive multiple of a non-zero history has cosine exactly one with it |
| FoolsGold.FillSimilarities | crates/conflux-core/src/temporal.rs:71-80 | the nested loops fill the similarity table with a zero diagonal |
| FoolsGold.Pardon | crates/conflux-core/src/temporal.rs:95-101 | the in-place pardoning loops compute the pardoned table from the row maxima taken before |
| FoolsGold.FoolsGoldWeights | crates/conflux-core/src/temporal.rs:68-138 | one weight per client, each between zero and one |
| FoolsGold.WeightsAre | crates/conflux-core/src/temporal.rs:68-138 | the weights pass by pass: cosines over the common coordinates with a zero diagonal, row maxima, pardoning in proportion to the maxima, what is left of one, and the logit of its share of the greatest, capped, raised and cut |
| FoolsGold.Weigh | crates/conflux-core/src/temporal.rs:68-138 | all passes together, in place, compute those weights |
| FoolsGold.FullSimilarityMeansZero | crates/conflux-core/src/temporal.rs:82-138 | a client with cosine one to somebody gets weight zero: no pardoning lowers a row maximum of one |
| FoolsGold.SybilsGetZero | crates/conflux-core/src/temporal.rs:68-138 | two clients whose non-zero histories are positive multiples of each other both get weight zero |
| FoolsGold.UniqueKeepsFullWeight | crates/conflux-core/src/temporal.rs:68-138 | a client with no positive similarity to anybody gets weight one |
| FoolsGold.SharesAtMostOne | crates/conflux-core/src/temporal.rs:218-238 | the shares add up to at most one, and to one exactly when every weight is one or every weight is zero |
| FoolsGold.FoolsGoldAggregator.Aggregate | crates/conflux-core/src/temporal.rs:184-242 | the new histories and the answer are the round function of the old histories |
| FoolsGold.RunAccumulates | crates/conflux-core/src/temporal.rs:192-210 | over every run a client's history is the sum of everything it submitted in accepted batches, at the length of the first; a client never seen has none |
| FoolsGold.SnapshotsAccumulate | crates/conflux-core/src/temporal.rs:192-210 | and the vector compared for an update is that sum with what the client sent in this batch up to it |
| FoolsGold.RoundIs | crates/conflux-core/src/temporal.rs:216-238 | n times the answer is, coordinate by coordinate, the weighted sum of the updates, or the plain sum when every weight is zero |
| FoolsGold.LoneClient | crates/conflux-core/src/temporal.rs:212-214 | a lone update is the answer |
| FoolsGold.RunKeepsProportion | crates/conflux-core/src/temporal.rs:192-210 | over every run, a client that always submits s times what another submits has s times its history |
| FoolsGold.ColludersGetZero | crates/conflux-core/src/temporal.rs:184-242 | so whenever both submit again with a non-zero history, both get weight zero |
| FoolsGold.ColludersAreIgnoredIff | crates/conflux-core/src/temporal.rs:218-242 | in that round's answer they count for nothing, whatever they submit, exactly when somebody has a non-zero weight; when nobody has, the answer is the plain mean |
| FoolsGold.ColludersAloneCountInFull | crates/conflux-core/src/temporal.rs:218-242 | two clients who collude alone get the plain mean of what they sent |
| RoundBuffers.RoundBuffer.Push | crates/conflux-buffer/src/lib.rs:178-199 | an accepted delta is appended and leaves a permit; a wrong round or a closed buffer is refused and changes nothing |
| RoundBuffers.RoundBuffer.TryCloseOnQuorum | crates/conflux-buffer/src/lib.rs:240-251 | closes and returns everything exactly when open with a quorum |
| RoundBuffers.RoundBuffer.TakeAll | crates/conflux-buffer/src/lib.rs:253-264 | closes and returns everything, or nothing when already closed |
| RoundBuffers.StepKeepsInvariant | crates/conflux-buffer/src/lib.rs:178-264 | every lock, notification, check, clock read, wait, wakeup, timeout and close, in any interleaving, keeps the invariant |
| RoundBuffers.RunKeepsInvariant | crates/conflux-buffer/src/lib.rs:178-264 | over every run: accepted deltas are held exactly once, in order, in the open buffer or the flushed batch; the buffer is closed exactly when flushed; a quorum flush has a quorum; and with a quorum met a parked or about-to-wait flusher has a permit or a push that has still to notify |
| RoundBuffers.AcceptedAreHeld | crates/conflux-buffer/src/lib.rs:130-143 | as many deltas are held as pushes were accepted |
| RoundBuffers.FlushIsFinal | crates/conflux-buffer/src/lib.rs:201-206 | once flushed the result never changes and every later push is refused |
| RoundBuffers.QuorumIsNoticed | crates/conflux-buffer/src/lib.rs:189-197 | with the quorum met before the deadline the flusher is on its way back to the check, or a push has still to notify and that notification sends it there |
| RoundBuffers.QuorumIsServed | crates/conflux-buffer/src/lib.rs:189-197 | with the quorum met, no push half done and the deadline ahead, under every interleaving of further steps: by its third step the flusher has flushed for quorum all that was held and what was pushed meanwhile, and until then it always has a step to take |
| RoundBuffers.TimeoutMayHoldQuorum | crates/conflux-buffer/src/lib.rs:209-228 | a run whose timeout flush holds a quorum: the push lands between the check and the close |
| RoundBuffers.TimeoutHoldsQuorumIff | crates/conflux-buffer/src/lib.rs:209-228 | after a failed check a timeout flush holds what was held then and what has landed since, so it holds a quorum exactly when at least the missing number landed in between, and never when none did |
| RoundBuffers.EveryTimeoutFollowsAFailedCheck | crates/conflux-buffer/src/lib.rs:201-228 | every timeout flush of every run is of that form |
| Levenshtein.EditDistance | crates/conflux-config/src/profile.rs:627-641 | two rows swapped after each character compute the recursive edit distance |
| Levenshtein.NoShorterScript | crates/conflux-config/src/profile.rs:619-641 | no script of insertions, deletions and substitutions is cheaper than the distance |
| Levenshtein.ShortestScript | crates/conflux-config/src/profile.rs:619-641 | some script costs exactly the distance |
| Levenshtein.Symmetric | crates/conflux-config/src/profile.rs:627-641 | the distance is symmetric |
| Levenshtein.ZeroMeansEqual | crates/conflux-config/src/profile.rs:627-641 | it is zero exactly between equal strings |
| Levenshtein.Triangle | crates/conflux-config/src/profile.rs:627-641 | it satisfies the triangle inequality |
| Levenshtein.Suggest | crates/conflux-config/src/profile.rs:604-610 | no suggestion exactly when every key is more than two edits away, else the first of the nearest |
| Profiles.LoadChain | crates/conflux-config/src/profile.rs:342-420 | the loop over current, visited and files terminates on every finite directory and computes the recursive walk |
| Profiles.ReadFile | crates/conflux-config/src/profile.rs:374-418 | the loop over one table collects the other keys and the parent, or stops at the first inherits that is no text |
| Profiles.OtherKeysAre | crates/conflux-config/src/profile.rs:396-410 | what it collects are exactly the entries whose key is not inherits, in order |
| Profiles.ScanIs | crates/conflux-config/src/profile.rs:395-416 | the parent is the text of the last inherits; a non-text one, or none at all, is the fault |
| Profiles.ChainIsExplained | crates/conflux-config/src/profile.rs:342-420 | there is a path along the texts of the files' last inherits entries, fresh but for its last name, whose end calls for exactly the result: a builtin, with each file's entries beside inherits in order, a shadowed builtin, a cycle, or the file's own fault |
| Profiles.ExplanationIsUnique | crates/conflux-config/src/profile.rs:342-420 | only one path and one result can be so explained |
| Profiles.CycleIff | crates/conflux-config/src/profile.rs:366-371 | a cycle is reported exactly when following inherits revisits a name before a builtin or a file that cannot be passed |
| Profiles.ApplyKey | crates/conflux-config/src/profile.rs:456-617 | a key is applied exactly when its axis owns it and its value parses; otherwise the error says whether the value, the axis or the spelling is wrong |
| Profiles.LayerFile | crates/conflux-config/src/profile.rs:286-289 | applying one file's entries makes them override everything farther, or blames its first bad entry |
| Profiles.LayerAll | crates/conflux-config/src/profile.rs:284-290 | base-most file first, so that the nearest file wins; the first bad entry in that order is blamed |
| Profiles.LoadProfile | crates/conflux-config/src/profile.rs:267-334 | it succeeds exactly when inherits leads to a builtin without a file beside it and every other entry of the files on the way is valid; then each key is decided by the last entry of the first file that sets it, else by the builtin, and its origin names that link; otherwise the walk's fault or the first bad entry of the base-most bad file is reported |
| Profiles.LabelNamesTheLink | crates/conflux-config/src/profile.rs:255-265 | the label is the selected name when its own file decides the key, and otherwise also names the one link of the path that does |
| Chunks.EncodeDecode | crates/conflux-proto/src/lib.rs:107-113 | decoding an encoded weight list gives it back |
| Chunks.Reassemble | crates/conflux-server/src/dispatcher.rs:48-97 | scalars from the first arrival, data and variate concatenated in index order |
| Chunks.IndicesAreStrict | crates/conflux-client/src/lib.rs:299-307 | the chunks carry the indices 0..total-1 in order while the count fits in 32 bits |
| Chunks.IndicesWrap | crates/conflux-client/src/lib.rs:306-307 | beyond that the cast wraps and two chunks carry index zero |
| Chunks.ArrivalOrderIsIrrelevant | crates/conflux-client/src/lib.rs:285-318 | whatever the order of arrival the payload comes back whole, with the header, and the variate cut to the payload's length |
| Chunks.RoundTrip | crates/conflux-client/src/lib.rs:285-318 | so the weights come back exactly, and a variate exactly when it is no longer than they are |
| Chunks.ChunksAreAligned | crates/conflux-client/src/lib.rs:294-296 | no chunk cuts an f32 in half: each decodes by itself, in data and in variate |
| Chunks.ChunkersAgreeIff | python/conflux_client/app.py:186-222 | the Rust and the Python chunker produce the same chunks exactly when the variate is absent or non-empty and the count fits in a uint32 |

## Left out

- Floating point: values are exact reals, and rounding, overflow and NaN inside the arithmetic are not
  modelled. Where the source narrows to f32 and rejects a non-finite result, the rejection enters as a
  parameter (`overflow`, `variateOverflow`); non-finite entries of a submitted payload are modelled.
- FedOpt.FedOptAggregator.Aggregate: a wrapped base that answers with another dimension than the batch's
  is not modelled; every aggregator of the catalog answers with the batch's dimension.
- Flanders.FlandersAggregator.Aggregate: the method excludes the calls on which the source panics, having
  indexed an empty matrix (flanders.rs:294); `PanicsIff` says which they are, and a run ends with one.
  The base aggregator is what it answers this round, so a stateful base is covered one answer at a time.
- GaussJordan.SolutionIsSound: says that a refused square system is stuck below the threshold, and so
  almost singular (`StoppedIsAlmostSingular`), not that it is singular, which is false
  (`ThresholdDecides`).
- FoolsGold.RescaleAll: the three element-wise loops (rescale, cap, sharpen) are one loop; the
  logarithm is a parameter, with the value 0 after clamping where its argument is 0.
- RoundBuffers.RoundBuffer.Push: the class has no parked flusher, so a push always stores its permit;
  parking, waking and timing out are in the protocol part, where `Notify` is one stored permit and one
  waiter.
- Scaffold.RunConserves: the clients' own dimension is fixed over the run; the server's may change.
- Profiles.LoadProfile: reading and parsing files is taken as given (a name is unreadable, unparseable,
  or a list of entries), and errors carry the name and the key but not the lists of valid alternatives.
- Mutexes other than the round buffer's: a round is one step, because each aggregator reads and writes
  the state that decides its answer under one acquisition of the lock guarding it. FedOpt asks its base
  before it locks; FoolsGold records histories under its lock and weighs copies after releasing it;
  FLANDERS keeps the history's lock to the end and takes the global model's twice inside.
- FedAvgM, q-FedAvg, FLTrust, Zeno, divide and conquer, and the privacy crate: further methods, easier
  than the ones above or resting on real powers, a trusted reference model, random sampling or a power
  iteration that need not converge.
- Client selection, registry, reputation, transports, TLS and tokens, stores, sidecars and the command
  line: input and output around the core.
- Model training, datasets, the sweep and plot scripts, and the attack fixtures.
