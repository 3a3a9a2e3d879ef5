# BigCherry verification model

A Dafny model of the parts of BigCherry in which an algorithm or a state machine carries a
guarantee over every input or every run, with proofs of those guarantees. `dafny verify
dfyconfig.toml` checks the whole project.

What is modelled, by module:

* **Routing, RoutingModes, ZipfLoads** - the MoE routing generator: a per-expert load histogram,
  realised token by token by taking the experts with the most remaining budget. The exchange argument
  shows that the greedy choice realises a histogram exactly when any assignment could, and that it
  gives every expert its load, capped at one slot per token, exactly when the capped loads fit.
* **ResumeGate, ResumeRuns, CampaignStages, IdentityTree** - identity-gated resume of the smoke
  campaign: a work directory bound to one identity, and every history of runs, deaths at any step and
  operator deletions, with each file tagged by the identity that produced it and each stage traced.
* **StageGraph, Scheduler, StageOutcomes** - the stage graph and its execution, within one pass and
  over passes, and the outcome of each stage.
* **CcacheSlots** - concurrent builds that compete for exclusive cache slots, as interleaved steps.
* **SignTest, RoundData, SuccessiveHalving, AdaptiveSampling** - the exact sign and McNemar tests and
  the allocation policies of the bandit simulator.
* **BusyTime, TraceSummary** - the two interval sweeps and the summaries built on them.
* **PairedBootstrap, OrderStatistics, ImpactCoverage** - the paired bootstrap of medians, its
  percentiles and sample-backed coverage.
* **MidRanks, Spearman** - mid-ranks and rank correlation.
* **WeightedMedian, Generalise** - the call-weighted median and generalised tuning keys.
* **SourceLint, LintTokens, LintLines** - the string lint's index-jumping lexer against a one-character
  machine, and where its comments and raw strings end.
* **PoolProtocol, PoolTraces** - the batch validator of pool traces against a one-pass machine, and the
  accepted traces written out.
* **NamedEntries, BackendIdentity, StackDocuments** - the canonical identity document, printed and
  parsed, and the accepted documents written out.
* **Sorting, Strings, Sums, Spans, Wrappers** - shared definitions.

Conventions. Floats are reals and times are integers. A random generator is an arbitrary choice, so
results hold for every seed. A digest is an injective function; the resume gate needs only that it
tells apart documents that Python calls equal. Files are maps. A lock is a set of busy resources or an owner map. A raised error is a
`Result` or an `Option`. Code that updates variables in loops is a method proved against a
specification function; the results are lemmas about that function. Every inductive proof is written
out: no lemma relies on automatic induction.

Where a promise is not met by the code, the model keeps the code and states exactly when it holds:

* The zipf mode does not realise its target when the heaviest load exceeds the number of tokens. For
  weights that do not increase with rank that depends on `top_k` times the first weight against the
  sum of the weights (`ZipfLoads.ZipfRealisedIff`). The default shape and exponent fail it for every
  number of tokens (`ZipfLoads.DefaultZipfIsNotRealised`). What every zipf table does have is each
  load capped at the number of tokens (`RoutingModes.ZipfMet`).
* A native candidate without a recorded round is eliminated by successive halving, although the
  documentation says native never is (`SuccessiveHalving.Halve`, `SuccessiveHalving.SilentNativeIsLost`).
  Only a direct call meets this case: the loader drops candidates without rounds, and then every native
  survives (`SuccessiveHalving.MeasuredNativesSurvive`).
* UCB1 and Thompson sampling stop early for a reason other than separation exactly when the round
  floor is not positive or fewer than two names take part (`AdaptiveSampling.EarlyStopIff`); a lone
  candidate stops after one of three rounds (`AdaptiveSampling.LoneCandidateStops`).
* A refused identity mismatch names no difference exactly when Python calls the two documents equal,
  as for a temperature of `0.0` against `0` (`ResumeGate.MismatchIsExplained`,
  `ResumeGate.UnexplainedMismatch`).
* The lint reports a wrong line after an escaped line break in a character literal
  (`LintLines.ReportedLine`, `LintLines.HiddenBreakShifts`).
* The two weighted medians differ for entries without any calls (`WeightedMedian.MediansAgree`,
  `WeightedMedian.NoCallsDisagree`).
* A sweep undercounts exactly when some interval ends before it starts and no earlier one reaches its
  start (`BusyTime.UnionBusyNs`, `BusyTime.InvertedIntervals`). The trace loader of `rocprof.py` lets
  such intervals through.

## Model

| member | source | states |
|---|---|---|
| Routing.TopIsPositive | tools/bigcherry/moe_routing_gen.py:156-163 | with m tokens left, budgets in [0, m] and total m·top_k, the top_k largest budgets are all positive: the greedy choice is never stuck |
| Routing.UrgentIsTop | tools/bigcherry/moe_routing_gen.py:156-163 | whenever the budgets, capped at the m tokens left, fit m·top_k slots, every budget of at least m is among the top_k chosen |
| Routing.AssignToken | tools/bigcherry/moe_routing_gen.py:159-163 | one token takes the front of the ranking and spends one unit of exactly those positive budgets |
| Routing.RealisedIsFeasible | tools/bigcherry/moe_routing_gen.py:138-164 | only a histogram with the right sum and entries in [0, n_tokens] can be realised by any table of distinct experts |
| Routing.AssignIds | tools/bigcherry/moe_routing_gen.py:138-164 | for every target and tie-break, each token gets top_k distinct experts; every expert gets its target capped at n_tokens if and only if the capped targets sum to at most n_tokens·top_k; the realised histogram is the target if and only if the target is feasible; a dominant expert serves every token |
| Routing.CoversIff | tools/bigcherry/moe_routing_gen.py:138-164 | no table of distinct experts covers capped targets that do not fit, and a table that covers a feasible target realises it |
| RoutingModes.CountsUniform | tools/bigcherry/moe_routing_gen.py:79-90 | loads over the active experts sum to the total and differ by at most one, larger ones first; the rest are zero |
| RoutingModes.EvenIsFeasible | tools/bigcherry/moe_routing_gen.py:79-90 | an even spread over at least top_k experts is feasible |
| RoutingModes.ZipfFloors | tools/bigcherry/moe_routing_gen.py:101-108 | after the floor loop less than one unit per active expert is unassigned |
| RoutingModes.HandOut | tools/bigcherry/moe_routing_gen.py:109-114 | the remainder loop adds at most one unit to each expert and makes the sum exact |
| RoutingModes.CountsZipf | tools/bigcherry/moe_routing_gen.py:93-114 | the loads are exactly the floored shares and one more unit for the first ranks; they sum to the total and do not increase with rank when the weights do not |
| RoutingModes.NonIncreasingFeasible | tools/bigcherry/moe_routing_gen.py:218-236 | a non-increasing target that sums to the table size is feasible if and only if its heaviest load is at most n_tokens |
| RoutingModes.ConcentrationTargets | tools/bigcherry/moe_routing_gen.py:117-135 | the list holds exactly the doublings of 16 that divide the total into top_k to n_experts active experts, in ascending order |
| RoutingModes.HistStats | tools/bigcherry/moe_routing_gen.py:167-183 | active count, extremes over active experts and mean are those of the realised histogram |
| RoutingModes.TargetCounts | tools/bigcherry/moe_routing_gen.py:212-232 | a request is accepted exactly when its mode and shape allow it, the target histogram is the mode's, and the returned load is total div n_experts, the total, 0 or the one asked for |
| RoutingModes.ConcentrationMet | tools/bigcherry/moe_routing_gen.py:221-243 | concentration yields exactly total/tpe_target active experts, each with load tpe_target |
| RoutingModes.SingleMet | tools/bigcherry/moe_routing_gen.py:215-243 | single puts expert 0 in every token |
| RoutingModes.ZipfMet | tools/bigcherry/moe_routing_gen.py:218-243 | for every weight function each expert serves its target load capped at n_tokens, and the target is realised if and only if no load exceeds n_tokens; for non-increasing weights, if and only if the first does not |
| RoutingModes.Generate | tools/bigcherry/moe_routing_gen.py:186-243 | a request is refused or its table is well routed, meets its mode and comes with the statistics of its own histogram, for every mode |
| RoutingModes.TotalHasRoom | tools/bigcherry/moe_routing_gen.py:209-236 | a non-negative target that sums to the table size always has room once capped |
| ZipfLoads.FirstLoad | tools/bigcherry/moe_routing_gen.py:101-114 | the heaviest zipf load is at most n_tokens if and only if its exact share is less, or equal without a remainder |
| ZipfLoads.ZipfRealisedIff | tools/bigcherry/moe_routing_gen.py:218-236 | a zipf table realises its target if and only if top_k times the first weight is less than the sum of the weights, or equal with every share whole |
| ZipfLoads.DefaultZipfIsNotRealised | tools/bigcherry/moe_routing_gen.py:186-220 | with 256 experts, top 8 and alpha 1 no table realises the target, for any number of tokens |
| BusyTime.PointsExact | tools/bigcherry/rocprof.py:170-188 | the reference set holds exactly the nanoseconds that some half-open interval covers |
| BusyTime.PointsMonotone | tools/bigcherry/rocprof.py:170-188 | the union ignores order and repetition and grows with the intervals |
| BusyTime.UnionBusyNs | tools/bigcherry/rocprof.py:170-188 | the sweep returns at most the number of covered nanoseconds, and exactly that number if and only if no inverted interval is stray |
| BusyTime.GpuBusyNs | tools/bigcherry/analysis/kernel_fraction.py:93-112 | the other sweep meets the same specification, so the two agree |
| BusyTime.InvertedIntervals | tools/bigcherry/rocprof.py:170-188 | a lone inverted interval makes the sweeps wrong; one that an earlier interval reaches does not |
| BusyTime.BusyAtMostDurations | tools/bigcherry/analysis/kernel_fraction.py:93-112 | busy time is at most the sum of the durations |
| BusyTime.BusyAtMostHull | tools/bigcherry/rocprof.py:170-188 | busy time is at most any window that contains the intervals |
| TraceSummary.Summarize | tools/bigcherry/rocprof.py:190-220 | each family's calls, time and names and each agent's busy time and window are those of exactly its own dispatches |
| TraceSummary.FamilyTotals | tools/bigcherry/analysis/kernel_fraction.py:273-277 | total and matmul time read back from the per-family dictionary are the sums over the rows |
| TraceSummary.TraceBounds | tools/bigcherry/analysis/kernel_fraction.py:239-261 | matmul union ≤ union of all spans ≤ traced window, and the union is at most the kernel time |
| TraceSummary.UnionTimes | tools/bigcherry/analysis/kernel_fraction.py:278-306 | busy and matmul times are the numbers of nanoseconds that some span, and some matmul span, covers |
| TraceSummary.SummarizeFamilies | tools/bigcherry/analysis/kernel_fraction.py:271-321 | with timestamps 0 ≤ matmul wall share ≤ busy share ≤ 100, and the matmul share is absent exactly without them |
| TraceSummary.RowSpansExact | tools/bigcherry/analysis/kernel_fraction.py:239-261 | the spans reduced are exactly those of the stamped rows of the chosen families |
| TraceSummary.PctIs | tools/bigcherry/analysis/kernel_fraction.py:278-306 | a percentage times its whole is a hundred times the part, and 0 without a whole |
| SignTest.TailMirror | tools/bigcherry/analysis/bandit_simulator.py:177-185 | the tail from w and the tail from n+1-w together count all 2^n outcomes |
| SignTest.TailAntitone | tools/bigcherry/analysis/bandit_simulator.py:177-185 | the tail does not grow with the number of wins asked for |
| SignTest.TailCounts | tools/bigcherry/analysis/bandit_simulator.py:177-185 | the tail is the number of win/loss records of length n with at least that many wins |
| SignTest.OutcomeCount | tools/bigcherry/analysis/bandit_simulator.py:177-185 | there are 2^n such records |
| SignTest.TailsSumToOne | tools/bigcherry/analysis/bandit_simulator.py:177-185 | tail(w, n) + tail(n+1-w, n) = 1 for 1 ≤ w ≤ n |
| SignTest.McnemarIsDoubledTail | tools/bigcherry/analysis/bandit_simulator.py:481-490 | the exact McNemar p-value of k among n is min(1, 2·tail(n-k, n)) |
| SignTest.McnemarEvenSplit | tools/bigcherry/analysis/bandit_simulator.py:481-490 | an even split gives p = 1 |
| SignTest.PairedSignTest | tools/bigcherry/analysis/bandit_simulator.py:188-213 | wins are the rounds of the shorter length in which the challenger is strictly faster and n those in which the two differ, as sizes of sets of rounds; p is 1 when n is 0 or below the round floor and the tail otherwise |
| SignTest.CountsAreSizes | tools/bigcherry/analysis/bandit_simulator.py:201-210 | the two running counts are the sizes of the sets of faster and of different rounds |
| SignTest.SignTestMeans | tools/bigcherry/analysis/bandit_simulator.py:188-213 | the p-value is the share of win/loss records with at least as many wins as rounds in which the challenger is strictly faster |
| SignTest.AlwaysFaster | tools/bigcherry/analysis/bandit_simulator.py:188-213 | a challenger strictly faster in all n common rounds, n at least 1 and the floor, has p = 1/2^n |
| SignTest.NeverFaster | tools/bigcherry/analysis/bandit_simulator.py:188-213 | a challenger faster in no common round has p = 1 |
| SignTest.WinsOfBothSides | tools/bigcherry/analysis/bandit_simulator.py:201-210 | each decided round is won by exactly one side |
| SignTest.SignificantNeedsMajority | tools/bigcherry/analysis/bandit_simulator.py:188-213 | p ≤ 1/2 takes a strict majority of at least one decided round |
| SignTest.NeverBothSignificant | tools/bigcherry/analysis/bandit_simulator.py:188-213 | no two round sequences are significant in both directions at alpha ≤ 1/2, whatever the round floors |
| SignTest.PromotionIsEarned | tools/bigcherry/analysis/bandit_simulator.py:216-248 | a promoted candidate has no slower mean and won most decided rounds |
| SignTest.PromotionIff | tools/bigcherry/analysis/bandit_simulator.py:216-248 | another candidate than native is declared exactly when it is the conclusive winner, both means exist, native took time, the saving is at least the threshold and the sign test is at most alpha |
| SignTest.PromotionIsOneWay | tools/bigcherry/analysis/bandit_simulator.py:216-248 | the same evidence never promotes two candidates over each other |
| RoundData.BudgetCovers | tools/bigcherry/analysis/bandit_simulator.py:321-325 | the step budget covers the recorded rounds of every name, also with repeated names |
| RoundData.MeanBalances | tools/bigcherry/analysis/bandit_simulator.py:251-252 | the mean is the one value from which the deviations sum to zero |
| SuccessiveHalving.TakeChunk | tools/bigcherry/analysis/bandit_simulator.py:286-293 | a pass advances each survivor, and no other name, by up to chunk rounds and never past its recorded rounds |
| SuccessiveHalving.ReachClosed | tools/bigcherry/analysis/bandit_simulator.py:285-302 | after r passes a survivor has read min(r·chunk, its length) rounds |
| SuccessiveHalving.DroppedIsBeaten | tools/bigcherry/analysis/bandit_simulator.py:296-302 | what an elimination drops is no native and no faster than any of the better half |
| SuccessiveHalving.KeepMembers | tools/bigcherry/analysis/bandit_simulator.py:299-302 | the better half and every ranked native survive, each once |
| SuccessiveHalving.KeepHalves | tools/bigcherry/analysis/bandit_simulator.py:298-302 | exactly the first ⌈n/2⌉ ranked names, and the natives behind them, are kept |
| SuccessiveHalving.Eliminate | tools/bigcherry/analysis/bandit_simulator.py:294-302 | the kept names are exactly the first ⌈n/2⌉ of those measured, ranked by mean, and the natives among the rest; every other name was dropped for a reason that stays true |
| SuccessiveHalving.Passes | tools/bigcherry/analysis/bandit_simulator.py:281-302 | the loop ends, and only with one survivor, no rounds left, no chunk or one sampled name |
| SuccessiveHalving.Halve | tools/bigcherry/analysis/bandit_simulator.py:270-309 | the total is the sum of the prefixes read, eliminated names included, and at most the fixed schedule's; a native is lost if and only if it has no rounds while two names are measured; the winner is the fastest survivor |
| SuccessiveHalving.SilentNativeIsLost | tools/bigcherry/analysis/bandit_simulator.py:296-302 | a concrete dispatch every run of which eliminates its native |
| SuccessiveHalving.MeasuredNativesSurvive | tools/bigcherry/analysis/bandit_simulator.py:111-113 | when every candidate has a round, as the loader ensures, every native survives every run |
| SuccessiveHalving.FixedSchedule | tools/bigcherry/analysis/bandit_simulator.py:255-267 | every recorded round is consumed, the eligible names are exactly those with enough rounds, and the winner is the fastest of them |
| AdaptiveSampling.PickIsGreedy | tools/bigcherry/analysis/bandit_simulator.py:326-336 | a step picks an available name that no available name outscores, untried names first |
| AdaptiveSampling.PicksLeastScore | tools/bigcherry/analysis/bandit_simulator.py:326-336 | a name picked again leaves no untried name behind and has the least score of all that are available |
| AdaptiveSampling.RunWithin | tools/bigcherry/analysis/bandit_simulator.py:325-338 | no run reads past the recorded rounds and each step reads exactly one |
| AdaptiveSampling.RunIsFair | tools/bigcherry/analysis/bandit_simulator.py:325-338 | for any scores, every measurable candidate is tried once before any is tried twice |
| AdaptiveSampling.Sample | tools/bigcherry/analysis/bandit_simulator.py:374-402 | the loop is a greedy run that ends exhausted or at the first step at which the stopping test holds |
| AdaptiveSampling.Allocate | tools/bigcherry/analysis/bandit_simulator.py:312-358 | the result is that of a greedy run: its total is the sum of the prefixes read, the winner is the fastest name with enough rounds, and it is inconclusive exactly when there is none |
| AdaptiveSampling.EarlyStopIsDecisive | tools/bigcherry/analysis/bandit_simulator.py:339-352 | stopping by separation leaves one candidate strictly faster than every other |
| AdaptiveSampling.StopsOnlyApart | tools/bigcherry/analysis/bandit_simulator.py:339-352 | the loop stops only when every name has its floor and, of two or more measured names, the fastest two by mean are apart by sigma times both of their spreads |
| AdaptiveSampling.StopsWhenApart | tools/bigcherry/analysis/bandit_simulator.py:339-352 | it does stop then, whichever names tie for the first two places |
| AdaptiveSampling.FloorNeedsSeparation | tools/bigcherry/analysis/bandit_simulator.py:389-402 | with a positive floor and two candidates, only separation stops a run early |
| AdaptiveSampling.NoFloorStopsAtOnce | tools/bigcherry/analysis/bandit_simulator.py:339-352 | without a positive floor a run reads at most one round |
| AdaptiveSampling.EarlyStopIff | tools/bigcherry/analysis/bandit_simulator.py:339-352 | a run that leaves rounds unread stopped by separation if and only if the floor is positive and at least two names take part |
| AdaptiveSampling.LoneCandidateStops | tools/bigcherry/analysis/bandit_simulator.py:346-352 | a lone candidate with three rounds stops after one, neither exhausted nor separated |
| MidRanks.Midranks | tools/bigcherry/analysis/compare_tunes.py:39-51 | the nested loops give each key the number of smaller values plus half of one more than the number of tied ones |
| Spearman.RanksKeepOrder | tools/bigcherry/analysis/compare_tunes.py:39-51 | ranks compare exactly as the values do, ties included |
| Spearman.RanksDependOnOrder | tools/bigcherry/analysis/compare_tunes.py:39-51 | two tables that order their keys alike have equal ranks |
| Spearman.RanksIgnoreRescaling | tools/bigcherry/analysis/compare_tunes.py:39-51 | a strictly increasing rescaling changes no rank |
| Spearman.RanksMirrored | tools/bigcherry/analysis/compare_tunes.py:39-51 | reversing the order turns each rank r into n + 1 - r |
| Spearman.RankSum | tools/bigcherry/analysis/compare_tunes.py:39-51 | the ranks of n values sum to n(n+1)/2 |
| Spearman.CauchySchwarz | tools/bigcherry/analysis/compare_tunes.py:61-64 | the squared numerator is at most the product of the two sums of squares |
| Spearman.CorrelationInRange | tools/bigcherry/analysis/compare_tunes.py:54-64 | every correlation lies in [-1, 1] |
| Spearman.CorrelationSymmetric | tools/bigcherry/analysis/compare_tunes.py:54-64 | exchanging the two runs changes nothing |
| Spearman.NoCorrelationIff | tools/bigcherry/analysis/compare_tunes.py:54-64 | there is none exactly when fewer than two keys are shared or one side is all ties |
| Spearman.SameOrderIsPerfect | tools/bigcherry/analysis/compare_tunes.py:54-64 | runs that order the shared keys alike correlate with 1 |
| Spearman.OppositeOrderIsPerfect | tools/bigcherry/analysis/compare_tunes.py:54-64 | runs that order them in opposite ways correlate with -1 |
| Spearman.CorrelationIsRatio | tools/bigcherry/analysis/compare_tunes.py:54-64 | with two shared keys or more the correlation is that of the ranks less the middle rank (n+1)/2, restricted to the shared keys |
| Spearman.RatioIsProduct | tools/bigcherry/analysis/compare_tunes.py:61-64 | it exists exactly when both sums of squares are positive, and times the root of their product it is the sum of the products |
| WeightedMedian.WeightedMedianOf | tools/bigcherry/generalise.py:465-476 | returns the crossing value of the sorted entries, none without weight |
| WeightedMedian.InlineMedian | tools/bigcherry/generalise.py:261-271 | the loop in prove returns the crossing value, also without weight |
| WeightedMedian.CrossingMinimises | tools/bigcherry/generalise.py:465-476 | with a positive total the crossing value minimises the weighted absolute deviations over all reals, and every smaller real costs strictly more |
| WeightedMedian.MediansAgree | tools/bigcherry/generalise.py:261-271 | the two agree if and only if there are no entries or the total is positive |
| WeightedMedian.NoCallsDisagree | tools/bigcherry/generalise.py:261-271 | a concrete list on which they differ |
| Generalise.BucketIsLeast | tools/bigcherry/generalise.py:185-186 | a bucket is the least power of two that is at least 1 and the value |
| Generalise.BucketMonotone | tools/bigcherry/generalise.py:185-186 | larger values have no smaller buckets |
| Generalise.BucketIdempotent | tools/bigcherry/generalise.py:185-186 | a bucket is its own bucket |
| Generalise.SameBucketIff | tools/bigcherry/generalise.py:185-186 | two values share a bucket exactly when no power of two separates them |
| Generalise.TransformValue | tools/bigcherry/generalise.py:171-186 | the indexed loop transforms each listed position once however often it is listed, and fails on exactly the bad shapes and indices |
| Generalise.PlainImage | tools/bigcherry/generalise.py:182-186 | without indices zero gives zeros of the same shape, and a bucket exists for a number only and is the least power of two at least as large |
| Generalise.IndexedImage | tools/bigcherry/generalise.py:171-181 | with indices the value is an array with every index in range; listed positions become zero or their bucket and no other position changes |
| Generalise.PolicyValidIff | tools/bigcherry/generalise.py:151-161 | the fields are accepted exactly when included and excluded ones partition them and every transformed field is excluded |
| Generalise.GeneralisedCanonical | tools/bigcherry/generalise.py:189-199 | a key exists exactly for a valid policy, a complete signature and applicable transforms; it holds included fields verbatim and the image of each field's last transform, and nothing else |
| Generalise.SameKeyIffAlike | tools/bigcherry/generalise.py:189-199 | two signatures share a key if and only if they agree on every included field and on every last image |
| Generalise.CoarserOnlyMerges | tools/bigcherry/generalise.py:189-199 | bucketing a verbatim field, zeroing a bucketed one or dropping a field only merges groups |
| PairedBootstrap.MedianMonotone | tools/bigcherry/analysis/impact.py:303-305 | a median of pointwise smaller values is no larger |
| PairedBootstrap.MedianMapped | tools/bigcherry/analysis/impact.py:303-305 | a median commutes with increasing maps that keep midpoints |
| PairedBootstrap.MedianIsMedian | tools/bigcherry/analysis/impact.py:303-305 | the median is the middle order statistic, or the midpoint of the two middle ones |
| PairedBootstrap.ResampleBounded | tools/bigcherry/analysis/impact.py:302-305 | a ratio that bounds every paired round bounds the medians of every resample |
| PairedBootstrap.DrawAtMost | tools/bigcherry/analysis/impact.py:300-307 | a draw saves at least what the worst round saved |
| PairedBootstrap.DrawAtLeast | tools/bigcherry/analysis/impact.py:300-307 | a draw saves at most what the best round saved |
| PairedBootstrap.Draw | tools/bigcherry/analysis/impact.py:301-305 | the totals of a draw are the call-weighted sums of its medians |
| PairedBootstrap.SavingInterval | tools/bigcherry/analysis/impact.py:256-311 | refused below two draws, absent when nothing was called, otherwise the order statistics at n div 40 and 39n div 40 of the savings of the n draws, each from the call-weighted medians of its resample; ordered and within the range of the per-round savings |
| PairedBootstrap.Ends | tools/bigcherry/analysis/impact.py:308-311 | the two ends are the order statistics at n div 40 and 39n div 40 of the list, which determines them |
| OrderStatistics.SortedStatistic | tools/bigcherry/analysis/impact.py:308-311 | the entry at k of a sorted list has at most k values below it and more than k at or below it |
| OrderStatistics.StatisticUnique | tools/bigcherry/analysis/impact.py:308-311 | at most one value is the order statistic at k |
| PairedBootstrap.ProportionalIsExact | tools/bigcherry/analysis/impact.py:256-311 | winner = c·native in every round gives exactly 100(1-c) for both ends |
| PairedBootstrap.NeverSlowerNeverLoses | tools/bigcherry/analysis/impact.py:256-311 | winner ≤ native in every round gives no negative end |
| ImpactCoverage.AlignedPairsPositive | tools/bigcherry/analysis/impact.py:220-253 | aligned pairs are positive and each joins the two samples of one round index |
| ImpactCoverage.AlignedPairsComplete | tools/bigcherry/analysis/impact.py:220-253 | the pairs are those of exactly the rounds in which both candidates have a sample, in round order |
| ImpactCoverage.AlignedPairsOkIff | tools/bigcherry/analysis/impact.py:220-253 | the samples are accepted exactly when both lists have one length and every round with two samples has positive ones |
| ImpactCoverage.FindExact | tools/bigcherry/analysis/impact.py:49-56 | the candidate found is the first one of that name with status ok, an error without a median, and none exactly when there is no such candidate |
| ImpactCoverage.IndexObservations | tools/bigcherry/analysis/impact.py:62-74 | observations are accepted exactly when signatures are present and distinct and counts are not negative |
| ImpactCoverage.PredictedSaving | tools/bigcherry/analysis/impact.py:76-137 | succeeds exactly when signatures are present and distinct and every observed row has usable medians; covered calls and both time totals are then the sums over the rows that have both candidates |
| ImpactCoverage.BackedIsCovered | tools/bigcherry/analysis/impact.py:314-379 | sample-backed calls never exceed the calls the point estimate covers |
| ImpactCoverage.UsablePairs | tools/bigcherry/analysis/impact.py:314-347 | succeeds exactly when the samples of every observed row can be read; every pair list kept can be bootstrapped, and together they carry the backed calls |
| ImpactCoverage.SampleBackedCoverage | tools/bigcherry/analysis/impact.py:350-379 | succeeds exactly when both of the above do; the backed fraction is in [0, 1] and is the quotient of the two counts |
| SourceLint.BlockJump | tools/bigcherry/source_lint.py:45-49 | jumping to the end of a block comment is what the machine does character by character |
| SourceLint.RawJump | tools/bigcherry/source_lint.py:50-59 | the same for a raw string and its delimiter |
| LintTokens.RawPrefixIff | tools/bigcherry/source_lint.py:50-54 | a raw string starts at i exactly where an R that no identifier character precedes is followed by a quote, a delimiter without blanks or line breaks and, within twenty characters, the first opening parenthesis; its terminator is `)`, the delimiter and a quote |
| LintTokens.RawStringEnds | tools/bigcherry/source_lint.py:50-59 | a raw string with delimiter d is left after the first `)d"`, or at the end of the text, with its line breaks counted and nothing reported |
| LintTokens.CommentEnds | tools/bigcherry/source_lint.py:45-49 | a block comment is left after the first terminator behind its opening, or at the end of the text, in the same way |
| LintTokens.FindIsFirst | tools/bigcherry/source_lint.py:45-59 | a search returns the first occurrence from a position on, and none exactly when there is none |
| LintTokens.StringEnds | tools/bigcherry/source_lint.py:60-76 | a string runs to its first quote or line break behind an even number of backslashes; its opening line is reported exactly when that is a line break, and every line break in it is counted |
| LintTokens.LineCommentEnds | tools/bigcherry/source_lint.py:38-44 | a line comment runs to the first line break behind an even number of backslashes, with the escaped line breaks counted |
| LintTokens.CharacterEnds | tools/bigcherry/source_lint.py:77-86 | an apostrophe that is not between alphanumeric characters opens a literal that runs to its first bare apostrophe or line break, with no escaped line break counted |
| LintTokens.PlainCharacter | tools/bigcherry/source_lint.py:35-88 | where none of these tokens starts, a digit separator included, one character is passed over and only a line break changes the line |
| LintTokens.OneBareEnd | tools/bigcherry/source_lint.py:38-86 | there is exactly one such end |
| SourceLint.SkipString | tools/bigcherry/source_lint.py:60-76 | the string branch reports its opening line exactly when a bare line break ends it |
| SourceLint.SkipChar | tools/bigcherry/source_lint.py:77-86 | the character-literal branch is the machine's |
| SourceLint.Token | tools/bigcherry/source_lint.py:32-88 | each iteration moves forward and reports what the machine reports over the same characters |
| SourceLint.CppStringNewlines | tools/bigcherry/source_lint.py:28-89 | the lexer ends on every text and reports exactly the machine's lines |
| LintLines.ReportsRise | tools/bigcherry/source_lint.py:28-89 | reported lines rise strictly and lie within 1 and 1 + the number of line breaks |
| LintLines.ReportedLine | tools/bigcherry/source_lint.py:28-89 | a reported line is that of the opening quote if and only if no character literal before it hides a line break |
| LintLines.HiddenBreakShifts | tools/bigcherry/source_lint.py:77-86 | a concrete text with a wrong reported line |
| LintLines.RwStringNewlines | tools/bigcherry/source_lint.py:92-110 | the reports of each block, lexed alone, shifted by the block's start |
| LintLines.BlockReportsRise | tools/bigcherry/source_lint.py:92-110 | block reports rise strictly and name lines of the file |
| PoolProtocol.RunProjects | tools/bigcherry/pool_protocol.py:45-69 | the machine over interleaved rows rejects as soon as one row is refused, and is otherwise its run over the isolated events alone |
| PoolProtocol.TimingRun | tools/bigcherry/pool_protocol.py:96-120 | after the rebase the machine accepts exactly one or more begin/end pairs |
| PoolProtocol.BatchIsMachine | tools/bigcherry/pool_protocol.py:69-120 | counting, positions and pairing together accept exactly what the machine accepts, for every isolated projection |
| PoolTraces.AcceptingIff | tools/bigcherry/pool_protocol.py:69-120 | the isolated events are accepted exactly when their names are clear_cache, warmup_begin, warmup_complete, synchronize and rebase_peak in this order, each once and with only stray timed_sample_end before the rebase, and then one or more begin/end pairs |
| PoolProtocol.ValidatePoolProtocol | tools/bigcherry/pool_protocol.py:32-120 | a trace is valid if and only if the one-pass machine accepts it, and the first bad row is the one reported |
| PoolTraces.AcceptsIff | tools/bigcherry/pool_protocol.py:41-120 | a trace is accepted exactly when it is not empty, every row names one of the three stages and seven events, no final or confirmation row is clear_cache or rebase_peak, and the isolated rows are none or follow that protocol |
| StageGraph.StaticOrder | tools/bigcherry/campaign/graph.py:43-50 | returns an order with dependencies first, or a set of stages that wait for each other |
| StageGraph.NoOrder | tools/bigcherry/campaign/graph.py:43-50 | with such a set there is no order at all |
| StageGraph.BuildGraph | tools/bigcherry/campaign/graph.py:31-50 | a graph is refused exactly for a duplicate, for an unknown dependency, or because no order exists |
| Scheduler.CampaignRun.Execute | tools/bigcherry/campaign/campaign.py:43-106 | one pass computes the specified records and calls and holds no lock afterwards |
| Scheduler.CampaignRun.ExecuteStage | tools/bigcherry/campaign/campaign.py:51-105 | a stage is blocked, reused, refused its locks or executed, and its locks are released |
| Scheduler.CampaignRun.AcquireAll | tools/bigcherry/campaign/campaign.py:84-91 | all claims are acquired in order, or none beyond the first that is busy |
| Scheduler.NoneRunning | tools/bigcherry/campaign/campaign.py:43-106 | after a pass no stage is left running |
| Scheduler.CalledAfterDeps | tools/bigcherry/campaign/campaign.py:43-106 | the executor is called only after every dependency succeeded or was reused |
| Scheduler.CalledOnce | tools/bigcherry/campaign/campaign.py:43-106 | the executor is called at most once per stage |
| Scheduler.BlockedIffChain | tools/bigcherry/campaign/campaign.py:43-106 | a stage is blocked if and only if a chain of dependencies leads to one that failed in this pass |
| Scheduler.PassConsistent | tools/bigcherry/campaign/campaign.py:43-106 | the finished stages are closed under dependencies after every pass |
| Scheduler.FinishedStaysFinished | tools/bigcherry/campaign/campaign.py:60-101 | with an accepting reuse check a finished stage stays finished, keeps its output hashes and is never executed again |
| Scheduler.FinishedRunIsQuiet | tools/bigcherry/campaign/campaign.py:60-101 | once the whole graph is finished later passes call no executor |
| StageOutcomes.StageIsOneOf | tools/bigcherry/campaign/campaign.py:43-106 | each stage is in exactly one case: blocked when a dependency is not finished, reused when it may be, refused when a claim is busy or repeated, and executed otherwise, each if and only if |
| StageOutcomes.ExecutedAsItEnds | tools/bigcherry/campaign/campaign.py:92-101 | an executed stage succeeded with exactly these hashes if and only if the executor returned them, and failed with this error if and only if it raised it |
| StageOutcomes.NotExecuted | tools/bigcherry/campaign/campaign.py:60-91 | a stage that is not executed did not succeed in this pass; a reused one keeps its whole record and any other has no outputs |
| StageOutcomes.RecordOfStage | tools/bigcherry/campaign/campaign.py:52-59 | after a pass each stage has a record under its own id with the specification of its node |
| StageOutcomes.CalledInOrder | tools/bigcherry/campaign/campaign.py:43-106 | the executor's calls are the executed stages in the order of the graph |
| CcacheSlots.StepOk | tools/bigcherry/campaign/ccache_paths.py:36-86 | every step of every build keeps the slot, link and environment invariant |
| CcacheSlots.SlotsAreExclusive | tools/bigcherry/campaign/ccache_paths.py:47-86 | in every interleaving no two builds hold one slot |
| CcacheSlots.TriesInOrder | tools/bigcherry/campaign/ccache_paths.py:53-60 | over every interleaving a build holds slot n only after trying every lower one, and runs without a slot only after trying all |
| CcacheSlots.BodySeesItsOwnLinks | tools/bigcherry/campaign/ccache_paths.py:36-86 | a build in its body with a slot sees both links name its own directories |
| CcacheSlots.BodyStartsWith | tools/bigcherry/campaign/ccache_paths.py:47-86 | the body starts with the slot's variables, or with none of the four rewrite variables and the rest as at entry |
| CcacheSlots.VariablesNameTheLinks | tools/bigcherry/campaign/ccache_paths.py:63-78 | LINK_SRC is the path of the slot's src link, which names REAL_SRC, the build's source; the same for bld; the base directory is the slot's and a cache directory set at entry is kept |
| CcacheSlots.ExitRestores | tools/bigcherry/campaign/ccache_paths.py:47-86 | on normal or exceptional exit each saved variable is as at entry and no other one was touched |
| IdentityTree.DifferencesSound | tools/bigcherry/e2e_smoke_campaign.py:228-243 | every reported difference is true of the two documents |
| IdentityTree.DifferencesComplete | tools/bigcherry/e2e_smoke_campaign.py:228-243 | every path at which the documents differ to Python is covered by a report |
| IdentityTree.NoDifferencesIffEqual | tools/bigcherry/e2e_smoke_campaign.py:228-243 | there is no difference if and only if Python calls the documents equal |
| IdentityTree.PyEqualIffFloated | tools/bigcherry/e2e_smoke_campaign.py:228-243 | two documents are Python-equal if and only if they are identical once every whole number and boolean is read as the float it equals |
| ResumeGate.EnsureOpensIff | tools/bigcherry/e2e_smoke_campaign.py:449-524 | the gate opens exactly for an empty unbound directory and for one bound to this identity, and leaves it bound |
| ResumeGate.EnsureAttributes | tools/bigcherry/e2e_smoke_campaign.py:449-524 | behind an open gate every artifact was produced under this identity, and none was changed |
| ResumeGate.MismatchIsExplained | tools/bigcherry/e2e_smoke_campaign.py:449-524 | a mismatch is refused with true differences, of which there is one if and only if Python tells the documents apart |
| ResumeGate.UnexplainedMismatch | tools/bigcherry/e2e_smoke_campaign.py:510-520 | a concrete mismatch, 0.0 against 0, that is refused with an empty list |
| ResumeGate.RefusedTwice | tools/bigcherry/e2e_smoke_campaign.py:526-546 | a refused run cannot record its failure either |
| ResumeGate.WorkDirectory.EnsureCampaignIdentity | tools/bigcherry/e2e_smoke_campaign.py:449-524 | computes the gate on the stored status, and changes nothing when it refuses |
| ResumeGate.WorkDirectory.AppendStatus | tools/bigcherry/e2e_smoke_campaign.py:526-546 | appends to the history, which starts empty when missing, behind the same gate, or changes nothing |
| ResumeGate.StatusGrows | tools/bigcherry/e2e_smoke_campaign.py:526-546 | an entry is written exactly behind an open gate over a history that is a list; the history is then the old one and this entry, and nothing else that was there changes |
| ResumeRuns.StepKeeps | tools/bigcherry/e2e_smoke_campaign.py:681-875 | each stage step, activation probe, death and operator deletion keeps every file attributed to the run that produced it |
| ResumeRuns.NeverMixed | tools/bigcherry/e2e_smoke_campaign.py:1173-1191 | over every history, artifacts present while the status is bound were produced under the bound identity, and no run read a file of another identity |
| CampaignStages.ResumedOnlyFromItsFiles | tools/bigcherry/e2e_smoke_campaign.py:681-875 | over every history a stage is recorded as resumed only for S1_record, S1b_inventory, S2_tune and S6_bench, and only with its own files present, and non-empty where required, at that moment |
| CampaignStages.CompletedHasRun | tools/bigcherry/e2e_smoke_campaign.py:681-875 | over every history a stage is recorded as completed only right after its tools ended well and with the files it must deliver; recording, tuning and replay start without the files of an earlier attempt |
| CampaignStages.DoneHasPassedAll | tools/bigcherry/e2e_smoke_campaign.py:1121-1191 | a run that reaches the end of the campaign has passed every stage up to S5_replay, or up to S7 with the bench, each once and in order |
| ResumeRuns.RefusedRunChangesNothing | tools/bigcherry/e2e_smoke_campaign.py:1260-1271 | a refused run, or a refused patch validation, ends without changing the status or any artifact |
| NamedEntries.CanonicalUnique | tools/bigcherry/backend/identity.py:169-177 | sorting by distinct names gives one result for every listing of the same entries |
| NamedEntries.ParsePrinted | tools/bigcherry/backend/identity.py:200-203 | parsing the fields printed for a list of entries gives back the list |
| NamedEntries.PrintParsed | tools/bigcherry/backend/identity.py:268-271 | printing what was parsed gives back the fields |
| BackendIdentity.ComponentConstructed | tools/bigcherry/backend/identity.py:161-177 | a constructed component holds exactly the given attributes, in name order |
| BackendIdentity.StackConstructed | tools/bigcherry/backend/identity.py:223-240 | a constructed stack holds exactly the given components, in name order |
| BackendIdentity.ComponentIgnoresOrder | tools/bigcherry/backend/identity.py:161-177 | any permutation of the attributes constructs the same component or fails in the same way |
| BackendIdentity.StackIgnoresOrder | tools/bigcherry/backend/identity.py:223-240 | any permutation of the components constructs the same stack or fails in the same way |
| BackendIdentity.ParsedAttribute | tools/bigcherry/backend/identity.py:128-147 | an accepted attribute document is the document of the attribute it is read as |
| BackendIdentity.ComponentRoundTrip | tools/bigcherry/backend/identity.py:179-208 | every component is read back from its own document |
| BackendIdentity.ParsedComponent | tools/bigcherry/backend/identity.py:185-208 | an accepted component document is the document of a valid component of that name |
| BackendIdentity.StackRoundTrip | tools/bigcherry/backend/identity.py:242-272 | every stack is read back from its own document |
| BackendIdentity.AcceptedIsCanonical | tools/bigcherry/backend/identity.py:249-272 | every accepted document is the document of the stack it is read as, so there is one document per stack |
| StackDocuments.StackAcceptedIff | tools/bigcherry/backend/identity.py:248-272 | a document is accepted exactly when it has the three fields, this schema, a backend token and at least one component, each of which fits |
| StackDocuments.ComponentAcceptedIff | tools/bigcherry/backend/identity.py:185-208 | a component is accepted exactly when its name matches, it has the two fields and one of the three states, its attributes fit and there are none unless it is present |
| StackDocuments.AttributeAcceptedIff | tools/bigcherry/backend/identity.py:102-147 | an attribute is accepted exactly when its name is one of the eight and it is present with a value that is not blank, 64 hexadecimal digits for a digest, or missing or unknown with null |
| StackDocuments.ComponentNameIff | tools/bigcherry/backend/identity.py:40-40 | the accepted component names are exactly the matches of the regular expression, read by its own structure |
| BackendIdentity.FingerprintIdentifies | tools/bigcherry/backend/identity.py:274-282 | with an injective encoding and digest two stacks have equal fingerprints if and only if they are equal |

## Left out

- Floating-point rounding, the random generators and the insides of digests, file locks, resource locks and graphlib: replaced as the conventions above say.
- HTTP clients, servers, subprocesses, metrics, command lines, report rendering and database queries: input and output.
- RoutingModes.CountsZipf: the weights are any positive function of the rank instead of a power with exponent alpha; a non-increasing function stands for alpha ≥ 0.
- TraceSummary.SummarizeFamilies: per-family percentages and the unmapped share are single quotients and are not part of the result; rows are all stamped or all unstamped, because the parser refuses inputs that mix the two.
- SourceLint.CppStringNewlines: which characters are alphanumeric is a parameter, so the digit-separator rule holds for every such test.
- LintLines.RwStringNewlines: the block marker patterns are a parameter that classifies a line; splitting a text into lines is not modelled.
- PairedBootstrap.SavingInterval: the percentile index is computed on integers and the resampled rounds are an argument.
- ImpactCoverage.PredictedSaving: the per-family breakdown, the lists of unmatched signatures and the final percentage are left out; which of several errors is raised first is not stated.
- AdaptiveSampling.Allocate: the confidence bound of UCB1, the posterior draw of Thompson sampling and the standard error are arbitrary functions; the two policies differ in nothing else.
- SuccessiveHalving.Halve: the survivors dictionary is a list of names with one table of counters that keeps the counters of eliminated names; the means of a result are those of its consumed rounds and are not stored.
- Generalise.GeneralisedCanonical: of the policy validation only the field conditions are modelled (versions, kernel family, thresholds and the content hash are single comparisons); field values are numbers or arrays of numbers.
- Scheduler.CampaignRun.Execute: waiting for a lock and its timeout are one outcome, busy or not; status files and manifests are not modelled.
- CcacheSlots.StepOk: each build is its own process with its own environment; nested uses inside one process and writers of the links other than builds are not modelled.
- ResumeRuns.NeverMixed: one run at a time works on a directory; a server that outlives its run is not modelled; the contents of stage files are their producer tags.
- IdentityTree.DifferencesSound: paths are key sequences instead of dotted strings; the float values NaN, the infinities and negative zero are not modelled.
- BackendIdentity.ParseStack: fields are parsed in name order, so which of several errors is raised first may differ; field names are strings.
- Release, device-state, parity, patch-admission and environment validators, transform records, lifecycle and comparison evidence: field checks and decision tables that would add only easy members, or that rest on stores not modelled here.
