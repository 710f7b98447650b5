# Proofstep in Dafny

A model of the parts of Proofstep that decide whether a change may be merged, and of the two small
concurrent protocols and the trace drawing around them. The Python and TypeScript sources are cited by
path and line; numbers are exact (Dafny `real` and `int`) where the sources use floats.

| file | what it models |
|---|---|
| `Common`, `Reals`, `Sorting`, `Labels`, `Scores` | options, products, the stable library sorts, code-point string order, the scores of an example |
| `Spans`, `Waterfall`, `SpanTree`, `Drawing` | the trace waterfall: a recursive walk, the explicit-stack loop that computes it, and what the rows satisfy |
| `Collapse`, `SelfTime` | hiding collapsed subtrees in one pass; self time by an interval sweep |
| `Agreement`, `Kappa`, `KappaSums`, `KappaBounds`, `KappaEdges`, `KappaScale`, `Breakdown` | judge calibration: weighted kappa, its bounds and guard, directional error rates, per-class figures |
| `Recheck`, `Degraded` | storing a calibration report, reading it back, checking a requirement against it, and what is lost when the record misses fields |
| `McNemar`, `Wilson`, `Bootstrap`, `Significance`, `Pairing`, `Holm`, `Comparison` | matching two runs, the paired tests behind the gates and their correction |
| `Journal`, `WorkerPool`, `Sessions`, `Runner`, `Invoke` | the run engine: worker pool, spend cap, crash-safe journal, resume, retries |
| `Gates`, `MergeDecision` | gate rules, calibration states, verdicts; the whole run from dataset to exit code |
| `Aggregate`, `Recombine` | scores into metrics and slices |
| `Sampling` | which traces are paid for online |
| `Exporter`, `Flush`, `Progress`, `ExporterLoop` | the SDK's bounded export buffer, what its flush promises, and that its worker gets there |

How the concurrent parts are modelled. `WorkerPool` and `Exporter` are transition systems over plain
state values: an event is one stretch of code that cannot be interrupted, a schedule is any sequence of
events each enabled in its turn, and `After` is the state a schedule leads to, so a lemma about `After`
holds for every interleaving. The classes `WorkerPool.Pool` and `ExporterLoop.Buffer` hold the mutable
fields; each of their methods is proved equal to one transition, and `Pool.Run` picks workers arbitrarily.

Where the code and what is said about it differ, the model follows the code and the difference is a
theorem:

- A declared label order that repeats a label lets kappa exceed 1
  (`KappaEdges.InRangeIffOrderDistinct`), although the stored column admits only [-1, 1].
- The guard for "both raters used one label" has a relative tolerance of 1e-9. On a declared scale it is
  exact for n ratings if and only if n times the penalty scale (1, span or span^2) is below 10^9
  (`KappaEdges.GuardExactIff`); with quadratic weights on 101 labels it misfires from 100 000 ratings on.
  Without a scale the bound is a billion ratings (`KappaEdges.GuardExactUnordered`).
- A calibration record with missing fields is meant to leave some checks unapplied; what happens is that
  five of the checks pass in silence. Which fields have to be there for a met requirement to mean anything
  is exact (`Degraded.MissingFieldsHideIff`).
- The exact McNemar test divides two integers converted to doubles and raises from 1024 discordant pairs on
  (`McNemar.McNemarRaisesIff`), and with it the run (`MergeDecision.RunSuite`).
- Holm's correction reads a p-value of 0 as absent and reports it as 1 (`Holm.TextbookIffNoZero`); the two
  tests in use never produce 0 in exact arithmetic (`Holm.AnalysedIsTextbook`).
- A gate that asks for significance and gets a test with no p-value raises instead of reporting an error
  (`Gates.RaisesIff`); fewer than five shared examples are enough to get there (`Gates.TooFewPairsRaises`).
- A kill may cut a record inside a character of more than one byte. The journal then no longer decodes, the
  error escapes the loop that skips torn lines, and no run can resume from that file again. This is the only
  way in which kills show: otherwise the resumed report is the uninterrupted one
  (`Runner.CrashesDoNotShow`, `Runner.KillInsideCharacter`, `Runner.CutInsideCharacterStays`).
- A journal whose last line was cut short swallows the next record appended to it, so the first result of
  the resumed run is not recoverable (`Sessions.NothingLostIffWhole`), and a last record that was whole but
  for its line end is lost as well (`Sessions.TailSurvivesIff`).
- `flush` can answer True while a trace sits unsent in the worker's batch, with a single caller whose
  `submit` has returned (`Flush.FlushCanLie`). After each setting of the idle flag it is honest until the next
  `submit` clears the flag if and only if, as the worker set it, nothing was queued and no `submit` stood
  between clearing the flag and its put, or the worker was stopping (`Flush.MarkHonestIff`).
- A score whose own slice names a `slice_by` dimension is counted in that dimension's slices but not in the
  unsliced metric, so counts recombine exactly when there is none (`Recombine.CountsRecombineIff`).
- One-pass hiding agrees with hiding span by span only for rows that declare their children, which drawn
  rows do (`Collapse.OnePassIsUnionIff`, `Collapse.CollapsingIsExact`).

## Model

| member | source | states |
|---|---|---|
| Spans.SortSpansSpec | apps/web/src/lib/spans.ts:135-142 | The sort is a permutation: earlier starts first, then lower sequence indices, then ids as they collate, and the input order of spans that tie. |
| Spans.TraceWindow | apps/web/src/lib/spans.ts:151-168 | The window runs from the earliest start to the latest end, open spans counting as their start, and is at least one millisecond wide. |
| Spans.WindowCovers | apps/web/src/lib/spans.ts:151-168 | Every start and end lies inside the window, which is never empty. |
| Waterfall.IndexChildren | apps/web/src/lib/spans.ts:181-195 | The children map holds, for each id of the trace, the spans naming it as parent, in drawing order; the roots are the rest. |
| Waterfall.Walk | apps/web/src/lib/spans.ts:206-245 | The explicit-stack loop from one entry draws exactly what the recursive depth-first visit draws, and terminates on any parent links, cycles included. |
| Waterfall.BuildWaterfall | apps/web/src/lib/spans.ts:178-253 | For any spans at all the rows are the recursive waterfall of the sorted spans and satisfy every clause of WellDrawn. |
| SpanTree.WaterfallWellDrawn | apps/web/src/lib/spans.ts:178-253 | Every id is drawn once; a row at depth d > 0 has the row of its parent as the nearest earlier row at depth d - 1; siblings follow the sort; a child is placed before or under its parent; flags match. |
| SpanTree.SubtreeIsUnplacedDescendants | apps/web/src/lib/spans.ts:178-253 | On any links, the deeper rows directly after a row are exactly the descendants reachable from it without passing a span already drawn. |
| SpanTree.SubtreesExactIffAcyclic | apps/web/src/lib/spans.ts:178-253 | With distinct ids, every such block is exactly the transitive descendants if and only if no parent links form a cycle. |
| SpanTree.EachSpanOnceIffDistinct | apps/web/src/lib/spans.ts:178-253 | Each span is emitted exactly once if and only if no id repeats. |
| SpanTree.AcyclicParentsAbove | apps/web/src/lib/spans.ts:178-253 | Without cycles every parent is drawn above its children. |
| SpanTree.BarsToScale | apps/web/src/lib/spans.ts:206-235 | Offsets and widths stay within [0, 1]; spans inside the window are drawn to scale down to the minimum visible width. |
| Drawing.SiblingsByTime | apps/web/src/lib/spans.ts:178-253 | Of two rows under one parent, or two without a parent in the trace, the earlier one starts no later; at the same start it has the lower sequence index, then the id that collates first. |
| Drawing.RowsFollowLinks | apps/web/src/lib/spans.ts:181-204 | A nested row names the nearest earlier row one level up as its parent; a span that names no span of the trace is at the top. |
| Drawing.FlagsMean | apps/web/src/lib/spans.ts:216-235 | Open means no end, orphan means a parent that is not in the trace, and hasChildren that some span names this one. |
| Drawing.BarsMean | apps/web/src/lib/spans.ts:151-235 | Where spans end no earlier than they start, every bar is to scale between the earliest start and the latest end, an open one running to the end, down to a width of 0.002. |
| Collapse.CollapsedDescendants | apps/web/src/lib/spans.ts:261-273 | The loop returns the ids of the deeper rows directly after the row of the span, none for an unknown span. |
| Collapse.HideCollapsedSubtrees | apps/web/src/components/Waterfall.tsx:98-114 | One pass returns the rows outside every folded subtree, in order. |
| Collapse.OnePassIsUnionIff | apps/web/src/components/Waterfall.tsx:98-114 | The pass hides the union of the per-span sets for every collapsed set if and only if every row followed by a deeper one declares children. |
| Collapse.UndeclaredChildrenStay | apps/web/src/components/Waterfall.tsx:98-114 | A row that hides its children's existence keeps them visible when collapsed, against the per-span definition. |
| Collapse.CollapsingIsExact | apps/web/src/components/Waterfall.tsx:98-114 | On rows of a drawn waterfall the two agree for every collapsed set, nested ones included. |
| SelfTime.Sweep | apps/web/src/lib/spans.ts:285-301 | The sweep over intervals sorted by start counts the milliseconds covered by at least one of them, overlaps and empty intervals included. |
| SelfTime.SelfTimeMs | apps/web/src/lib/spans.ts:276-302 | The duration less the number of distinct milliseconds some child ran, between 0 and a non-negative duration. |
| SelfTime.BusyTimeIs | apps/web/src/lib/spans.ts:276-302 | Those are exactly the milliseconds during which at least one direct child of the span was running. |
| SelfTime.CoveredSameMembers | apps/web/src/lib/spans.ts:285-301 | The covered milliseconds depend on which intervals there are, not on their order or repetition. |
| Kappa.BuildConfusionMatrix | packages/evaluation-core/src/proofstep_core/calibration.py:405-422 | The matrix counts every pair once, over the declared labels followed by the remaining observed ones in sorted order. |
| Kappa.CohensKappa | packages/evaluation-core/src/proofstep_core/calibration.py:431-488 | The nested loops, zero rows skipped, compute the defined value, with the three undefined outcomes. |
| KappaScale.LinearByPosition | packages/evaluation-core/src/proofstep_core/calibration.py:491-503 | Under linear weights the penalty of two declared labels is the number of steps between them over the steps of the scale. |
| KappaScale.QuadraticByPosition | packages/evaluation-core/src/proofstep_core/calibration.py:491-503 | Under quadratic weights it is its square. |
| KappaScale.KappaByPosition | packages/evaluation-core/src/proofstep_core/calibration.py:431-503 | On a declared scale a defined kappa is 1 - n observed / crossed, where both count steps, squared steps or mere difference between positions. |
| KappaScale.UnweightedKappa | packages/evaluation-core/src/proofstep_core/calibration.py:431-503 | Without weights the same with mere difference, scale or not. |
| KappaScale.LabelsOf | packages/evaluation-core/src/proofstep_core/calibration.py:412-422 | The labels are the declared ones in their order, then the other observed ones, sorted, each once. |
| Labels.StringLeMeans | packages/evaluation-core/src/proofstep_core/calibration.py:414 | Strings sort by the first code point that differs, a prefix first. |
| KappaSums.TotalsAreCounts | packages/evaluation-core/src/proofstep_core/calibration.py:147-151 | Row and column totals are how often each rater used the label. |
| KappaSums.ObservedIsMatched | packages/evaluation-core/src/proofstep_core/calibration.py:469-479 | n times the observed agreement is the summed weight of the pairs. |
| KappaSums.ExpectedIsCrossed | packages/evaluation-core/src/proofstep_core/calibration.py:469-479 | n squared times the expected agreement is the summed weight of every human label against every judge label. |
| Agreement.SquaresAtMostTwice | packages/evaluation-core/src/proofstep_core/calibration.py:431-488 | Observed squared disagreement is at most twice chance, for any numeric reading of the labels. |
| Agreement.CutsAtMostTwice | packages/evaluation-core/src/proofstep_core/calibration.py:431-488 | So is any count of differing cuts, which covers linear and unweighted penalties. |
| Agreement.ChanceDisagreementFloor | packages/evaluation-core/src/proofstep_core/calibration.py:481-488 | Unless both raters used one common label, chance disagreement is at least n times the least penalty. |
| KappaBounds.PenaltyTwice | packages/evaluation-core/src/proofstep_core/calibration.py:491-503 | 1 - observed is at most 2 (1 - expected) under all three weightings. |
| KappaBounds.KappaInRange | packages/evaluation-core/src/proofstep_core/calibration.py:431-503 | With distinct declared labels a defined kappa lies in [-1, 1], and is 1 exactly when every pair agrees. |
| KappaBounds.UndefinedIffOneLabel | packages/evaluation-core/src/proofstep_core/calibration.py:481-488 | While n times the penalty scale of the labels in use (1, span or span^2) is below 10^9, kappa is undefined exactly when both raters used one common label. |
| KappaBounds.GuardOfMatrix | packages/evaluation-core/src/proofstep_core/calibration.py:481-488 | At any size the guard fires exactly when the crossed penalty is within its tolerance. |
| KappaEdges.ConstantJudgeScoresZero | packages/evaluation-core/src/proofstep_core/calibration.py:431-503 | A judge that always gives one label gets kappa 0 under any weighting whenever kappa is defined. |
| KappaEdges.ConstantJudgeIsCaught | packages/evaluation-core/src/proofstep_core/calibration.py:431-503 | Against humans who use any other label, below the tolerance, it is defined and 0. |
| KappaEdges.GuardExactIff | packages/evaluation-core/src/proofstep_core/calibration.py:481-488 | On a declared scale the guard fires for exactly the one-label ratings among all n-pair ratings if and only if n times the penalty scale is below 10^9 or the scale has fewer than two labels. |
| KappaEdges.GuardExactUnordered | packages/evaluation-core/src/proofstep_core/calibration.py:481-488 | Without a declared scale, if and only if there are fewer than 10^9 ratings. |
| KappaEdges.RepeatedLabelExceedsOne | packages/evaluation-core/src/proofstep_core/calibration.py:431-503 | With a repeated declared label two raters who never agree score above 1. |
| KappaEdges.InRangeIffOrderDistinct | infra/migrations/versions/e19603a5b060_evaluator_calibrations.py:62-65 | Every defined kappa meets the column's [-1, 1] check if and only if the declared order repeats no label. |
| Breakdown.RatesAreShares | packages/evaluation-core/src/proofstep_core/calibration.py:506-533 | The false-pass rate is the share of the pairs the human failed that the judge passed, the false-fail rate the reverse, each absent exactly where that side is empty. |
| Breakdown.RatesAccountForCrossings | packages/evaluation-core/src/proofstep_core/calibration.py:506-533 | Weighted by their denominators the two rates count the pairs judged the other way, at most the disagreements. |
| Breakdown.TopConfusion | packages/evaluation-core/src/proofstep_core/calibration.py:543-546 | The most frequent substitution, smallest label on ties; absent exactly when there is none. |
| Breakdown.PerClassBreakdown | packages/evaluation-core/src/proofstep_core/calibration.py:536-561 | One entry per label in matrix order with support, recall, precision and top confusion. |
| Breakdown.BreakdownAddsUp | packages/evaluation-core/src/proofstep_core/calibration.py:536-561 | Supports add up to the pairs; support-weighted recall and prediction-weighted precision both add up to the matches. |
| Recheck.SortedRows | packages/evaluation-core/src/proofstep_core/calibration_runner.py:332-335 | The stored rows list the matrix, each cell once, sorted by labels. |
| Recheck.ListedInOrder | packages/evaluation-core/src/proofstep_core/calibration_runner.py:332-335 | That order is by the label of the human, then by that of the judge. |
| Recheck.ListingIsUnique | packages/evaluation-core/src/proofstep_core/calibration_runner.py:332-335 | A matrix has only one such listing. |
| Recheck.ReportToDict | packages/evaluation-core/src/proofstep_core/calibration_runner.py:303-361 | What is written lists the matrix that way and reads back as the report. |
| Recheck.RoundTrip | packages/evaluation-core/src/proofstep_core/calibration_runner.py:303-455 | Reading what was written gives the report back, confusion map included. |
| Recheck.RecordsMatch | packages/evaluation-core/src/proofstep_core/calibration_runner.py:303-455 | Two records are equal if and only if their reports are. |
| Degraded.MissingFieldsHideIff | packages/evaluation-core/src/proofstep_core/calibration_runner.py:384-455 | Where a record with fields missing meets a requirement, every report it may stem from meets it if and only if what the requirement asks about errored examples, class sizes, both error rates and order effects is recorded. |
| Recheck.CheckRequirement | packages/evaluation-core/src/proofstep_core/calibration.py:279-399 | Lists each failure that holds exactly once and no other, likewise the warnings; satisfied exactly when nothing fails. |
| Recheck.Recheck | packages/evaluation-core/src/proofstep_core/calibration_runner.py:384-396 | Checking stored evidence gives what checking the fresh report gives. |
| Recheck.TighteningKeepsFailures | packages/evaluation-core/src/proofstep_core/calibration.py:252-270 | Tightening any components keeps every failure, so it never satisfies what was unsatisfied. |
| Recheck.TighterIff | packages/evaluation-core/src/proofstep_core/calibration.py:279-399 | Everything one requirement accepts another accepts if and only if it is at least as strict in every component. |
| McNemar.CombIsFactorialQuotient | packages/evaluation-core/src/proofstep_core/significance.py:280 | Pascal's rule computes n! / (k! (n - k)!). |
| McNemar.WaysCountsOutcomes | packages/evaluation-core/src/proofstep_core/significance.py:277-281 | The binomial sum counts the coin sequences of length n with at most k heads. |
| McNemar.McNemarIsShareOfOutcomes | packages/evaluation-core/src/proofstep_core/significance.py:260-288 | The 'less' value is the share of equally likely outcomes with at most the observed improvements. |
| McNemar.McNemarRaisesIff | packages/evaluation-core/src/proofstep_core/significance.py:260-288 | Every alternative raises exactly from 1024 discordant pairs on, and else gives a value in (0, 1]. |
| McNemar.McNemarMirror | packages/evaluation-core/src/proofstep_core/significance.py:260-288 | 'less' on (r, i) is 'greater' on (i, r); the two-sided value is symmetric. |
| McNemar.McNemarOneSidedSum | packages/evaluation-core/src/proofstep_core/significance.py:260-288 | The two one-sided values sum to 1 + C(r+i, i) / 2^(r+i). |
| McNemar.McNemarMoreRegressions | packages/evaluation-core/src/proofstep_core/significance.py:260-288 | One more regression strictly lowers the 'less' value. |
| McNemar.McNemarMoreImprovements | packages/evaluation-core/src/proofstep_core/significance.py:260-288 | One more improvement never lowers it, and raises it unless nothing regressed. |
| McNemar.McNemarTwoSided | packages/evaluation-core/src/proofstep_core/significance.py:283-288 | The two-sided value is twice the smaller of the one-sided ones, up to 1. |
| McNemar.McNemarTwoSidedCap | packages/evaluation-core/src/proofstep_core/significance.py:288 | The two-sided cap at 1 binds exactly when the counts are equal. |
| Wilson.WilsonInvertsScoreTest | packages/evaluation-core/src/proofstep_core/stats.py:87-101 | The interval is exactly the set of proportions the score test does not reject, and its clamps never bind. |
| Wilson.WilsonContainsShare | packages/evaluation-core/src/proofstep_core/stats.py:87-101 | The interval contains successes / total and lies in [0, 1]. |
| Wilson.NoTrials | packages/evaluation-core/src/proofstep_core/stats.py:87-101 | Without trials the interval is all of [0, 1]. |
| Bootstrap.PairedBootstrap | packages/evaluation-core/src/proofstep_core/significance.py:207-257 | Mean, percentile ends at in-bounds indices of the sorted means, and p-value, for any draws; no value exactly for an empty sample or no iterations. |
| Bootstrap.PercentileIndices | packages/evaluation-core/src/proofstep_core/significance.py:243-245 | The two indices are one below the floor of a tail and one below the ceiling of the rest, in bounds and ordered, and leave at most their tail outside. |
| Bootstrap.BootstrapSound | packages/evaluation-core/src/proofstep_core/significance.py:207-257 | For any draws the interval is ordered, inside the range of the differences, holds at least `confidence` of the means, and p is in (0, 1]. |
| Bootstrap.BootstrapLeans | packages/evaluation-core/src/proofstep_core/significance.py:247-257 | For any draws: if every difference is negative the p-value of "worse" is 1 / (iterations + 1), if none is, 1. |
| Significance.Analyse | packages/evaluation-core/src/proofstep_core/significance.py:323-387 | Raises exactly where at least 1024 binary verdicts changed; else which test runs, on how many pairs that went from 1 to 0 and from 0 to 1, when a p-value exists, that it is then in (0, 1], and every reported field. |
| Significance.ExactTestLeans | packages/evaluation-core/src/proofstep_core/significance.py:355-366 | With k changed verdicts, all regressions, the reported p is 1 / 2^k; all improvements, or none changed, 1. |
| Significance.BootstrapTestLeans | packages/evaluation-core/src/proofstep_core/significance.py:373-387 | Where the bootstrap runs: 1 / (iterations + 1) if every example got worse, 1 if none did. |
| Pairing.ScoreByExample | packages/evaluation-core/src/proofstep_core/significance.py:147-166 | Each example has its last reading of the metric: a value, or 1 and 0 for a bare verdict, none for an errored score. |
| Pairing.Pair | packages/evaluation-core/src/proofstep_core/significance.py:169-194 | Exactly the examples read on both sides are paired, once each, in id order; every other example is counted once by why it was left out. |
| Pairing.PairMirrors | packages/evaluation-core/src/proofstep_core/significance.py:169-194 | Comparing the other way round pairs the same examples and negates every difference. |
| Pairing.ErroredReadsNothing | packages/evaluation-core/src/proofstep_core/significance.py:147-166 | Errored scores change no reading. |
| Comparison.AnalyseAll | packages/evaluation-core/src/proofstep_core/significance.py:438-459 | Raises exactly when the test of some metric does; else each metric has the Holm-corrected test of its paired examples. |
| Comparison.TestLeans | packages/evaluation-core/src/proofstep_core/significance.py:323-387 | If every example read in both runs reads lower in the candidate, the raw p of a test that ran is the least it can be, 1 / 2^n for n verdicts and 1 / (resamples + 1) otherwise; if none does, it is 1. |
| Holm.HolmAdjust | packages/evaluation-core/src/proofstep_core/significance.py:390-435 | For any list of tests each result gets the order-free adjusted value of the largest p-value under its metric name, and a metric without a p-value is left alone; with distinct names that is its own p-value. |
| Holm.RunningIsAdjusted | packages/evaluation-core/src/proofstep_core/significance.py:411-417 | The running maximum at a position is the largest capped product over the p-values up to it. |
| Holm.AdjustedAtMostIff | packages/evaluation-core/src/proofstep_core/significance.py:411-417 | An adjusted value is at most alpha exactly when every step-down bound up to it is. |
| Holm.CorrectionOrderFree | packages/evaluation-core/src/proofstep_core/significance.py:390-435 | The same tests in any order, ties included, get the same results. |
| Holm.AdjustedBounds | packages/evaluation-core/src/proofstep_core/significance.py:390-435 | Adjusting keeps order, never goes below min(1, p), and never exceeds Bonferroni. |
| Holm.HolmControlsFamily | packages/evaluation-core/src/proofstep_core/significance.py:390-435 | For any family T of metrics with p-values: if a member gets adjusted p at most alpha < 1, some member of T has raw p at most alpha over the size of T. |
| Holm.ZeroBecomesOne | packages/evaluation-core/src/proofstep_core/significance.py:410-413 | A p-value of 0 is adjusted to 1. |
| Holm.TextbookIffNoZero | packages/evaluation-core/src/proofstep_core/significance.py:405-413 | The result is textbook Holm if and only if no p-value is 0. |
| Holm.AnalysedIsTextbook | packages/evaluation-core/src/proofstep_core/significance.py:405-413 | On p-values in (0, 1], which is all the tests report, the fallback is never taken. |
| Journal.LoadJournal | packages/evaluation-core/src/proofstep_core/runner.py:469-482 | Raises exactly when the file does not decode; else the loop over lines loads the dictionary that keeps first places and takes new values. |
| Journal.NeverDecodesAgain | packages/evaluation-core/src/proofstep_core/runner.py:469-482 | Appending never makes a file readable again. |
| Journal.LoadTakesLast | packages/evaluation-core/src/proofstep_core/runner.py:469-482 | What the lines of a readable file load is exactly the last parsable record of each example; torn, blank and run-together lines are skipped. |
| Journal.PutKeepsPlaces | packages/evaluation-core/src/proofstep_core/runner.py:469-482 | A new example is loaded after the others; a later record of a known one takes its place. |
| Journal.FaithfulTorn | packages/evaluation-core/src/proofstep_core/runner.py:455-482 | Whatever prefix of a write survives a kill, cut inside a character or not, the lines that parse still hold only true records. |
| Journal.EntryRecoverableIff | packages/evaluation-core/src/proofstep_core/runner.py:455-461 | An appended record can be read back exactly when the file decoded and ended in a whole line. |
| WorkerPool.Conserved | packages/evaluation-core/src/proofstep_core/runner.py:166-201 | In every schedule each pending example is queued, running, done or refused, exactly once, and a refusal happens only with an abort. |
| WorkerPool.FinishedRun | packages/evaluation-core/src/proofstep_core/runner.py:166-202 | Without an abort every pending example has one result; with one at least one has none. |
| WorkerPool.TakenInOrder | packages/evaluation-core/src/proofstep_core/runner.py:160-177 | In every schedule examples are taken in the order they were pending. |
| WorkerPool.StartsUnderCap | packages/evaluation-core/src/proofstep_core/runner.py:174-184 | A worker starts an example only below the cap and before the stop. |
| WorkerPool.AbortMeansSpent | packages/evaluation-core/src/proofstep_core/runner.py:437-443 | In every schedule, with costs that are not negative, the budget aborts only once the judge cost of the results that ran has reached the cap. |
| WorkerPool.NoStartOnceSpent | packages/evaluation-core/src/proofstep_core/runner.py:174-184 | In every schedule no example starts after the cap is reached. |
| WorkerPool.SpendIsCostOfResults | packages/evaluation-core/src/proofstep_core/runner.py:301-304 | What is spent is exactly the judge cost of the results so far. |
| WorkerPool.SpendWithinCap | packages/evaluation-core/src/proofstep_core/runner.py:166-201 | At every point spend plus what running workers may yet spend stays within the cap plus one example per worker. |
| WorkerPool.OverspendBounded | packages/evaluation-core/src/proofstep_core/runner.py:166-201 | Final spend is at most the cap plus W times the largest single-example cost. |
| WorkerPool.SchedulesEnd | packages/evaluation-core/src/proofstep_core/runner.py:173-199 | No schedule is longer than two events an example plus one a worker. |
| WorkerPool.NotStuck | packages/evaluation-core/src/proofstep_core/runner.py:173-199 | Until every worker is done some event is enabled. |
| WorkerPool.NoCapNoAbort | packages/evaluation-core/src/proofstep_core/runner.py:437-443 | Without a cap no schedule aborts. |
| WorkerPool.Pool.Run | packages/evaluation-core/src/proofstep_core/runner.py:173-199 | The running pool, its next worker chosen arbitrarily, realises some schedule to the end. |
| Sessions.JournalIsProduced | packages/evaluation-core/src/proofstep_core/runner.py:455-461 | In every schedule the journal is the starting file and one entry for each result, in completion order. |
| Sessions.CrashLeavesFaithful | packages/evaluation-core/src/proofstep_core/runner.py:446-482 | Killed anywhere in any schedule, mid-write included, a run leaves a file of true records. |
| Sessions.ChainFaithful | packages/evaluation-core/src/proofstep_core/runner.py:140-165 | So does any chain of resumed and killed runs. |
| Sessions.ChainDecodesIff | packages/evaluation-core/src/proofstep_core/runner.py:446-482 | The file a chain of sessions leaves can be read exactly while no session was killed inside a character. |
| Sessions.NothingLostIffWhole | packages/evaluation-core/src/proofstep_core/runner.py:446-482 | Every result of a run can be read back exactly when its starting file decoded and ended in a whole line; then nothing older is lost either. |
| Sessions.TailSurvivesIff | packages/evaluation-core/src/proofstep_core/runner.py:446-482 | An older record survives the next append exactly when its own line was finished. |
| Runner.SortedIsReport | packages/evaluation-core/src/proofstep_core/runner.py:211-214 | In whatever order workers finish, sorting gives one result per example in dataset order, then results for ids the dataset lacks. |
| Runner.ResumeIsUninterrupted | packages/evaluation-core/src/proofstep_core/runner.py:140-214 | Resuming from the true records a file holds gives, traces aside, the uninterrupted report. |
| Runner.CrashesDoNotShow | packages/evaluation-core/src/proofstep_core/runner.py:140-214 | After any chain of killed runs, resuming raises if and only if some kill fell inside a character, and otherwise an uncapped run that finishes reports, traces aside, what one uninterrupted run reports. |
| Runner.KillInsideCharacter | packages/evaluation-core/src/proofstep_core/runner.py:446-482 | Such a kill is possible for every dataset that is not empty. |
| Runner.CutInsideCharacterStays | packages/evaluation-core/src/proofstep_core/runner.py:446-482 | After one, every later session raises and leaves the file as it is. |
| Runner.CheckErrorCeiling | packages/evaluation-core/src/proofstep_core/runner.py:253-263 | The loop aborts a run exactly above the failed-example share. |
| Runner.RunExamples | packages/evaluation-core/src/proofstep_core/runner.py:133-214 | Raises exactly on an unreadable journal; else some schedule runs to the end and the sorted results have no id twice, are the whole report without a budget abort and lack an example with one. |
| Runner.AbortMeansCostly | packages/evaluation-core/src/proofstep_core/runner.py:133-214 | So a run whose remaining examples cost less than the cap is never aborted by its budget. |
| Invoke.Run | packages/evaluation-core/src/proofstep_core/runner.py:309-353 | The first attempt that is not a transport failure, or the last allowed; its status, output and retry count; at most retries + 1 calls. |
| Gates.PassIffAcceptable | packages/evaluation-core/src/proofstep_core/gates.py:220-337 | A rule passes exactly when its metric exists, was measured, is trustworthy, in bounds, and unregressed or excused. |
| Gates.FailIffViolated | packages/evaluation-core/src/proofstep_core/gates.py:220-383 | A rule fails, rather than errors, exactly on a measured value beyond a threshold that nothing excuses. |
| Gates.RaisesIff | packages/evaluation-core/src/proofstep_core/gates.py:488-541 | Applying a rule raises exactly when it reaches the noise message with a test that has no p-value. |
| Gates.TooFewPairsRaises | packages/evaluation-core/src/proofstep_core/gates.py:523-541 | A regression on too few shared examples under a significance rule raises. |
| Gates.Combine | packages/evaluation-core/src/proofstep_core/gates.py:409-426 | The loop returns the worst contribution. |
| Gates.WorstIsUnique | packages/evaluation-core/src/proofstep_core/gates.py:409-426 | The combined verdict does not depend on order or repetition. |
| Gates.WorstNeverImproves | packages/evaluation-core/src/proofstep_core/gates.py:409-426 | Adding results never improves it. |
| Gates.ZeroIffNoBlocker | packages/evaluation-core/src/proofstep_core/gates.py:53-59 | Exit code 0 exactly when no blocking result fails or errs, 2 exactly when one errs; the verdict is a plain pass exactly when no result at all fails or errs. |
| Gates.CalibrationResults | packages/evaluation-core/src/proofstep_core/gates.py:109-206 | One result per gated judge metric in sorted order, by the state of its calibration. |
| Gates.EvaluateGates | packages/evaluation-core/src/proofstep_core/gates.py:62-106 | Raises exactly when some rule does; otherwise each rule has its result in place, passed exactly where it is acceptable and failed exactly where it is violated, and exit code 0 means exactly that every blocking rule is acceptable, enforced calibrations are trusted and required datasets match. |
| MergeDecision.SignificantFailureIsControlled | packages/evaluation-core/src/proofstep_core/gates.py:505-526 | In a run, a gate with significance alpha fails on an absolute regression only if, in any family T of tested metrics that holds its own, the paired test of some member has a raw p of at most alpha over the size of T. |
| MergeDecision.Conclude | packages/evaluation-core/src/proofstep_core/runner.py:216-263 | From the results: raises exactly when a wanted test overflows or a gate message cannot be formatted; else exit code 0 exactly when not aborted by budget, failed share within the ceiling, and the gates clear on the aggregated metrics and the tests against the baseline run. |
| MergeDecision.WantedAre | packages/evaluation-core/src/proofstep_core/runner.py:233-236 | The metrics tested are those of the rules that set a significance level or ask for power. |
| MergeDecision.GatesSeeScores | packages/evaluation-core/src/proofstep_core/runner.py:216-248 | Under a key no corpus evaluator reports, the gates see the mean, count and error count of exactly the scores in that bucket. |
| MergeDecision.ClearUpholds | packages/evaluation-core/src/proofstep_core/gates.py:220-383 | With the gates clear, every blocking rule on an evaluator's metric holds of the scores: some value, errored share and mean within bounds, and a drop beyond the threshold only where the paired test ran and its p-value times the number of tested metrics exceeds alpha. |
| MergeDecision.RunSuite | packages/evaluation-core/src/proofstep_core/runner.py:104-250 | The whole run: when it raises, when its exit code is 0, that its budget stops it only if the examples left to run cost the cap or more, and that with exit code 0 every example of the dataset has its result in dataset order, the failed share is within the ceiling and the scores uphold every blocking rule. |
| Aggregate.AggregateScores | packages/evaluation-core/src/proofstep_core/aggregate.py:29-75 | The nested loops give one metric per bucket with a value or an error: mean, count and error count of exactly the scores that fall in it. |
| Aggregate.FallsWhere | packages/evaluation-core/src/proofstep_core/aggregate.py:106-120 | A score falls in its own slice and in that slice refined by each dimension, read from the metadata and only where they lack it from the expected output. |
| Recombine.Recombines | packages/evaluation-core/src/proofstep_core/aggregate.py:46-55 | Any additive statistic of the unsliced metric is the sum over a dimension's slices and the results lacking it, where no counted score's own slice is that dimension. |
| Recombine.CountsRecombineIff | packages/evaluation-core/src/proofstep_core/aggregate.py:46-55 | For counts and error counts, exactly then. |
| Recombine.MetricsRecombine | packages/evaluation-core/src/proofstep_core/aggregate.py:29-75 | For scores without own slices, count, error count and count-weighted mean are recombined exactly. |
| Recombine.ErroredScoresMoveNothing | packages/evaluation-core/src/proofstep_core/aggregate.py:50-55 | Errored scores, however many, move no metric's values, count or mean. |
| Sampling.EscalationBudget.Take | packages/evaluation-core/src/proofstep_core/sampling.py:137-145 | Succeeds exactly while the limit is not reached and then spends one. |
| Sampling.Decide | packages/evaluation-core/src/proofstep_core/sampling.py:148-187 | The decision by its branches; only a failure the sample missed touches the budget. |
| Sampling.DecideBatch | packages/evaluation-core/src/proofstep_core/sampling.py:148-187 | Over a batch each decision depends on the others only through the eligible traces before it. |
| Sampling.EscalatedExactly | packages/evaluation-core/src/proofstep_core/sampling.py:148-187 | Escalations are exactly min(limit, eligible), the rest of the eligible are capped, and paid decisions are those plus forced and sampled ones. |
| Sampling.FirstEligibleEscalate | packages/evaluation-core/src/proofstep_core/sampling.py:137-187 | The first `limit` eligible traces escalate; after one is capped none does. |
| Sampling.PaidOrderFree | packages/evaluation-core/src/proofstep_core/sampling.py:148-187 | What a batch pays for does not depend on arrival order. |
| Sampling.MonotoneInRate | packages/evaluation-core/src/proofstep_core/sampling.py:174-187 | Raising the rate keeps every sampled trace, escalates no more, and never pays less. |
| Sampling.AgreesWithIsSampled | packages/evaluation-core/src/proofstep_core/sampling.py:80-91 | The decision samples exactly the traces is_sampled names. |
| Exporter.NothingVanishes | packages/python-sdk/src/proofstep/exporter.py:84-106 | In every interleaving each submitted trace is in exactly one of: a caller's hand, queue, batch, posted, spooled, lost, counted as dropped. |
| Exporter.OrderAndCounters | packages/python-sdk/src/proofstep/exporter.py:84-193 | In every interleaving the queue is bounded and the end of what was enqueued, posted traces are a subsequence of enqueue order, and the counters match. |
| Exporter.CountersOfRuns | packages/python-sdk/src/proofstep/exporter.py:164-193 | In every schedule the failure counter is the number of failed attempts and the spool counter the number of spooled batches. |
| Exporter.SubmitNeverWaits | packages/python-sdk/src/proofstep/exporter.py:84-106 | Each operation of a submit brings it nearer its return, whatever others do. |
| Exporter.NothingLost | packages/python-sdk/src/proofstep/exporter.py:164-193 | With a spool, at least one attempt, no refusal and no shutdown, nothing is lost uncounted. |
| Progress.HeldIsNotDue | packages/python-sdk/src/proofstep/exporter.py:150-155 | In every schedule, a worker that goes on polling with traces in its batch was not due when it last decided and holds fewer spans than a batch; one that goes on to send was due or holds that many. |
| Progress.MarksWhenEmpty | packages/python-sdk/src/proofstep/exporter.py:157-158 | In every schedule the worker goes on to set the flag only with an empty batch, having seen an empty queue. |
| Progress.SpansAddUp | packages/python-sdk/src/proofstep/exporter.py:151 | The size of a batch is the sum of the span counts of its traces. |
| Progress.EverythingGetsPosted | packages/python-sdk/src/proofstep/exporter.py:135-162 | From any state a schedule reaches short of a shutdown, with no further calls and clock, encoder and server in favour, at most 5 steps a queued trace and 7 more post everything queued or batched, in order, and set the idle flag. |
| Progress.ShutdownEnds | packages/python-sdk/src/proofstep/exporter.py:135-162 | Once told to stop, in any schedule and whatever the network does, eight steps of the worker end it. |
| Flush.FlagHonestIff | packages/python-sdk/src/proofstep/exporter.py:109-121 | From any state with the flag just set: until a submit clears it, flush answers True only with an empty batch, whatever falls between its two looks, if and only if the worker is stopping, or nothing is queued and no submit is about to put. |
| Flush.MarkHonestIff | packages/python-sdk/src/proofstep/exporter.py:157-158 | The same of every setting of the flag in every schedule. |
| Flush.FlushHonestWhenCalm | packages/python-sdk/src/proofstep/exporter.py:109-121 | In a schedule where each setting of the flag meets that condition, the flag is set only with an empty batch. |
| Flush.FlushAccounts | packages/python-sdk/src/proofstep/exporter.py:109-121 | Then, once flush answers True with no submit in flight, every submitted trace is posted, spooled, dropped or lost. |
| Flush.FlushCanLie | packages/python-sdk/src/proofstep/exporter.py:109-121 | One caller suffices: its submit has returned, flush answers True, and its trace is unsent. |
| ExporterLoop.Buffer.Advance | packages/python-sdk/src/proofstep/exporter.py:84-106 | The running call does one transition of a producer. |
| ExporterLoop.Buffer.Work | packages/python-sdk/src/proofstep/exporter.py:135-162 | The running worker does one transition. |
| ExporterLoop.Buffer.Submit | packages/python-sdk/src/proofstep/exporter.py:84-106 | Uninterrupted, a submit enqueues the newest trace and drops the oldest only from a full queue. |
| ExporterLoop.Buffer.SendBatch | packages/python-sdk/src/proofstep/exporter.py:164-193 | The batch is posted, spooled or lost by exact conditions on the attempts, on when the stop flag is set, and on the spool. |

## Left out

- Floating-point rounding: all arithmetic is exact, so nothing is said about sums, means and p-values near a threshold or underflowing to zero.
- Timestamp parsing and invalid dates: spans carry integer milliseconds; the clock of an empty trace is a parameter.
- String collation, SHA-256, the random generator, square roots and inverse-normal tables: an arbitrary total order, an arbitrary function into [0, 1), arbitrary index draws, a root given by its square, and a given z.
- `percentile`, `bootstrap_ci`, `delta_ci`, `stddev`: they would only add easy members.
- `minimum_detectable_effect` beyond its guard, the bootstrap and Pearson parts of the calibration report, `expected_paid_calls`: numeric estimates no decision above depends on.
- Message texts, notes, rendering, YAML, pydantic validation and the judge: no property depends on them.
- Aggregate.AggregateScores: the sorted order of the list, and the deviation and interval fields, are not modelled.
- Recheck.RoundTrip: numbers stored as strings and other type coercions are not modelled; a field is present with its type or missing.
- Runner.CrashesDoNotShow: the sessions of a chain share one journal file; retries, timeouts and evaluators inside one example are part of its result, and the latency field is taken as part of a deterministic result.
- Sessions.ChainFaithful: a torn record is either cut between characters or inside one; which bytes are left, and bytes damaged by other means than a kill, are not modelled.
- MergeDecision.RunSuite: the metrics of corpus evaluators and the numeric estimates behind power and resampling are given; cancellation, which propagates to the caller, and the reading of suites and baselines are left out.
- WorkerPool.OverspendBounded: needs non-negative costs, as the source's prices are.
- Exporter: the answer flush gives when no worker is running, restart after shutdown, the wake-up sentinel, gzip and sockets; a post that fails after the server took it counts as failed, and a post answered with a 4xx counts as posted, as the code's counter does.
- Gates: rules and metrics enter as values; the reading of suites and reports, and the corpus evaluators, are not part of this model.
- The web application, the API, the database, the trajectory engine, redaction, paths and the review queue.
