# Promxy in Dafny

Promxy makes many Prometheus servers look like one. This project models the parts of it that have a short meaning and an
implementation with real state, branching or arithmetic, and proves that the implementation has that meaning.

- **Merging replicas.** `AntiAffinityMerge` holds the one-pass, two-index merge of two sample streams, with its prefer-max
  mode. Its meaning is the predicate `AntiAffinity`: in strict time order, every sample of the longer side and exactly those
  of the other side that are more than the buffer away from all of them. At most one stream satisfies it. `StreamMerge` adds
  the buffer estimated from the median gap (sorting is in `Sorting`), `ReplicaFold` the fold over any number of replicas.
- **Query pushdown.** `Labels` and `PromQL` are a small PromQL: label maps, matchers, element-wise inner expressions,
  by/without grouping, aggregates and division. `Pushdown`, `TopK` and `ComparisonPushdown` prove that partial results,
  labelled and aggregated again, equal one evaluation over every labelled series, and `Averages` how an average is taken
  apart. `ServerGroups` adds promxy's merge of what the groups answer, and shows that the groups must be told apart by
  their labels. `NodeReplacer` is the rewriting of an aggregate node in place; `RangePushdown` says at which steps of a
  range it is right. `StaleFill` is the filling of the step grid with stale markers and the lookup the engine makes
  afterwards, `CallPushdown` the replacement of a call.
- **Scatter and gather.** `Quorum` counts answers per bucket, one arrival at a time; `ScatterGather` runs whole calls, for
  any arrival order and stacked two levels deep; `MergedAnswers` shows that what a successful call returns does not depend
  on that order; `MetadataRotation` is the call that asks one member of each group.
- **Requests.** `Relabel` rewrites matchers through a relabel chain, `Labels` strips the matchers on a group's own labels,
  `LabelFilter` is the fast filter check and `TimeFilter` the truncation of range queries.
- **Text exposition.** `Exposition` is the text of a federation response together with a decoder that is proved to undo it;
  `Encoder` writes it, and decides where TYPE lines go.

Timestamps and durations are `int` milliseconds and sample values are `real`. Every input stream has strictly increasing
timestamps and the configured buffer is at least 0. A label that a series does not carry has the empty value. Regular
expressions are a parameter; all that is used of them is what `.+` matches (`Labels.Sound`) and that a template without `$`
stands for itself (`Relabel.Reliable`).
Answers of servers, arrival orders, clocks and rendered numbers are parameters.

Some facts differ from what a reader might expect, and the model follows the code:

- Pushing a literal comparison under max, min, topk or bottomk is right exactly for the comparisons in the operator's own
  direction (`ComparisonPushdown.ComparisonExact`, `ComparisonPushdown.SelectionExact`), and there are servers on which
  any other one goes wrong. The code pushes every such comparison down (pkg/proxystorage/proxy.go:1103-1147).
- Pushing a sum down is right for all series exactly when any two server groups differ in a label they add
  (`ServerGroups.ToldApartExact`): partial sums that come under the same labels are merged, not added
  (pkg/promclient/merge_seriesset.go:176-190).
- A pushed-down aggregate over a range is not filled with stale markers (pkg/proxystorage/proxy.go:855-864). At a step, what
  the engine aggregates is what the servers gave for it if and only if every fetched series has a sample there or none in
  the lookback window before it (`RangePushdown.StepSeen`); a count is wrong at every other step, for every grouping
  (`RangePushdown.CountOverRangeExact`). With a lookback of at most one step there is no such step.
- A pushdown that is abandoned because a native histogram came back leaves the node without its offset: the offsets are
  removed before the request (pkg/promclient/util.go:93-99) and not put back (pkg/proxystorage/proxy.go:711-713, 917-919).
  The node then means the same exactly when it is pinned by @ or had no offset (`CallPushdown.ReplaceCall`,
  `NodeReplacer.AbandonExact`).
- `avg by (__name__, ..)` is taken apart with the name carried in the label `__name`; this gives the average for all series
  exactly when a `by` grouping does not itself name `__name`, or a `without` grouping does (`Averages.NamedAverageExact`).
- A labeldrop's source label is a pattern for label names when series are relabelled
  (pkg/promclient/metric_relabel.go:57-65), while RewriteMatchers compares names (pkg/promclient/metric_relabel.go:474). So
  the rewrite is not sound for every configuration that is accepted: `Relabel.RewriteSoundExact` and
  `Relabel.RewriteExactCondition` say, for one matcher, exactly when it is sound and when it is exact,
  `Relabel.RewriteAllSoundExact` and `Relabel.RewriteAllExactCondition` for a list, and `Relabel.PatternDropsAnother` and
  `Relabel.PatternMissesItself` give inputs on which it fails. When every dropped name, read as a pattern, matches itself and
  nothing else, it is sound, and exact unless a matcher accepts the empty value on a dropped label (`Relabel.RewriteSound`,
  `Relabel.RewriteExact`).
- A replace target is a template, of which only `${` is refused (pkg/promclient/metric_relabel.go:152). Rewriting agrees with
  a single copy exactly when its target is the same label whatever the value (`Relabel.TargetExact`,
  `Relabel.TargetIsExpanded`); the results on chains are for such targets.
- The fill asks for a buffer of negative capacity, and crashes, exactly when there is a series and the window runs backwards
  by two steps or more (`StaleFill.NegativeSteps`, `StaleFill.FillDetect`). A window from a range query or from a subquery in
  it never does (`CallPushdown.SubqueryWindow`); a subquery inside a subquery can get such a window
  (`CallPushdown.NestedSubqueryWindow`), but only a server that answers ranges whose end is before their start could return
  a series for it, and Prometheus rejects them.
- Truncating a range query that overlaps its window but has no step point in it sends a range whose end is before its start
  (`TimeFilter.QueryRange` says exactly when). The model reads that as no points; Prometheus answers it with an error.
- A call on buckets that NewMultiAPI would reject gives an empty success when nobody fails, since wrapping no error is no
  error (`ScatterGather.ScatterMerge`).

## Model

| member | source | states |
|---|---|---|
| AntiAffinityMerge.WeaveIsAntiAffinity | pkg/promhttputil/merge.go:137-243 | for all increasing streams and every buffer from 0 up, the woven stream is, in strict time order, every base sample plus exactly the other side's samples that are farther than the buffer from every base sample |
| AntiAffinityMerge.AntiAffinityUnique | pkg/promhttputil/merge.go:137-243 | that law fixes the output: two streams that obey it for the same inputs are equal |
| AntiAffinityMerge.MergeHistograms | pkg/promhttputil/merge.go:250-312 | the histogram merge, with its forward-only cursor, obeys the law with the longer side (the first on a tie) as the base |
| AntiAffinityMerge.LeadIn | pkg/promhttputil/merge.go:155-167 | the opening loop copies exactly the samples before the buffered start and leaves the cursor past nothing else |
| AntiAffinityMerge.FillGap | pkg/promhttputil/merge.go:170-228 | the gap loop, started from the cursor, still finds every sample that fits between two base samples |
| AntiAffinityMerge.LeadOut | pkg/promhttputil/merge.go:230-236 | the closing loop copies exactly what lies farther than the buffer past the last base sample |
| AntiAffinityMerge.Prefer | pkg/promhttputil/merge.go:196-224 | the scan from lastOffset yields the larger of the base value and the value of the earliest other-side sample at the same time or strictly closer than the buffer; the next start skips only samples too early for any later base sample |
| AntiAffinityMerge.WeaveFloats | pkg/promhttputil/merge.go:155-243 | the float loops obey the law over the base whose values are raised as prefer-max asks, except a base sample that opens the output; without prefer-max over the base itself |
| AntiAffinityMerge.MergeFloats | pkg/promhttputil/merge.go:110-243 | the same for any two sides, empty ones included; the second side is the base exactly when it is longer |
| AntiAffinityMerge.PreferMaxKeepsTimes | pkg/promhttputil/merge.go:170-228 | prefer-max changes no timestamp: the outputs with and without it have the same times |
| AntiAffinityMerge.PreferMaxValue | pkg/promhttputil/merge.go:196-224 | with prefer-max a base sample that does not open the output comes out with the larger of its value and that of the first other-side sample at the same time or strictly closer than the buffer |
| AntiAffinityMerge.PreferMaxAlone | pkg/promhttputil/merge.go:170-228 | with its own value when there is no such sample, or when it opens the output |
| AntiAffinityMerge.PreferMaxRest | pkg/promhttputil/merge.go:155-243 | every other sample of a prefer-max output is an other-side sample that is far from the base |
| AntiAffinityMerge.MergedValues | pkg/promhttputil/merge.go:137-243 | in either mode every value of the output is the value of a sample of one side |
| StreamMerge.AppendGaps | pkg/promhttputil/merge.go:371-378 | appends one gap for each pair of neighbours of an increasing stream, in order |
| StreamMerge.HalfMedianMeaning | pkg/promhttputil/merge.go:347-366 | of at least three gaps the estimate is half of the one in the middle, the upper one of two, of their ascending order; of fewer there is none |
| StreamMerge.DynamicAntiAffinity | pkg/promhttputil/merge.go:347-366 | the halved median of the gaps between neighbours of the first side, joined by those of the second when there are fewer than three |
| StreamMerge.MajorityGap | pkg/promhttputil/merge.go:347-366 | when strictly more than half of at least three gaps equal g, the estimate is g/2 rounded down |
| StreamMerge.BufferNonNegative | pkg/promhttputil/merge.go:104-108 | the buffer a merge uses is never negative, estimated or configured |
| StreamMerge.BufferMeaning | pkg/promhttputil/merge.go:104-108 | the buffer is the configured one without the dynamic mode; with it the estimate from the floats, else from the histograms, else the configured one, each with its longer side first, on a tie the first |
| StreamMerge.DynamicBufferForStream | pkg/promhttputil/merge.go:386-400 | floats give the estimate, histograms only when floats cannot, each with its longer side first |
| StreamMerge.MergeSampleStream | pkg/promhttputil/merge.go:95-243 | fails exactly when the fingerprints differ; otherwise floats and histograms each obey the law with the buffer in force, on their own base |
| StreamMerge.RegularGapStaysWhole | pkg/promhttputil/merge.go:104-108 | with the dynamic buffer, when of at least three pairs of neighbours of the longer float side more than half are g apart: the buffer is g/2 rounded down and no output sample lies strictly inside a base gap of length at most g, g odd or even, prefer-max on or off |
| Sorting.SortSorts | pkg/promhttputil/merge.go:347-366 | sorting gives an ascending permutation for every total order |
| Sorting.SortedUnique | pkg/promclient/multi_api.go:815-826 | an ascending arrangement of a multiset is unique, so the sort algorithm does not matter |
| Sorting.StringLeMeaning | pkg/promclient/multi_api.go:808 | the order of strings: a prefix first, else the smaller character at the first place where they differ |
| ReplicaFold.MergeStep | pkg/promclient/merge_seriesset.go:141-153 | one merge has no fewer samples than its base, keeps every base time and leaves every other-side sample within the buffer of the output |
| ReplicaFold.MergeSpaced | pkg/promclient/merge_seriesset.go:141-153 | one merge creates no gap below the smaller of buffer+1 and the gaps of its inputs |
| ReplicaFold.RepresentsStep | pkg/promclient/merge_seriesset.go:141-153 | one more replica keeps the fold's invariant whichever side is longer |
| ReplicaFold.MergeReplicas | pkg/promclient/merge_seriesset.go:141-153 | the result is a left fold of merges, each with the replicas' prefer-max mode and the buffer its two sides call for; without prefer-max every float sample, and always every histogram sample, is a sample of some replica, and with it every value is the value of some replica's sample; in strict time order, at least as many samples as the longest replica, every replica sample within the sum of the buffers, no gap below the smallest of buffer+1 and the gaps of any replica |
| ReplicaFold.FixedBufferFold | pkg/promclient/merge_seriesset.go:141-153 | with a fixed buffer w and n replicas: within (n-1)*w, and no gap below min(w+1, the smallest gap of any replica) |
| Labels.AddLabels | pkg/promclient/label.go:149-155 | the builder loop gives the series' labels overridden by the group's, without empty values, in whatever order the map is walked |
| Labels.LabelledInjective | pkg/promclient/label.go:149-155 | adding a group's labels keeps series apart that do not carry those labels |
| Labels.LabelledApart | pkg/promclient/label.go:149-155 | groups that differ in a label never show the same series |
| Labels.FilterMatchers | pkg/promclient/filtermatcher.go:57-84 | the loop returns the matchers on other labels, the match-anything-named one when none is left, or nothing when a group label is ruled out |
| Labels.RemainingIndices | pkg/promclient/filtermatcher.go:57-84 | the matchers left are exactly those on other labels, in their order |
| Labels.StrippingExact | pkg/promclient/filtermatcher.go:57-84 | a series passes the stripped matchers exactly when its labelled form passes the original ones (and is named, when none was left); no series does when nothing is asked |
| PromQL.StripEval | pkg/promclient/label.go:158-175 | evaluating an inner expression over the labelled series equals labelling what the group's servers give for the stripped expression |
| PromQL.KeyLabels | pkg/proxystorage/proxy.go:700-713 | by keeps the labels named, without the others except for the metric name |
| PromQL.KeyOfLabelled | pkg/promclient/label.go:149-155 | the group of a labelled series can be found from its group before labelling, for every by/without grouping |
| Pushdown.FoldMeaning | pkg/proxystorage/proxy.go:700-713 | max and min are the largest and smallest value, group is 1, count counts, sum adds |
| Pushdown.FoldConcat | pkg/proxystorage/proxy.go:700-713 | each re-entrant aggregate of two lists together is the merge of its results on each |
| Pushdown.ShardFold | pkg/proxystorage/proxy.go:700-713 | aggregating one server group's labelled partial result again gives the result over its labelled series, group by group |
| Pushdown.PushdownPreserves | pkg/proxystorage/proxy.go:700-796 | for sum, min, max, group and count (counts are summed), every grouping and any number of server groups: aggregating the labelled partial results again equals one aggregation over all labelled series |
| Averages.AverageIsQuotient | pkg/proxystorage/proxy.go:762-781 | for every grouping that does not keep the metric name, dividing the sum by the count, with the engine's matching on labels without the name, succeeds and gives the average |
| Averages.QuotientExact | pkg/proxystorage/proxy.go:718-760 | it does so for all vectors if and only if the grouping does not keep the metric name |
| Averages.NamedAverageIsQuotient | pkg/proxystorage/proxy.go:726-760 | for groupings that name the metric name: dividing sum by count over the copied name, putting the name back and taking the maximum gives the average, in whatever order the quotient is listed |
| Averages.NamedAverageExact | pkg/proxystorage/proxy.go:726-760 | over all vectors that holds if and only if the grouping cannot see the copy |
| TopK.RefillPart | pkg/proxystorage/proxy.go:700-713 | a selection out of a part's own selection and the rest is a selection out of the whole part and the rest |
| TopK.SelectionPreserved | pkg/proxystorage/proxy.go:700-713 | topk and bottomk: every selection from the labelled partial selections is a selection from all labelled series, for every k, grouping and number of server groups |
| ComparisonPushdown.FilteredSelectionPreserved | pkg/proxystorage/proxy.go:1103-1147 | topk with > or >= and bottomk with < or <=: selecting again from the filtered partial selections gives in every group the values that filtering one global selection gives |
| ComparisonPushdown.SelectionExact | pkg/proxystorage/proxy.go:1103-1147 | for every k from 1 up, topk and bottomk: the values come out right for all groupings, server groups and selections if and only if the comparison is > or >= for topk, < or <= for bottomk |
| ComparisonPushdown.SelectsWrong | pkg/proxystorage/proxy.go:1103-1147 | for every other comparison, k series of a better value on one server and a passing one on another give a wrong answer |
| ComparisonPushdown.ComparisonExact | pkg/proxystorage/proxy.go:1103-1147 | max and min: filtered partial results aggregated again equal the filtered global aggregate for every grouping and all server groups if and only if the comparison is > or >= for max, < or <= for min |
| ComparisonPushdown.Disagrees | pkg/proxystorage/proxy.go:1103-1147 | for every other comparison, two servers with one series each on which the rewritten query gives a wrong answer |
| ComparisonPushdown.TwoSeries | pkg/proxystorage/proxy.go:1103-1147 | two servers with one series each go wrong as soon as comparing before combining differs from combining before comparing |
| ComparisonPushdown.SumNeverPushes | pkg/proxystorage/proxy.go:1141-1145 | under sum, no comparison with a literal may be pushed down |
| ComparisonPushdown.CountGoesWrong | pkg/proxystorage/proxy.go:1141-1145 | under count, comparing with more than one may not |
| ServerGroups.OneEvaluation | pkg/promclient/label.go:158-175 | one evaluation over every series promxy fronts is what the groups' own evaluations give, labelled and put side by side |
| ServerGroups.NothingCollides | pkg/promclient/label.go:149-155 | answers free of all group labels and distinct in each group stay distinct once labelled, when any two groups differ in a label |
| ServerGroups.MergeKeepsOne | pkg/promclient/merge_seriesset.go:141-153 | merging two samples of one time under the same labels keeps one of them whole, whatever the buffer |
| ServerGroups.MergedIsAll | pkg/promclient/merge_seriesset.go:176-190 | merging by label set gives a permutation of the answers if and only if no two of them have the same labels |
| ServerGroups.SelectionDistinct | pkg/proxystorage/proxy.go:700-713 | a selection is part of what it selects from, and distinct when that is |
| ServerGroups.AnswersNeverCollide | pkg/proxystorage/proxy.go:700-713 | the labelled answers to every pushed-down aggregate are distinct when the groups are told apart: one result for each group, or a selection among series that the stores, or the servers, keep distinct |
| ServerGroups.FoldingPreserved | pkg/proxystorage/proxy.go:700-796 | aggregating the merged answers again equals one aggregation over every series of every group, compared with a literal where the operator admits it |
| ServerGroups.SelectingPreserved | pkg/proxystorage/proxy.go:700-713 | every selection from the merged answers is a selection from every series of every group, or from those that pass a comparison in the selection's direction |
| ServerGroups.ToldApartExact | pkg/promclient/merge_seriesset.go:176-190 | the sum comes out right for all stores, answers and merges if and only if any two groups differ in a label they add |
| ServerGroups.AggregatePerm | pkg/proxystorage/proxy.go:855-864 | the order in which the fetched series come back does not matter |
| NodeReplacer.Replace | pkg/proxystorage/proxy.go:684-864 | rewriting a node in place over the merged answers: folding operators keep the node's value (count turned into sum), topk and bottomk admit only selections they admitted before; avg becomes a fresh sum and count whose quotient is the old value, with the name restored around it when the grouping names it; a node already fetched is left alone; one whose answer holds a histogram is left without its offset, unchanged if and only if it is pinned or had none |
| NodeReplacer.ReplaceAverage | pkg/proxystorage/proxy.go:716-781 | after both sides of the quotient have been pushed down in turn, it still has the average's value, with or without the metric name in the grouping |
| NodeReplacer.PushedComparisons | pkg/proxystorage/proxy.go:1141-1145 | comparisons are pushed under max, min, topk and bottomk and under nothing else; for these some comparison is preserved, for sum and count there are servers on which it is not |
| NodeReplacer.ReplaceComparison | pkg/proxystorage/proxy.go:1103-1147 | an aggregate compared with a literal, rewritten in place over stores and merged answers exactly for max, min, topk and bottomk: for comparisons in the operator's direction the max or min that is left has the compared value, and topk or bottomk selects the values that comparing a selection leaves; a histogram leaves the node without its offset |
| NodeReplacer.AbandonExact | pkg/promclient/util.go:93-99 | an abandoned node over a selector sums to the same, for all matchers, times, lookbacks and stored samples, if and only if it is pinned or had no offset |
| RangePushdown.SeenMeaning | pkg/proxystorage/proxy.go:855-864 | the engine sees an element for each fetched series in which it finds a float, with that value |
| RangePushdown.QuietExact | pkg/proxystorage/proxy.go:855-864 | the lookup in an unfilled series finds the step's own answer if and only if it has a sample at the step or none in the lookback window before it |
| RangePushdown.StepSeen | pkg/proxystorage/proxy.go:855-864 | the operand the engine sees at a step is what the servers gave for it if and only if that holds of every fetched series |
| RangePushdown.RangeStepPreserved | pkg/proxystorage/proxy.go:855-864 | at such a step aggregating again equals the aggregate over every series, evaluated at that step, compared with a literal where the operator admits it |
| RangePushdown.RangeStepSelected | pkg/proxystorage/proxy.go:855-864 | at such a step topk and bottomk select from every series, evaluated at that step, or from those that pass |
| RangePushdown.RangeStepAveraged | pkg/proxystorage/proxy.go:716-781 | at such a step of both sides the quotient is the average over every series, with or without the metric name in the grouping |
| RangePushdown.ShortLookback | pkg/proxystorage/proxy.go:855-864 | a lookback of at most one step makes every step such a step |
| RangePushdown.CountOverRangeExact | pkg/proxystorage/proxy.go:784-796 | for every grouping, the summed partial counts are those of the step if and only if it is such a step |
| StaleFill.FillMeaning | pkg/proxystorage/proxy.go:1203-1256 | the filled samples are, in strict time order, exactly the source samples plus one stale marker at every grid step the source does not cover |
| StaleFill.FillGaps | pkg/proxystorage/proxy.go:1217-1250 | the inner loops, with their moving grid cursor, produce that, and report whether a histogram was read |
| StaleFill.HistogramSeenMeaning | pkg/proxystorage/histogram_routing.go:203-230 | the flag means: in a series up to the first that cannot be read, some sample is a histogram |
| StaleFill.CopySetMeaning | pkg/proxystorage/histogram_routing.go:203-230 | the copy is the set, or an empty one with the error of the first series that cannot be read |
| StaleFill.ContainsLossyHistogram | pkg/proxystorage/histogram_routing.go:203-230 | copies the set, or gives an empty failed one, and reports whether a histogram was read before the first failure |
| StaleFill.NegativeSteps | pkg/proxystorage/proxy.go:1203-1256 | the step count, computed with division toward zero, is negative if and only if the window runs backwards by two steps or more |
| StaleFill.FillSetMeaning | pkg/proxystorage/proxy.go:1203-1256 | a filled set holds every series' fill under its labels, or is empty with the error of the first series that cannot be read |
| StaleFill.FillDetect | pkg/proxystorage/proxy.go:1203-1256 | one pass fills and detects; without a step grid it only copies and detects; it crashes exactly when there is a series and the window runs backwards by two steps or more |
| StaleFill.DetectThenFill | pkg/proxystorage/proxy.go:1184-1256 | detecting first and filling second gives the same set and the same flag as the combined pass, read errors included |
| StaleFill.FilledStep | pkg/proxystorage/proxy.go:1203-1256 | at every grid step and for every lookback, the latest sample at or before the step sits exactly on it and is the source's sample there, or a stale marker |
| StaleFill.UnfilledLeaks | pkg/proxystorage/proxy.go:1160-1183 | without filling, every step between two source samples within the lookback answers with the earlier one |
| CallPushdown.VectorToStepMatrix | pkg/proxystorage/proxy.go:416-467 | series by series, exactly one copy of the last sample at each grid step; no series without a step or for a window that runs backwards; an empty failed set when a series cannot be read |
| CallPushdown.SameReadingExact | pkg/promclient/util.go:93-99 | selectors read the same with two offsets, for all series, times and lookbacks, if and only if the offsets are equal |
| CallPushdown.ReplaceCall | pkg/proxystorage/proxy.go:606-681 | for a downstream that answers with what the call means: for every series, step and lookback, the engine finds what the call meant there with the offset the node had, which without @ is the offset-free call evaluated that much earlier; the request goes out moved back by that offset and without it, and the new selector has it again; the query fails, crashes or is abandoned exactly when the request fails, the fill crashes or a histogram came back; abandoning keeps what the node reads if and only if it is pinned or had no offset |
| CallPushdown.Request | pkg/proxystorage/proxy.go:661-681 | a pinned range is answered by the replicated instant answer, any other by the range answer |
| CallPushdown.SubqueryStartMeaning | pkg/proxystorage/proxy.go:1044-1053 | a subquery starts at the first multiple of its interval that is not before its range |
| CallPushdown.SubqueryWindow | pkg/proxystorage/proxy.go:1022-1053 | over a forward window a subquery starts less than one step past its end, so its fill never crashes |
| CallPushdown.NestedSubqueryWindow | pkg/proxystorage/proxy.go:1022-1053 | a subquery in a subquery can get a window for which it would |
| Quorum.ErrorRanks | pkg/promclient/multi_api.go:156-175 | canceled queries rank lowest, then storage failures, timeouts and refused queries; a chain of several kinds ranks as the first of canceled, timed out, storage |
| Quorum.WorstUnique | pkg/promclient/multi_api.go:136-146 | the error of highest rank, lowest index on ties, is unique, so it cannot depend on the order |
| Quorum.ErrorPicker.Add | pkg/promclient/multi_api.go:142-146 | keeps "the picked error is the worst one seen" through every arrival |
| Quorum.CountBuckets | pkg/promclient/multi_api.go:196-225 | counts the members of every bucket |
| Quorum.NewMultiAPI | pkg/promclient/multi_api.go:196-225 | accepts exactly when every bucket has at least requiredCount members |
| Quorum.AbortIsFinal | pkg/promclient/multi_api.go:456-463 | when outstanding plus successful answers of a bucket fall below requiredCount, no continuation can meet the quorum |
| Quorum.TalliedEnd | pkg/promclient/multi_api.go:471-475 | a run that never aborted and has heard every API has met the quorum, for a MultiAPI that NewMultiAPI accepted |
| Quorum.Tally.Arrive | pkg/promclient/multi_api.go:451-470 | one arrival: the counts stay those of the answers seen, and it aborts only when its bucket can no longer reach requiredCount |
| Quorum.Tally.Short | pkg/promclient/multi_api.go:471-475 | the check after the loop tells exactly whether the quorum is missed, and never fails for an accepted MultiAPI |
| ScatterGather.LastToFail | pkg/promclient/multi_api.go:456-463 | with one bucket and requiredCount 1 an abort can come only once every API has failed |
| ScatterGather.AnsweredIndices | pkg/promclient/multi_api.go:477-482 | what a successful call passes on is the values at exactly the indices of the APIs that answered, in increasing order |
| ScatterGather.ScatterMerge | pkg/promclient/multi_api.go:415-485 | for every arrival order: an accepted MultiAPI succeeds exactly when every bucket has requiredCount successes, and then passes on the successful answers in API order; it fails only by early abort; with one bucket and requiredCount 1 a failure reports the worst error of all; any other MultiAPI also gives an empty success when nobody fails |
| ScatterGather.AnyEnough | pkg/servergroup/servergroup.go:453-463 | targets share one bucket, so requiredCount 1 asks for one answer unless there is no target |
| ScatterGather.AllNeeded | pkg/proxystorage/proxy.go:163 | server groups share one bucket, so requiredCount n asks for an answer from every group |
| ScatterGather.GroupQuery | pkg/servergroup/servergroup.go:453-463 | a server group answers exactly when it has no target, a target answers, or its errors are ignored or downgraded to warnings; it gives the successful targets' answers in order |
| ScatterGather.StackedQuery | pkg/proxystorage/proxy.go:163 | two levels deep, in any orders: a query succeeds exactly when every server group answers in that sense, and brings back each group's answers in group order; it fails only by early abort |
| MergedAnswers.SortedUnionUnique | pkg/promclient/multi_api.go:367-408 | the sorted union of the successful answers is one list, so no arrival order can change it |
| MergedAnswers.LabelNames | pkg/promclient/multi_api.go:367-408 | for every arrival order, the ascending duplicate-free union of the successful answers |
| MergedAnswers.MergeLabelValues | pkg/promclient/label.go:17-30 | the union, duplicate-free when the first list is |
| MergedAnswers.LabelValues | pkg/promclient/multi_api.go:287-325 | for every arrival order, ascending and with exactly the values answered; duplicate-free, hence the sorted union, when every answer is |
| MergedAnswers.ExemplarLeMeaning | pkg/promclient/multi_api.go:815-826 | exemplars are ordered by time, then value, then labels |
| MergedAnswers.ExemplarOrder | pkg/promclient/multi_api.go:815-826 | time, value, labels is a total order on exemplars |
| MergedAnswers.AddAnswer | pkg/promclient/multi_api.go:770-790 | one answer adds exactly its series and exemplars and keeps every list free of duplicates |
| MergedAnswers.OfMeaning | pkg/promclient/multi_api.go:770-790 | what an answer holds for a series is the exemplars of every entry with its labels |
| MergedAnswers.QueryExemplars | pkg/promclient/multi_api.go:749-810 | for every arrival order, the series are the sorted union and each one's exemplars are the ordered set union keyed by time, value and labels |
| MergedAnswers.ExemplarsUnique | pkg/promclient/multi_api.go:749-810 | that determines the whole result |
| MetadataRotation.KeyOrderFirstSeen | pkg/promclient/multi_api.go:842-850 | the keys, each once, in the order of their first members |
| MetadataRotation.GroupByKey | pkg/promclient/multi_api.go:842-850 | groups the API indexes by key, the keys in that order |
| MetadataRotation.TurnIsRotation | pkg/promclient/multi_api.go:858-880 | the order of asking is the members rotated by the counter, each exactly once |
| MetadataRotation.AskGroup | pkg/promclient/multi_api.go:858-880 | asks a prefix of that rotation, stops at the first answer, and finds none only after asking everyone |
| MetadataRotation.FirstWinsMeaning | pkg/promclient/multi_api.go:880-893 | a metric's metadata is that of the first group that knows it |
| MetadataRotation.Client.MetadataOnePerKey | pkg/promclient/multi_api.go:841-893 | each call asks each member at most once in cyclic order, advances the counter by one, and fails exactly when some group has no answering member |
| MetadataRotation.Client.ConsecutiveCalls | pkg/promclient/multi_api.go:841-893 | with all targets healthy, from any counter and whatever they answer from call to call, as many consecutive calls as a group has members ask each of them exactly once |
| Relabel.RewriteMatchers | pkg/promclient/metric_relabel.go:451-507 | the nested reverse loop gives up exactly when some matcher reads a name that is dropped and is neither = "" nor !~ ".+"; otherwise every matcher keeps its type and value and reads the label it comes from |
| Relabel.RelabelledGet | pkg/promclient/metric_relabel.go:45-65 | a label after any chain of replace rules with fixed targets and labeldrop rules is that of its origin before it, or empty when a pattern drops it on the way |
| Relabel.RewriteSoundExact | pkg/promclient/metric_relabel.go:451-507 | a rewritten matcher accepts only series the original accepts after relabelling, for all series, if and only if it is given up, or no pattern drops its label, or it accepts the empty value, or nothing |
| Relabel.RewriteExactCondition | pkg/promclient/metric_relabel.go:451-507 | the rewrite agrees with the original on all series if and only if, given up, nothing is left for it to accept (it rejects the empty value, or accepts nothing where its label survives), and otherwise its label survives or it does not look at the value |
| Relabel.RewriteSound | pkg/promclient/metric_relabel.go:451-507 | sound for all matchers and series when every dropped name is its own and only match |
| Relabel.RewriteExact | pkg/promclient/metric_relabel.go:451-507 | for such names: exact on all series if and only if the matcher does not both accept the empty value and read a dropped label |
| Relabel.RewriteAllSoundExact | pkg/promclient/metric_relabel.go:451-507 | a whole list is rewritten soundly if and only if it is given up, or no matcher rejects the emptiness a dropped label leaves, or the list contradicts itself on some label |
| Relabel.RewriteAllExactCondition | pkg/promclient/metric_relabel.go:451-507 | and exactly if and only if: given up, some matcher rejects what a drop leaves or the surviving ones contradict each other; not given up but one rejects, the list contradicts itself; otherwise the surviving ones contradict each other or imply what the others ask |
| Relabel.RewriteAllSound | pkg/promclient/metric_relabel.go:451-507 | soundness of lists when every dropped name is its own and only match |
| Relabel.RewriteAllExact | pkg/promclient/metric_relabel.go:451-507 | for such names and lists in which no matcher accepts the empty value on a dropped label: exact, and a false result means no series can match after relabelling |
| Relabel.PatternDropsAnother | pkg/promclient/metric_relabel.go:57-65 | dropping k8s.pod drops k8s_pod too, and the rewrite of a matcher on k8s_pod lets a series through that the matcher then rejects |
| Relabel.PatternMissesItself | pkg/promclient/metric_relabel.go:473-486 | dropping a+b does not drop the label of that name, and the rewrite gives up on a series that matches |
| Relabel.TargetExact | pkg/promclient/metric_relabel.go:148-154 | for all matchers and series, rewriting agrees with one copy if and only if its target is the same label whatever the value |
| Relabel.TargetIsExpanded | pkg/promclient/metric_relabel.go:148-154 | a target that refers to the value makes the rewrite unsound |
| LabelFilter.CountPresent | pkg/promclient/labelfilter.go:549-567 | the size of the intersection, however often values repeat |
| LabelFilter.FilterLabelMatchers | pkg/promclient/labelfilter.go:488-545 | for all four matcher types, agrees with scanning every known value |
| TimeFilter.AlignedStart | pkg/promclient/timefilter.go:77-84 | the moved start is the first step of the original grid inside the window |
| TimeFilter.QueryRange | pkg/promclient/timefilter.go:72-92 | truncated, the downstream evaluates exactly the original step points inside the window, for every positive step and any unset edge; truncated or not, a query is dropped exactly when it ends before the window or starts after it; what is sent runs backwards if and only if it has no step point |
| TimeFilter.RelativeWindow | pkg/promclient/timefilter.go:140-152 | the window is the set of times whose distance from now lies between the edges that are set |
| TimeFilter.NestedQueryRange | pkg/servergroup/servergroup.go:385-401 | the relative filter over the absolute one, each truncating or not: what reaches the servers is exactly the original step points in the windows of those that truncate; what is dropped has no point in both |
| TimeFilter.TruncateWindow | pkg/promclient/timefilter.go:19-27 | the cut window is the intersection, and a window already inside is unchanged |
| Exposition.WriteEscaped | pkg/expfmt/encode.go:58-75 | with or without the fast path, the escaped text |
| Exposition.EscapeCases | pkg/expfmt/encode.go:41-44 | what backslash, newline, quote and any other character become |
| Exposition.QuotedRoundTrip | pkg/expfmt/encode.go:41-44 | unescaping undoes escaping, whatever follows the closing quote |
| Exposition.ValidNames | pkg/expfmt/encode.go:46-56 | bare names are letters, underscores, colons and, from the second character on, digits |
| Exposition.WriteName | pkg/expfmt/encode.go:46-56 | a legacy-valid name bare, any other quoted |
| Exposition.NameRoundTrip | pkg/expfmt/encode.go:46-56 | a bare or quoted name is read back whole from what follows it |
| Exposition.SeriesForms | pkg/expfmt/encode.go:265-305 | the three forms: a bare name alone, a bare name with its pairs in braces, a quoted name inside the braces |
| Exposition.PairForm | pkg/expfmt/encode.go:281-284 | a pair is name="value", the name quoted when it cannot be bare |
| Exposition.LineForms | pkg/expfmt/encode.go:249-310 | the two kinds of lines |
| Exposition.SeriesRoundTrip | pkg/expfmt/encode.go:265-305 | the name-and-labels text of every name and label list is read back, in the bare and the quoted form |
| Exposition.SeriesUnique | pkg/expfmt/encode.go:265-305 | different names or label lists never give the same line |
| Exposition.LineHasNoNewline | pkg/expfmt/encode.go:249-310 | no raw newline appears inside a line |
| Exposition.TextRoundTrip | pkg/expfmt/encode.go:249-310 | a whole response is read back line by line |
| Encoder.GetMeaning | pkg/expfmt/encode.go:286-292 | looking a label up gives the value of the first label of that name |
| Encoder.OwnIndices | pkg/expfmt/encode.go:273-285 | the series' own labels come in their order, without the metric name and empty values |
| Encoder.AddedIndices | pkg/expfmt/encode.go:286-301 | after them the external labels, in their order, that the series carries no value for |
| Encoder.KeptMeaning | pkg/expfmt/encode.go:273-301 | which labels reach a line: the series' own without the metric name and empty values, and the external ones the series does not carry with a value |
| Encoder.WriteLabels | pkg/expfmt/encode.go:273-301 | the two loops, with separator and brace flag, write exactly the kept pairs |
| Encoder.Encoder.WriteFloatSample | pkg/expfmt/encode.go:249-310 | appends the TYPE line exactly when the escaped name changed, then the sample line, and remembers the name |
| Encoder.WriteSamples | pkg/federate/federate.go:189-201 | the text handed over is that of the samples' lines in order, up to and including the one after which the destination turned out dead; it is a beginning of the whole response, and all of it when every sample counts as written |
| Encoder.StreamReadBack | pkg/expfmt/encode.go:249-310 | from the text alone a reader gets back every sample written, in order |
| Encoder.SampleUnderItsHeader | pkg/expfmt/encode.go:251-257 | every sample line stands under a TYPE line of its own name with no other in between |
| Encoder.OneHeaderPerName | pkg/expfmt/encode.go:251-257 | each name has a TYPE line, and exactly one if and only if the samples come grouped by escaped name |
| Encoder.GroupedStream | pkg/expfmt/encode.go:238-257 | when name escaping is injective on the stream's names, one TYPE line per name if and only if the stream is grouped by name |

## Left out

- HTTP clients, JSON decoding, configuration, service discovery, access logging and warnings.
- The PromQL engine, the parser and the series-set merge of the Prometheus library; only a small evaluator and a "latest
  sample at or before t" lookup are modelled. Errors the engine raises for
  duplicate label sets are modelled only for division, and as a premise for the answers to topk and bottomk.
- IEEE rounding, NaN ordering, 64-bit overflow and the contents of native histograms.
- Cancellation and timeouts, beyond answers arriving in any order.
- Pushdown of count_values, quantile, stddev and the limit aggregates, aggregates over scalar or absent, arithmetic with a
  literal, and the calls that are put back around their selector (scalar, sort).
- Lowercase and uppercase relabelling, and the visitor that can rewrite a range selector twice.
- Which error is reported with several buckets or a requiredCount above 1: it depends on the arrival order.
- Matcher stripping on unparsed selector strings, and label-filter decisions over whole expressions.
- The rendering of floats and integers and the name-escaping schemes: the text of a number and the escaping function are
  parameters, and so is when a destination is found dead; how much of the text it took by then is not modelled.
- Fingerprints are taken as identities; label sets of exemplars are identified by their canonical text.
- TimeFilter.QueryRange: for positive steps; the source divides by the step.
- Quorum.NewMultiAPI: the buckets are ranged over by the list of fingerprints, not by the map, which visits them in some order.
- MergedAnswers.LabelValues: an empty first answer is taken as present; the source keeps a nil result until the first
  non-nil one, with the same values.
- MetadataRotation.Client.MetadataOnePerKey: the counter does not wrap; the source's 64-bit counter would after 2^63 calls.
- Relabel.RelabelledGet: for targets that are the same label whatever the value; where a copy with any other target goes
  depends on the series, and Relabel.TargetExact shows that rewriting then fails.
- ScatterGather.GroupQuery: a group that downgrades its errors to warnings is treated as one that ignores them, since
  warnings are not modelled.
- CallPushdown.ReplaceCall: for a downstream that answers with what the call means, each label set once; an offset looks that
  much further back, and a call pinned by @ that does not depend on the evaluation time means the same at every time.
- PromQL.StripEval: for series that have a metric name, which the match-anything matcher asks for.
- NodeReplacer.Replace: for server groups that are told apart by labels which the stored series do not carry, and, for topk
  and bottomk, whose stores hold no label set twice. At one evaluation time; RangePushdown has the steps of a range.
- Averages.NamedAverageIsQuotient: for groupings that cannot see the copy of the name, or series that do not carry it.
