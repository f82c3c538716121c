# IFA: a verified model

IFA is a read-only diagnostics service for inference workloads. It scrapes metrics in the
Prometheus text exposition format, turns counters into rates, keeps a sliding window of
snapshots per workload, evaluates nineteen rules over that window, and sends the
transitions of the resulting findings to a webhook. This project models that path in
Dafny and proves what each stage promises, over every input, every interleaving and
every run.

| component | modules |
|---|---|
| shared vocabulary | `Basics`, `Telemetry` |
| alert sender: a deduplicating state machine, a bounded queue, one delivery goroutine | `AlertModel`, `AlertLifecycle`, `AlertFlow`, `AlertConvergence`, `AlertSafety`, `AlertContents`, `AlertSender` |
| exposition parser and printer | `Text`, `Promtext`, `PromtextLaws`, `Exposition`, `Spelling`, `Registry`, `RegistryReads`, `RegistryState` |
| histograms and quantiles | `Quantile`, `QuantileLaws`, `Histogram`, `HistogramText`, `Vllm`, `VllmLaws` |
| sliding window | `Window`, `Store`, `StoreObject` |
| rule engine | `Rules`, `RuleLaws`, `EvidenceLaws`, `Suppression`, `Engine`, `Analyze`, `Analysis`, `FindingLaws`, `StoreAnalysis` |
| collector | `Targets`, `Rates`, `ApplyRates`, `ScrapeAll`, `Cycle` |

Objects the service updates in place are classes (`AlertSender.Sender`,
`RegistryState.RegistryObject`, `HistogramText.HistogramObject`,
`StoreObject.SnapshotStore`, `Rates.RateTracker`); their methods equate the new fields
with a function of the old ones, and the laws are proved of those functions. The three
concurrent protocols, the sender with its delivery goroutine, `ScrapeAll`, and the
collector's cycle of scraping, analysing and notifying, are state machines whose steps
interleave freely. Times and durations are nanoseconds as integers,
measurements are reals, strings are byte strings.

Clocks, the outcome of each webhook post, the text of help strings and the text encoding
of numbers (`Text.Codec`: parsing undoes printing for representable numbers) are
parameters.

## Where the code and its descriptions part

* The finding for high end-to-end latency tells the operator that no queueing,
  cache-pressure or throughput rule fired alongside it (internal/recommender/rules.go:467-473),
  and its summary that a capacity or prefill rule supersedes it (:456-457). Only four rules
  do. `Analyze.SymptomReportedExactly` says exactly when it is reported and
  `Analyze.SymptomBesideCause` shows it beside an exhausted KV cache, for any thresholds.
* docs/RECOMMENDATIONS.md:196 puts the prefix-cache rule above 50 prompt tokens per
  second; the code also fires at exactly 50 (internal/recommender/rules.go:543). The model
  follows the code (`RuleLaws.FiresAtTheFloor`). Otherwise the catalogue
  (docs/RECOMMENDATIONS.md:34-312) is what the code does, code by code and suppressions
  included (`FindingLaws.ReportedExactly`).
* An abort rate is described as a share of finished requests
  (internal/telemetry/types.go:76-77); `ApplyRates.AbortRateCanExceed` gives a
  restart across which it is 200 percent, `ApplyRates.AbortRateExactly` says exactly when
  it is a percentage, and `ApplyRates.GrowingIsPercentage` that it always is while no
  series goes back or disappears.
* The overlap the threshold check guards against (internal/recommender/thresholds.go:132-137)
  needs the low bound strictly above the high one; equal bounds, which it refuses, are
  safe too (`RuleLaws.SaturatedOrIdleExactly`).
* A rule is told that the newest snapshot ends its window
  (internal/recommender/recommender.go:70-71). For what the alert sender is given that is
  so: the collector reads the store only after its scrapes have returned
  (`Cycle.ReportsSound`). The API handler reads beside the collector, the newest snapshots
  first; `StoreAnalysis.ReadsApartUnjustified` is a run in which that matters there, and
  `Window.SustainedHoldsNowExactly` says exactly when it does not.
* A measurement that was not taken is documented never to be a zero
  (docs/API.md:53-60), but three rules print one as zero
  (internal/recommender/rules.go:158, 200 and 481): `EvidenceLaws.PrintsInventedZero`, and
  exactly when in `EvidenceLaws.PrintsMeasurementsExactly`.
* The configuration's duplicate check compares another key
  (internal/config/config.go:356) than everything else uses
  (internal/collector/collector.go:50-55), and takes targets `("", "a/b")` and
  `("a", "b")`, which share one. The collector's own check refuses them at startup
  (`Targets.RefusedExactly`), and that is what keeps their data apart
  (`Targets.TrackerApart`, `Targets.SharedExactly`).
* Quantile estimates are ordered like their quantiles exactly when the first bucket is
  not a populated one ending below zero (`QuantileLaws.MonotoneExactly`).
* `open` in the sender records what the queue accepted, not what was delivered
  (`AlertSafety.FailedDeliveryStaysOpen`), and a payload accepted after the goroutine has
  stopped stays in the queue (`AlertSafety.CloseDrains`, `AlertSafety.AcceptedAfterExit`).
  The program itself closes the sender only once the collector is done
  (cmd/control-plane/main.go:263-266), so this concerns other users of the package.

## Model

Functions that only compute are named through the lemma or method that states something
about them. Members of a class carry the class name.

| member | source | states |
|---|---|---|
| AlertSafety.TransitionsOnly | internal/alerting/sender.go:207-251 | in every reachable state the accepted events of an ID are a prefix of (firing escalated* resolved)*, each escalation strictly more severe and naming the severity before it; `open` holds the ID exactly while its last accepted event is not a resolution, as that event described it; one episode announces at most rank(minSeverity) + 1 times |
| AlertSafety.NothingLost | internal/alerting/sender.go:254-347 | delivery follows acceptance order: accepted is delivered, then in flight, then queued; the counters add up; every delivery is one or two posts, the second exactly after an error in transport, status 429 or a status of 500 and above |
| AlertSafety.DropsExactlyWhenFull | internal/alerting/sender.go:254-267 | a step of any reachable state drops a payload if and only if it attempts one with the queue at its capacity |
| AlertSafety.CloseDrains | internal/alerting/sender.go:287-311 | once the goroutine has returned the queue is exactly what was accepted since, so with no later Notify it is empty and everything accepted was sent or failed |
| AlertSafety.ReplayRebuildsOpen | internal/alerting/sender.go:207-347 | if nothing failed, replaying the sent stream (with what is still to come) rebuilds exactly `open` |
| AlertSafety.ReplayRebuildsFinding | internal/alerting/sender.go:207-347 | finding by finding: one with an event still to come, or whose newest delivery did not fail, is rebuilt exactly as `open` has it, whatever failed elsewhere |
| AlertSafety.AcceptedAfterExit | internal/alerting/sender.go:254-267 | a run in which a payload is accepted after the goroutine has returned and stays queued |
| AlertSafety.FailedDeliveryStaysOpen | internal/alerting/sender.go:314-347 | a run in which one rejected post leaves a finding open that no subscriber has heard of |
| AlertSafety.NotifyConverges | internal/alerting/sender.go:207-251 | a Notify that dropped nothing leaves `open` with exactly the IDs at or above the minimum severity, none recorded less severe than reported |
| AlertSafety.RepeatIsSilent | internal/alerting/sender.go:224-234 | a Notify that begins in such a state enqueues nothing, drops nothing, leaves `open` alone and suppresses every eligible finding |
| AlertSafety.EligibleCountDistinct | internal/alerting/sender.go:214-234 | with distinct IDs that is one suppression for each open finding |
| AlertSafety.NotifyReturns | internal/alerting/sender.go:207-251 | convergence and silence for one Notify from its first step to its last, whatever the goroutine did meanwhile |
| AlertSafety.RunKeepsInv | internal/alerting/sender.go:207-347 | every state of every run from an invariant state keeps the three invariants, the configuration, and the accepted and delivered histories as prefixes |
| AlertLifecycle.LifecycleStep | internal/alerting/payload.go:105-185 | every step keeps the event grammar and what `open` retains of each finding |
| AlertLifecycle.ReplayIsOpen | internal/alerting/sender.go:254-280 | replaying every accepted event gives `open` with its severities |
| AlertFlow.FlowStep | internal/alerting/sender.go:254-347 | every step keeps acceptance order, the counters, the shape of each delivery and the drained queue at exit |
| AlertConvergence.ConvergenceStep | internal/alerting/sender.go:207-251 | every step keeps what an examined prefix of the findings guarantees about `open`, the drops and the suppressions |
| AlertContents.StepAdds | internal/alerting/sender.go:207-251 | a step adds at most one accepted payload, made from the finding examined or the alert resolved, with schema version, cluster and the time the Notify began |
| AlertContents.PayloadsTell | internal/alerting/payload.go:105-157 | in every reachable state a payload that is not a resolution repeats identity, severity, evidence, observation time and window of a finding some Notify was handed, one at or above the minimum severity; a resolution carries no measurement; each names the configured cluster |
| AlertContents.NotifyKeepsDate | internal/alerting/sender.go:207-211 | a Notify keeps its findings and the date it began with until it returns |
| AlertSender.Sender.constructor | internal/alerting/sender.go:95-152 | a new sender is the initial state of the machine |
| AlertSender.Sender.Enqueue | internal/alerting/sender.go:254-267 | appends exactly when the queue has room, otherwise counts a drop and changes nothing else |
| AlertSender.Sender.ConsumerRuns | internal/alerting/sender.go:294-347 | any number of goroutine steps is a run that leaves the producer and the accepted history alone |
| AlertSender.Sender.ExamineFinding | internal/alerting/sender.go:214-234 | one round of the first loop is exactly the machine's Examine step |
| AlertSender.Sender.ResolveFinding | internal/alerting/sender.go:238-250 | one round of the second loop is exactly the machine's Resolve step |
| AlertSender.Sender.Notify | internal/alerting/sender.go:207-251 | a whole call, the goroutine interleaved between any two findings, is a run that consumes exactly these findings; without a drop it converges, and from a converged state it is silent |
| AlertSender.Sender.Deliver | internal/alerting/sender.go:314-347 | a payload, from whichever attempt it has got to, ends as one delivery with a proper list of attempts, counted as sent or as failed |
| AlertSender.Sender.Drain | internal/alerting/sender.go:300-308 | delivers everything queued in order and returns with the queue empty and everything accepted sent or failed |
| AlertSender.Sender.SignalStop | internal/alerting/sender.go:287-289 | is the machine's Stop step, once |
| AlertSender.Sender.Await | internal/alerting/sender.go:290-311 | the goroutine finishes a delivery under way, drains and returns; one that has returned is not started again |
| AlertSender.Sender.Close | internal/alerting/sender.go:287-292 | ends with the goroutine gone, the queue empty, nothing more accepted, and everything accepted sent or failed |
| AlertSender.Sender.Stats | internal/alerting/sender.go:270-272 | four loads with deliveries going on between them: each counter is one the sender had during the call, and sent plus failed lies between the deliveries finished before it and after it |
| AlertSender.Sender.Open | internal/alerting/sender.go:276-280 | the number of findings a replay of the accepted events leaves open |
| Promtext.Parse | internal/promtext/parse.go:68-101 | the scanner loop returns the line-by-line fold of the payload, or fails when a line overflows |
| Promtext.ParseLabels | internal/promtext/parse.go:391-454 | the index-advancing scanner computes the recursive grammar of label blocks, terminates and stays within bounds on every input |
| Promtext.ScanValue | internal/promtext/parse.go:417-444 | the inner loop reads one quoted value, undoing escapes, up to its closing quote |
| Promtext.SelectSamples | internal/promtext/parse.go:127-139 | exactly the samples of that name whose labels match, in order |
| Promtext.Sum | internal/promtext/parse.go:147-158 | the sum of the selected samples that are not NaN, and whether there is one |
| PromtextLaws.ParseJoin | internal/promtext/parse.go:68-101 | parsing two payloads joined by a newline merges their parses: samples concatenated by name, later types winning, skips added |
| PromtextLaws.MalformedLineOnlyCounted | internal/promtext/parse.go:91-95 | a malformed line inserted anywhere changes only LinesSkipped |
| PromtextLaws.LineFitsExactly | internal/promtext/parse.go:75-77 | a single line is parsed if and only if it is shorter than a mebibyte |
| PromtextLaws.SumOverJoin | internal/promtext/parse.go:127-158 | selection and sums over a join are the concatenation and the sum of the parts |
| Exposition.UnquoteEsc | internal/metrics/registry.go:322-325 | unescaping inverts `esc` on every byte string and stops exactly after the closing quote |
| Exposition.ScanPrintedLabels | internal/promtext/parse.go:391-454 | scanning a printed label block recovers every label and stops exactly after the closing brace |
| Exposition.ParsePrintedSeries | internal/promtext/parse.go:338-387 | a printed series line parses to its name, labels and value |
| Exposition.ParsePrint | internal/promtext/parse.go:68-101 | parsing a printed document gives its meaning, whatever bytes the label values hold, and fails if and only if a line overflows the scanner |
| Exposition.NothingSkipped | internal/promtext/parse.go:91-95 | no line of a printed document is skipped |
| Exposition.SectionSamples | internal/metrics/registry.go:311-313 | among the samples of a document, a family's name finds exactly that family's rows |
| Spelling.UnquotePieces | internal/promtext/parse.go:417-444 | a quoted value is read character by character: an escaped n as a newline, any other escaped character as itself |
| Spelling.ScanSpelledLabels | internal/promtext/parse.go:391-454 | however commas, spaces and tabs are spread over a label block, the scan recovers each label and stops exactly after the brace |
| Spelling.ClassifySpelled | internal/promtext/parse.go:325-387 | a series or type line is read by its name, labels and first field, whatever its white space and whatever follows that field after white space |
| Spelling.OnlyNamesAdd | internal/promtext/parse.go:472-487 | no line adds a sample under a name that is not letters, underscores and colons, with digits after the first place |
| Spelling.SpecialNumbers | internal/promtext/parse.go:458-469 | the nine spellings of infinity and NaN are read as such |
| Spelling.AppendedIgnored | internal/promtext/parse.go:338-357 | whatever is appended after white space to a printed series line, with or without labels, or to a type line, leaves what is read |
| Spelling.ParseSpelled | internal/promtext/parse.go:68-101 | a payload of such lines parses to what they say in order, and fails if and only if a line overflows the scanner |
| Spelling.TimestampsDoNotShow | internal/promtext/parse.go:346-352 | a printed document with timestamps, or anything else, on its lines parses to the same result as without them |
| Registry.TallyCounts | internal/metrics/registry.go:98-127 | the per-target statistics count exactly that target's successes and errors and hold its last missing count |
| Registry.TallyLast | internal/metrics/registry.go:98-127 | the time, the duration and the missing metrics kept for a target are those of its last successful scrape |
| Registry.ParseUndoesWrite | internal/metrics/registry.go:175-325 | for every registry state and arbitrary byte strings as names the parse succeeds if and only if the lines fit the scanner; then no line is skipped, and a target's label pair finds exactly its scrape, error and missing counts, each as that number when a float64 can hold it |
| RegistryReads.ParseReadsTotals | internal/metrics/registry.go:206-264 | the parse finds the build labels, the uptime, the store size and the active findings, each under its own name and type |
| RegistryReads.ParseReadsSeverity | internal/metrics/registry.go:256-260 | a severity finds exactly its own count of findings, or nothing |
| RegistryReads.ParseReadsTimes | internal/metrics/registry.go:225-242 | a known target finds the duration of its last successful scrape and when it was, in whole seconds or zero |
| RegistryReads.ParseReadsDatabase | internal/metrics/registry.go:266-278 | each counter of the durable sink under its own name, or none of the families without a sink |
| RegistryReads.ParseReadsAlerts | internal/metrics/registry.go:281-308 | each counter of the alert sender under its own name, or none of the families without alerting |
| RegistryState.RegistryObject.RecordScrape | internal/metrics/registry.go:98-106 | appends one success to the history the fields tally |
| RegistryState.RegistryObject.RecordScrapeError | internal/metrics/registry.go:112-116 | appends one error to the history the fields tally |
| RegistryState.RegistryObject.RecordAnalysis | internal/metrics/registry.go:130-137 | the active findings are as many as given, and each severity counts its own occurrences more |
| RegistryState.RegistryObject.Write | internal/metrics/registry.go:175-309 | the printed text is that of exactly these fields, targets and severities in ascending order |
| RegistryState.RecordWriteParse | internal/metrics/registry.go:98-325 | from recorded outcomes through print and parse back to exactly those counts |
| Quantile.SumByEdge | internal/promtext/parse.go:281-303 | the accumulation loop holds every boundary once with the sum of its counts |
| Quantile.Clamp | internal/promtext/parse.go:311-319 | the in-place pass replaces each count by the running maximum |
| Quantile.Buckets | internal/promtext/parse.go:281-321 | strictly increasing boundaries, each with the running maximum of the per-boundary sums; nothing exactly when no bucket parses |
| Quantile.DistributionUnique | internal/promtext/parse.go:281-321 | that distribution depends on the multiset of samples only, not on payload order |
| Quantile.EstimateQuantile | internal/promtext/parse.go:192-239 | the quantile method returns the specified estimate of that distribution |
| QuantileLaws.FallbacksUnreachable | internal/promtext/parse.go:208-237 | with an observation the search lands inside the buckets, on one with positive population: the index and span fallbacks cannot be reached |
| QuantileLaws.DefinedTogether | internal/promtext/parse.go:192-239 | every quantile is defined or none: there are observations and a finite boundary |
| QuantileLaws.EstimateInBucket | internal/promtext/parse.go:214-238 | the estimate lies in the bucket the rank falls in, lower edge excluded, or is the largest finite boundary |
| QuantileLaws.LinearInBucket | internal/promtext/parse.go:222-238 | within a bucket with a finite boundary, the way above the lower edge times the population is the width times the rank beyond the count below |
| QuantileLaws.BoundaryAtCount | internal/promtext/parse.go:222-238 | where the rank is a bucket's cumulative count the estimate is its boundary |
| QuantileLaws.LargestInOpenBucket | internal/promtext/parse.go:214-221 | in the open bucket the estimate is the largest finite boundary, or none if there is none |
| QuantileLaws.ContinuousAtBoundary | internal/promtext/parse.go:206-238 | estimates do not jump where two populated buckets with finite boundaries meet |
| QuantileLaws.QuantileAtShare | internal/promtext/parse.go:192-207 | a quantile strictly between 0 and 1 of anything counted is the estimate at the q-th part of the count; there is no other |
| QuantileLaws.MonotoneExactly | internal/promtext/parse.go:192-239 | estimates are ordered like their quantiles if and only if the first bucket is not a populated one ending below zero |
| Histogram.PooledDistribution | internal/promtext/parse.go:281-321 | the aggregate of several engines with equal bounds is the cumulative distribution of their pooled observations |
| Histogram.RankBucket | internal/promtext/parse.go:206-213 | the bucket found for a rank is the bucket of the observation of that rank |
| Histogram.QuantileFaithful | internal/promtext/parse.go:192-239 | for any number of engines the estimate for q lies in the bucket of the ceil(q n)-th smallest observation; beyond every bound it is the largest bound, strictly below that observation |
| Histogram.FaithfulExactly | internal/promtext/parse.go:192-239 | faithful means that no boundary lies between the estimate and the observation, or that the estimate is the last boundary and the observation beyond it |
| Histogram.CountsAtMost | internal/demo/server.go:43-52 | a cumulative bucket counts exactly the observations that do not exceed its boundary |
| HistogramText.HistogramObject.Observe | internal/demo/server.go:43-52 | records exactly the observations that are neither NaN nor negative, each in its bucket |
| HistogramText.HistogramObject.Render | internal/demo/server.go:54-66 | prints the cumulative counts of everything observed |
| HistogramText.TotalsRead | internal/demo/server.go:54-66 | the count and sum series of a rendered histogram read back as those of everything observed |
| HistogramText.SumAllJoin | internal/demo/server.go:49 | that sum adds up over parts of what was observed |
| HistogramText.ScrapedQuantileFaithful | internal/demo/server.go:43-66 | observe, render, parse, aggregate, estimate: the result is faithful to the observation of that rank among all engines |
| Vllm.ReadPercentiles | internal/runtime/vllm/vllm.go:200-210 | the three percentiles of a family are the quantiles at 0.5, 0.95 and 0.99 of one distribution, a thousand times the seconds, or unmeasured |
| Vllm.PercentilesTogether | internal/runtime/vllm/vllm.go:200-210 | p50, p95 and p99 are measured together, and then p50 <= p95 <= p99 |
| Vllm.ReadCounters | internal/runtime/vllm/vllm.go:213-241 | the map holds exactly the counters the target exposes, each the sum of its own series |
| Vllm.Read | internal/runtime/vllm/vllm.go:200-241 | latencies and counters by the names vLLM gives them, of one model if one is named: percentiles of the histograms and finite sums; none of failures, aborts by their finished reason |
| Vllm.AbortedWithinFinished | internal/runtime/vllm/vllm.go:228-241 | over finite, non-negative samples the aborted counter is present only with the finished one and never exceeds it |
| Vllm.AbortsWithoutFinished | internal/runtime/vllm/vllm.go:236-241 | an infinite sample takes the finished counter away and leaves the aborted one |
| VllmLaws.PercentileFaithful | internal/runtime/vllm/vllm.go:200-210 | each percentile read from what engines printed is, in milliseconds, faithful to the observation of that rank, in seconds |
| Window.FindRecent | internal/recommender/recommender.go:107-119 | the binary search finds the tail a scan would |
| Window.RecentShape | internal/recommender/recommender.go:107-119 | the tail is every sample at or after last - d and at most one earlier sample, the one just before them |
| Window.RecentCovers | internal/recommender/recommender.go:92-119 | the tail spans at least d exactly when the whole window does |
| Window.SustainedFrom | internal/recommender/recommender.go:128-142 | sustained means: the window spans d and every sample from the tail's start on satisfies the condition |
| Window.SustainedForLess | internal/recommender/recommender.go:128-142 | what is sustained for longer is sustained for less |
| Window.SustainedBoth | internal/recommender/recommender.go:128-142 | sustaining a conjunction is sustaining each part |
| Window.RetainedTailExactly | internal/recommender/recommender.go:107-119 | a retained suffix has the log's tail if and only if nothing was dropped or it still holds a sample strictly older than the cutoff |
| Window.OnTheCutoffIsNotEnough | internal/recommender/recommender.go:107-142 | a sample exactly on the cutoff is not enough: a log and a suffix on which Sustained differs |
| Window.ComputeMean | internal/recommender/recommender.go:171-186 | the accumulating loop gives the mean exactly when there is a sample and every one is measured |
| Window.TrendSegments | internal/recommender/recommender.go:156-169 | a trend compares two disjoint segments of equal length, two samples or more, all measured |
| Window.TrendOverThreeWindows | internal/recommender/recommender.go:156-161 | a trend is taken over the last three sustain windows |
| Window.TrendExactly | internal/recommender/recommender.go:156-186 | it exists if and only if there are six samples and both end thirds are measured throughout, and times the length of a third it is the last third's sum less the first's |
| Window.StepTrend | internal/recommender/recommender.go:156-186 | a metric that stands at one level for the first third and at another for the last trends by their difference |
| Window.TrendShift | internal/recommender/recommender.go:156-186 | adding a constant to every value leaves the trend unchanged |
| Window.TrendNonIncreasing | internal/recommender/recommender.go:156-186 | a metric whose measured values never rise never trends upwards, whatever is not measured between them |
| Store.ReplayKey | internal/telemetry/store.go:85-114 | workloads never interfere: a key's data is the fold of its own operations |
| Store.RetainedWindow | internal/telemetry/store.go:85-114 | a key's series is exactly the last maxPerWorkload (or fewer) of all samples ever added that are not before its last Add's cutoff; it is gone only if never added or a Prune has found its newest sample outside the window, and once one has it is empty |
| Store.EmptyOncePruned | internal/telemetry/store.go:192-205 | and it stays empty, whatever else happens, until a fresher sample arrives |
| Store.SustainedAgrees | internal/recommender/recommender.go:128-142 | Sustained on the retained series equals Sustained on the unbounded log while the series holds a sample strictly older than the sustain cutoff |
| StoreObject.SnapshotStore.constructor | internal/telemetry/store.go:42-82 | starts empty, with the defaults where a bound is not positive |
| StoreObject.TrimSeries | internal/telemetry/store.go:93-101 | the scan and the slice are the two trims of the specification |
| StoreObject.SnapshotStore.Add | internal/telemetry/store.go:85-114 | the whole new map is the old one with that key's series trimmed, and equals the replay of all calls so far |
| StoreObject.SnapshotStore.Latest | internal/telemetry/store.go:119-131 | the newest sample of every workload that has one, once each in key order, each the end of its workload's history |
| StoreObject.SnapshotStore.History | internal/telemetry/store.go:135-145 | exactly the retained series of that key |
| StoreObject.SnapshotStore.Prune | internal/telemetry/store.go:192-205 | removes exactly the stale workloads and reports how many |
| StoreObject.SnapshotStore.Size | internal/telemetry/store.go:167-175 | the total over all series, at most the bound for each workload |
| Rules.QueueShareOfTTFT | internal/recommender/rules.go:874-883 | a measured share never exceeds 100, nor falls below 0 for a queue time that is not negative |
| RuleLaws.NeverGainsFromMissingData | internal/recommender/rules.go:99-863 | making any measurements in any snapshots unmeasured never makes a rule fire that did not |
| RuleLaws.BlankFiresOnlyObservability | internal/recommender/rules.go:809-863 | with nothing measured only the two observability rules can fire |
| Window.SustainedHoldsNowExactly | internal/recommender/recommender.go:128-142 | whatever condition is sustained holds of the newest snapshot if and only if no tail is asked for, the tail is too short to sustain anything, or the snapshot is in the tail |
| EvidenceLaws.JustifiedByEvidence | internal/recommender/rules.go:124-863 | every comparison a finding prints holds between the two numbers it prints; only a sustained condition asks that the newest snapshot be in the tail |
| EvidenceLaws.EvidenceExactly | internal/recommender/rules.go:124-765 | whatever window a sustained rule fired over, its condition holds of the newest snapshot if and only if everything it compares is measured there and the evidence holds |
| EvidenceLaws.HoldsOnInventedZero | internal/recommender/rules.go:165-205 | for any sustain window and a positive idle limit, a window on which the evidence holds, on a zero printed for an unmeasured GPU, and the condition does not |
| EvidenceLaws.PrintsMeasurementsExactly | internal/recommender/rules.go:124-863 | every number a finding prints is a measurement of the newest snapshot if and only if, for three rules, the measurement they add is there; the other sixteen print nothing unmeasured |
| EvidenceLaws.PrintsInventedZero | internal/recommender/rules.go:165-205 | for any thresholds, a Triton workload whose queue is reported with a cache usage of zero that nothing measured |
| EvidenceLaws.PrintedComparisonsDecideExactly | internal/recommender/rules.go:124-863 | the comparisons a finding prints tell of every snapshot whether it meets the rule if and only if the rule is one of thirteen; for each of the other six, whatever it fired on, some snapshot passes them all and fails the rule |
| EvidenceLaws.PrintsWhatItLookedAt | internal/recommender/rules.go:124-863 | a finding prints every measurement its rule looked at: where each reads what was printed, the rule is met, whatever else is there |
| RuleLaws.SaturatedOrIdleExactly | internal/recommender/thresholds.go:132-137 | the saturated-GPU and idle-GPU rules never fire together if and only if the low threshold does not exceed the high one; validated thresholds ensure it |
| RuleLaws.OneExplanationForTTFT | internal/recommender/rules.go:364-449 | a slow first token with both times measured gets exactly one of the two explanations |
| RuleLaws.NeverGrowingWhenDraining | internal/recommender/rules.go:207-245 | the queue-growing rule never fires on a flat or draining queue of any depth or length, with or without gaps |
| RuleLaws.LongerSustainFiresLess | internal/recommender/recommender.go:128-142 | a longer sustain window never adds a finding, except for the trend rule |
| RuleLaws.LongerSustainSeesTrend | internal/recommender/recommender.go:156-169 | for any thresholds, a window on which the trend rule fires only with the longer one |
| RuleLaws.FiresAtTheFloor | internal/recommender/rules.go:541-548 | the prefix-cache rule fires at exactly 50 prompt tokens per second and not below |
| Suppression.LosesNothingExactly | internal/recommender/recommender.go:241-285 | for any supersedes relation: every fired rule is always reported or reached by a chain from a reported one if and only if the relation has no cycle |
| Suppression.SomethingReported | internal/recommender/recommender.go:274-285 | with no cycle, if anything fired something is reported |
| Suppression.CycleSilencesItself | internal/recommender/recommender.go:268-285 | a cycle of fired rules reports nothing at all |
| Engine.RunRules | internal/recommender/recommender.go:247-272 | the loop collects exactly what fired and exactly what that supersedes |
| Engine.Run | internal/recommender/recommender.go:241-293 | the result is the unsuppressed findings in strict order, whatever order the rules run in and the map is read in |
| Engine.SomethingToReport | internal/recommender/recommender.go:279-293 | with an acyclic relation, a workload on which anything fired has a finding in its report |
| Engine.NoProblemLost | internal/recommender/recommender.go:274-285 | with an acyclic relation every rule that fired is explained by a chain from a reported one |
| Analyze.BuiltInAcyclic | internal/recommender/rules.go:98-122 | the built-in supersedes relation has no cycle |
| Analyze.WholeSeconds | internal/recommender/recommender.go:271 | whole seconds, truncated towards zero for either sign |
| Analyze.AnalyzeWorkload | internal/recommender/recommender.go:241-293 | one workload's output is the ordered, unsuppressed findings of the built-in rules |
| Analyze.RevealedByMissingData | internal/recommender/recommender.go:273-285 | a finding that missing data adds to a report had fired before, superseded by a rule that no longer fires |
| Analyze.SymptomReportedExactly | internal/recommender/rules.go:451-486 | high end-to-end latency is reported if and only if it fires and none of the four rules that supersede it does |
| Analyze.SymptomBesideCause | internal/recommender/rules.go:467-473 | for any thresholds, a workload on which it is reported beside an exhausted KV cache |
| Analysis.AnalyzeAll | internal/recommender/recommender.go:221-239 | the output is the workloads' reports in key order, with the newest snapshot standing in for an empty history |
| Analysis.Canonical | internal/recommender/recommender.go:211-239 | for distinct keys the output is the same for every permutation of the input and every map iteration order |
| Analysis.AnalysisOrdered | internal/recommender/recommender.go:225-293 | the output is strictly ordered by key, severity rank and code |
| Basics.StrLessExactly | internal/recommender/recommender.go:225-226 | the order on keys and codes is Go's: up to some place they agree, and there the smaller one ends or has the smaller byte |
| Analysis.IdentityInjective | internal/recommender/recommender.go:307-312 | an identifier determines the rule and the workload key |
| Analysis.IdentitiesDistinct | internal/recommender/recommender.go:307-312 | all identifiers of one output are distinct |
| Analysis.AnalysisJustified | internal/recommender/recommender.go:221-239 | every finding in the output is justified by its own evidence when each newest snapshot is in the tail of its history |
| Analysis.NoneSupersedesAnother | internal/recommender/recommender.go:273-285 | no finding in the output supersedes another one about the same workload |
| Analysis.NothingUnreported | internal/recommender/recommender.go:241-293 | whatever fires on a workload, a chain of superseding rules leads to it from a finding in the output |
| FindingLaws.ReportedExactly | internal/recommender/rules.go:99-863 | by the printed code and in the words of the rule catalogue (docs/RECOMMENDATIONS.md:34-312): a code is reported for a workload if and only if what it says of the newest sample and of every sample of the tail is so, on its runtime, and no code that suppresses it says something true |
| FindingLaws.FindingDescribed | internal/recommender/recommender.go:253-272 | a finding names the workload, runtime and time of the newest snapshot, is critical, informational or a warning by its printed code, and reports the whole seconds from the first to the last sample of the tail, or zero for the two codes about telemetry |
| FindingLaws.CriticalFirst | internal/recommender/recommender.go:225-293 | the output is in key order, and within a workload critical codes precede the others and informational ones follow them, then by code |
| FindingLaws.OpenExactlyAnnounced | internal/alerting/sender.go:207-251 | after a Notify of an analysis that dropped nothing the open alerts are exactly the findings whose codes the minimum severity asks for; for a minimum of warning, all but the informational ones |
| StoreAnalysis.WindowEndsInLatest | internal/telemetry/store.go:116-145 | an undisturbed pair of Latest and History reads gives windows that end in the newest snapshot |
| StoreAnalysis.LatestStaysInTail | internal/api/server.go:294 | Adds between the API handler's two reads do no harm while the snapshot read first is retained and no older than the sustain window before the newest |
| StoreAnalysis.ReadsApartUnjustified | internal/api/server.go:294 | a run of the store, Latest read after its first Add and History after its last, that reports a finding its own evidence refutes |
| StoreAnalysis.StoreAnalysed | internal/recommender/recommender.go:211-239 | after any run of the store, an analysis of it reports every identifier once and only justified findings |
| Cycle.NoSampleAfterReturn | internal/collector/collector.go:309-349 | once ScrapeAll has returned no scrape can write to the store |
| Cycle.StepKeepsInv | internal/collector/collector.go:274-306 | every step of collector or scrape keeps what has been read equal to what the store holds until the analysis is done |
| Cycle.ReportsSound | cmd/control-plane/main.go:182-188 | in every interleaving each analysis handed to the sender names every finding once and justifies it by its own evidence |
| Cycle.AlertsJustified | cmd/control-plane/main.go:186-187 | so every payload the sender ever accepts is justified by the evidence it carries |
| Cycle.AlertsTellFindings | cmd/control-plane/main.go:182-188 | every payload accepted as firing or escalated repeats a finding of one of the collector's analyses in full, evidence that holds included, with the severity of its code |
| StoreAnalysis.RepeatedAnalysisSuppressed | internal/alerting/sender.go:207-236 | handed again to a sender that has converged on it, an analysis enqueues nothing and suppresses exactly one finding for each that is open |
| Rates.RateTracker.Rate | internal/collector/rate.go:39-60 | answers from the previous reading, always stores the new one, touches no other key |
| Rates.RateExactly | internal/collector/rate.go:39-60 | a rate is reported if and only if the counter was seen, time moved on and it did not go back; never negative, and times the elapsed time it is the increase |
| Rates.CountersIndependent | internal/collector/rate.go:39-60 | over any run what is reported for a counter depends on its own readings alone |
| Rates.RatesTelescope | internal/collector/rate.go:39-60 | with increasing times, rates times elapsed times add up to last minus first plus exactly what resets took away |
| Rates.TelescopesExactly | internal/collector/rate.go:39-60 | they add up to last minus first if and only if every interval of the stretch reports a rate |
| Rates.NoRateWithoutBaseline | internal/collector/rate.go:45-58 | a first reading, a reset and a clock that has not moved report no rate |
| ApplyRates.TrackerKeyInjective | internal/collector/collector.go:401-407 | a tracker entry determines the target's key and the counter |
| Targets.Check | internal/collector/collector.go:226-238 | the loop accepts exactly the lists in which every target has a name and no key occurs twice |
| Targets.KeysCollideExactly | internal/collector/collector.go:50-55 | two targets the configuration tells apart share a key if and only if one has no namespace and is named like the other's key |
| Targets.RefusedExactly | internal/config/config.go:351-360 | a list that passes the configuration's check is refused by the collector if and only if two of its targets collide so |
| Targets.ConfigTakesCollision | internal/config/config.go:351-360 | two targets the configuration takes and the collector refuses |
| Targets.TrackerApart | internal/collector/collector.go:401-407 | no two counters of targets the collector accepted share a tracker entry |
| Targets.SharedExactly | internal/telemetry/types.go:99-104 | targets the configuration tells apart share a store series, and every tracker entry, if and only if they collide |
| ApplyRates.ReadAll | internal/collector/collector.go:400-440 | each counter's rate comes from the tracker as it was before the scrape, whatever the others did to it |
| ApplyRates.Apply | internal/collector/collector.go:400-441 | each of the seven fields from the readings under its own counters' names: newly measured exactly with a reset-free baseline, and then times the elapsed time the increase; nothing else changes; the tracker holds each counter's own reading |
| ApplyRates.AppliedReads | internal/collector/collector.go:400-441 | the same of the snapshot the laws below are about |
| ApplyRates.OtherReadingsDoNotShow | internal/collector/collector.go:409-421 | a rate does not change when only other counters' readings do |
| ApplyRates.RecordedAll | internal/collector/rate.go:39-60 | after a scrape each counter it exposes has its own reading, and every other entry is as it was |
| ApplyRates.ErrorRateIsPercentage | internal/collector/collector.go:427-431 | a measured error rate lies in [0, 100], whatever the counters and the tracker hold |
| ApplyRates.AbortRateExactly | internal/collector/collector.go:432-434 | a measured abort rate is at most 100 if and only if, over the readings, the aborts' increase times the finished requests' interval is within the finished requests' increase times the aborts' interval |
| ApplyRates.SameBaselineExactly | internal/collector/collector.go:432-434 | when the scrape before exposed both counters it is a percentage if and only if aborts grew no more than finished requests |
| ApplyRates.AbortRateCanExceed | internal/collector/collector.go:432-434 | two scrapes into an empty tracker, neither with more aborts than finished requests, between which a restart goes unnoticed and after which it is 200 percent |
| ApplyRates.GrowingIsPercentage | internal/collector/collector.go:432-434 | over any history in which no reason's series goes back or disappears a measured abort rate is a percentage |
| ApplyRates.HitRateExactly | internal/collector/collector.go:436-440 | a measured prefix-cache hit rate is at most 100 if and only if, over the readings, the hits' increase times the queries' interval is within the queries' increase times the hits' interval |
| ApplyRates.ScrapeNext | internal/collector/collector.go:400-441 | one more call on the tracker those scrapes left gives that abort rate and the tracker after all of them |
| ScrapeAll.ScrapesBounded | internal/collector/collector.go:309-328 | in every interleaving at most Concurrency scrapes run; on return none runs, and the targets scraped, each once, are a prefix of the list, all of it unless cancelled |
| ScrapeAll.NeverStuck | internal/collector/collector.go:309-328 | with at least one slot some step is always possible until it has returned |
| ScrapeAll.AlwaysReturns | internal/collector/collector.go:309-328 | no run exceeds six steps for each target and three more, and one that can go no further has returned |

## Left out

- HTTP, JSON, SQL, Kubernetes, logging, configuration files and the command line: plumbing around the modelled logic.
- Floating-point rounding, overflow and number syntax: measurements are reals and number text is a codec with the round trips Go's formatter and parser have on representable values (`Text.CodecExists` meets them all); printing any number is taken to give text that parses.
- Unicode: strings are byte strings, so trimming and splitting know the six ASCII spaces and lower-casing the ASCII letters only.
- HistogramText.HistogramObject.Render: metric names and labels are parameters and label values go through the escaping printer; without any label the source would print a comma before `le`.
- Explanations, suggested actions, titles, units and source metrics of findings: no decision depends on them.
- Quantile.EstimateQuantile: bucket counts must be finite and no boundary negative infinity, because infinite counts leave the reals.
- Vllm.ReadPercentiles: under the same restriction to finite bucket counts and boundaries above negative infinity.
- Vllm.PercentilesTogether: under the same restriction; interpolating from a negative infinite boundary leaves the reals.
- Vllm.Read: under the same restriction to finite bucket counts; the gauges of the adapter (requests running and waiting, cache usage) and the list of missing metrics are plain sums, maxima and lookups.
- Quantile.Buckets: an infinite count is read as zero, where the source adds the infinity.
- AlertSender.Sender.Deliver: a Notify beside it is covered by the state machine, not by this method.
- AlertSender.Sender.Drain: likewise; a Notify that enqueues while it drains is covered by the state machine.
- AlertSender.Sender.Await: likewise; between SignalStop and Await any method may run.
- AlertSender.Sender.Close: likewise; a Notify between its halves is a call between SignalStop and Await.
- AlertSafety.ReplayRebuildsFinding: one way only; a failed event can be made up for by an earlier one of the same effect.
- Targets.Check: the runtime and URL checks on a target are left out.
- AlertSender.Sender.Stats: the loads are interleaved with the delivery goroutine, not with a Notify in another goroutine.
- ApplyRates.ReadAll: reads the counters in the source's order but applies them afterwards, which only the local snapshot could notice.
- ScrapeAll.AlwaysReturns: every scrape is taken to return, in any number of other steps; timeouts are not modelled.
- The Timescale sink, the store's forwarding to it and the compaction of its backing array: memory and storage, not contents.
- SummaryQuantile, Max, Names, All, Workloads, forget, the Triton and DCGM adapters, the API, the store-size setter and the statistics callbacks of the registry: simple beside what is modelled.
- Backoff delays and clock readings: abstract times passed in by the caller.
