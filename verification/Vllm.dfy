/** The latency percentiles and the counters of the vLLM adapter
    (internal/runtime/vllm/vllm.go). */
module Vllm {
  import opened Basics
  import opened Telemetry
  import opened Text
  import opened Promtext
  import opened Quantile
  import opened QuantileLaws
  import C = ApplyRates

  const TTFT := "vllm:time_to_first_token_seconds"
  const E2E := "vllm:e2e_request_latency_seconds"
  const QUEUE_TIME := "vllm:request_queue_time_seconds"
  const REQUEST_SUCCESS := "vllm:request_success_total"

  datatype Percentiles = Percentiles(p50: Metric, p95: Metric, p99: Metric)

  datatype Latencies = Latencies(ttft: Percentiles, e2e: Percentiles, queueTimeP95: Metric)

  /** Seconds to milliseconds. */
  function QuantileMs(v: Option<real>): Metric {
    ObservedIf(Finite(if v.Some? then v.value * 1000.0 else 0.0), v.Some?)
  }

  function PercentilesOf(bs: seq<Bucket>): Percentiles {
    Percentiles(QuantileMs(QuantileOf(bs, 0.5)), QuantileMs(QuantileOf(bs, 0.95)), QuantileMs(QuantileOf(bs, 0.99)))
  }

  function Selector(modelName: string): Labels {
    if modelName == "" then map[] else map["model_name" := modelName]
  }

  function RawOf(mf: Families, family: string, want: Labels, c: Codec): seq<Bucket> {
    RawBuckets(Select(mf, family + "_bucket", want), c)
  }

  /** The metric is that many seconds, in milliseconds, or unmeasured. */
  predicate InMs(m: Metric, seconds: Option<real>) {
    match seconds
    case None => !m.ok
    case Some(s) => m.ok && m.value == 1000.0 * s
  }

  predicate ArePercentiles(p: Percentiles, bs: seq<Bucket>) {
    && InMs(p.p50, QuantileOf(bs, 0.5)) && InMs(p.p95, QuantileOf(bs, 0.95)) && InMs(p.p99, QuantileOf(bs, 0.99))
  }

  /** The three percentiles of one family. */
  method ReadPercentiles(mf: Families, family: string, want: Labels, c: Codec)
    returns (p: Percentiles, ghost bs: seq<Bucket>)
    requires FiniteCounts(Select(mf, family + "_bucket", want), c)
    ensures IsDistribution(RawOf(mf, family, want, c), bs) && p == PercentilesOf(bs) && ArePercentiles(p, bs)
  {
    var r50, bs50 := EstimateQuantile(mf, family, 0.5, want, c);
    var r95, bs95 := EstimateQuantile(mf, family, 0.95, want, c);
    var r99, bs99 := EstimateQuantile(mf, family, 0.99, want, c);
    p := Percentiles(QuantileMs(r50), QuantileMs(r95), QuantileMs(r99));
    ghost var raw := RawOf(mf, family, want, c);
    if raw == [] {
      bs := [];
    } else {
      bs := bs50;
      RawEdges(Select(mf, family + "_bucket", want), c);
      DistributionUnique(raw, raw, bs, bs95);
      DistributionUnique(raw, raw, bs, bs99);
    }
  }

  /** p50, p95 and p99 are measured together, and then in order: whatever the payload,
      provided no populated bucket ends below zero. */
  lemma PercentilesTogether(raw: seq<Bucket>, bs: seq<Bucket>)
    requires IsDistribution(raw, bs)
    requires forall b :: b in raw ==> b.le != NaN && b.le != NegInf
    ensures var p := PercentilesOf(bs);
            && (p.p50.ok <==> p.p95.ok) && (p.p95.ok <==> p.p99.ok)
            && (p.p50.ok && FirstEdgeOk(bs) ==> p.p50.value <= p.p95.value <= p.p99.value)
  {
    DistributionCumulative(raw, bs);
    DefinedTogether(bs, 0.5);
    DefinedTogether(bs, 0.95);
    DefinedTogether(bs, 0.99);
    if QuantileOf(bs, 0.5).Some? && FirstEdgeOk(bs) {
      QuantileOrder(bs, 0.5, 0.95);
      QuantileOrder(bs, 0.95, 0.99);
    }
  }

  function TotalOf(t: Total): Option<Number> {
    if t.found then Some(t.value) else None
  }

  /** The metric a counter is the sum of; aborts and failures are not read that way. */
  function MetricOf(c: C.Counter): string {
    match c
    case GenerationTokens => "vllm:generation_tokens_total"
    case PromptTokens => "vllm:prompt_tokens_total"
    case Preemptions => "vllm:num_preemptions_total"
    case PrefixCacheQueries => "vllm:prefix_cache_queries_total"
    case PrefixCacheHits => "vllm:prefix_cache_hits_total"
    case _ => REQUEST_SUCCESS
  }

  /** The raw counter the collector turns into a rate, when the target exposes it. vLLM
      has no failure counter. */
  function CounterOf(mf: Families, want: Labels, c: C.Counter): Option<Number> {
    match c
    case RequestsFailed => None
    case RequestsAborted => TotalOf(SumOf(Select(mf, REQUEST_SUCCESS, want["finished_reason" := "abort"])))
    case _ =>
      var t := SumOf(Select(mf, MetricOf(c), want));
      if t.found && t.value.Finite? then Some(t.value) else None
  }

  ghost predicate CountersMatch(mf: Families, want: Labels, counters: map<C.Counter, Number>) {
    && (forall c: C.Counter :: c in counters <==> CounterOf(mf, want, c).Some?)
    && (forall c :: c in counters ==> counters[c] == CounterOf(mf, want, c).value)
  }

  const SUMMED: seq<C.Counter> :=
    [C.GenerationTokens, C.PromptTokens, C.Preemptions, C.PrefixCacheQueries, C.PrefixCacheHits,
                                   C.RequestsFinished]

  /** Sums one counter after another into the map, and the aborts last. */
  method ReadCounters(mf: Families, want: Labels) returns (counters: map<C.Counter, Number>)
    ensures CountersMatch(mf, want, counters)
  {
    counters := map[];
    for i := 0 to |SUMMED|
      invariant forall c :: c in counters <==> c in SUMMED[..i] && CounterOf(mf, want, c).Some?
      invariant forall c :: c in counters ==> counters[c] == CounterOf(mf, want, c).value
    {
      var c := SUMMED[i];
      assert SUMMED[..i + 1] == SUMMED[..i] + [c];
      var v, found := Sum(mf, MetricOf(c), want);
      assert c != C.RequestsFailed && c != C.RequestsAborted;
      if found && v.Finite? {
        counters := counters[c := v];
      }
    }
    assert SUMMED[..|SUMMED|] == SUMMED;
    EveryOtherSummed();
    var aborted, found := Sum(mf, REQUEST_SUCCESS, want["finished_reason" := "abort"]);
    if found {
      counters := counters[C.RequestsAborted := aborted];
    }
  }

  lemma EveryOtherSummed()
    ensures forall c: C.Counter :: c in SUMMED <==> c != C.RequestsFailed && c != C.RequestsAborted
  {
    forall c: C.Counter | c != C.RequestsFailed && c != C.RequestsAborted ensures c in SUMMED {
      match c
      case GenerationTokens => assert SUMMED[0] == c;
      case PromptTokens => assert SUMMED[1] == c;
      case Preemptions => assert SUMMED[2] == c;
      case PrefixCacheQueries => assert SUMMED[3] == c;
      case PrefixCacheHits => assert SUMMED[4] == c;
      case RequestsFinished => assert SUMMED[5] == c;
    }
  }

  /** The percentiles are those of the family's buckets, of one model if one is named. */
  ghost predicate PercentilesRead(mf: Families, family: string, modelName: string, p: Percentiles, c: Codec) {
    var want: Labels := if modelName == "" then map[] else map["model_name" := modelName];
    exists bs :: IsDistribution(RawOf(mf, family, want, c), bs) && ArePercentiles(p, bs)
  }

  /** The counter is the family's sum, when there is a finite one. */
  predicate IsSum(counters: map<C.Counter, Number>, counter: C.Counter, mf: Families, family: string, want: Labels) {
    var t := SumOf(Select(mf, family, want));
    if t.found && t.value.Finite? then counter in counters && counters[counter] == t.value else counter !in counters
  }

  /** Each counter by the name vLLM gives it. There is none of failures, and aborts are
      finished requests with that reason, passed on even when their sum is not finite. */
  predicate CountersRead(mf: Families, modelName: string, counters: map<C.Counter, Number>) {
    var want: Labels := if modelName == "" then map[] else map["model_name" := modelName];
    var aborts := SumOf(Select(mf, "vllm:request_success_total", want["finished_reason" := "abort"]));
    && IsSum(counters, C.GenerationTokens, mf, "vllm:generation_tokens_total", want)
    && IsSum(counters, C.PromptTokens, mf, "vllm:prompt_tokens_total", want)
    && IsSum(counters, C.Preemptions, mf, "vllm:num_preemptions_total", want)
    && IsSum(counters, C.PrefixCacheQueries, mf, "vllm:prefix_cache_queries_total", want)
    && IsSum(counters, C.PrefixCacheHits, mf, "vllm:prefix_cache_hits_total", want)
    && IsSum(counters, C.RequestsFinished, mf, "vllm:request_success_total", want)
    && C.RequestsFailed !in counters
    && (if aborts.found then C.RequestsAborted in counters && counters[C.RequestsAborted] == aborts.value
        else C.RequestsAborted !in counters)
  }

  lemma SumRead(mf: Families, want: Labels, counters: map<C.Counter, Number>, counter: C.Counter)
    requires CountersMatch(mf, want, counters) && counter != C.RequestsFailed && counter != C.RequestsAborted
    ensures IsSum(counters, counter, mf, MetricOf(counter), want)
  {
  }

  lemma MetricNames()
    ensures MetricOf(C.GenerationTokens) == "vllm:generation_tokens_total"
    ensures MetricOf(C.PromptTokens) == "vllm:prompt_tokens_total"
    ensures MetricOf(C.Preemptions) == "vllm:num_preemptions_total"
    ensures MetricOf(C.PrefixCacheQueries) == "vllm:prefix_cache_queries_total"
    ensures MetricOf(C.PrefixCacheHits) == "vllm:prefix_cache_hits_total"
    ensures MetricOf(C.RequestsFinished) == REQUEST_SUCCESS == "vllm:request_success_total"
  {
  }

  lemma CountersAreRead(mf: Families, modelName: string, counters: map<C.Counter, Number>)
    requires CountersMatch(mf, Selector(modelName), counters)
    ensures CountersRead(mf, modelName, counters)
  {
    var want := Selector(modelName);
    MetricNames();
    SumRead(mf, want, counters, C.GenerationTokens);
    SumRead(mf, want, counters, C.PromptTokens);
    SumRead(mf, want, counters, C.Preemptions);
    SumRead(mf, want, counters, C.PrefixCacheQueries);
    SumRead(mf, want, counters, C.PrefixCacheHits);
    SumRead(mf, want, counters, C.RequestsFinished);
  }

  method Read(mf: Families, modelName: string, c: Codec) returns (l: Latencies, counters: map<C.Counter, Number>)
    requires forall f :: f in [TTFT, E2E, QUEUE_TIME] ==>
             FiniteCounts(Select(mf, f + "_bucket", Selector(modelName)), c)
    ensures PercentilesRead(mf, "vllm:time_to_first_token_seconds", modelName, l.ttft, c)
    ensures PercentilesRead(mf, "vllm:e2e_request_latency_seconds", modelName, l.e2e, c)
    ensures exists p ::
              PercentilesRead(mf, "vllm:request_queue_time_seconds", modelName, p, c) && p.p95 == l.queueTimeP95
    ensures CountersRead(mf, modelName, counters)
  {
    var sel := Selector(modelName);
    assert TTFT in [TTFT, E2E, QUEUE_TIME] && E2E in [TTFT, E2E, QUEUE_TIME] && QUEUE_TIME in [TTFT, E2E, QUEUE_TIME];
    var ttft, bs1 := ReadPercentiles(mf, TTFT, sel, c);
    var e2e, bs2 := ReadPercentiles(mf, E2E, sel, c);
    var queue, bs3 := ReadPercentiles(mf, QUEUE_TIME, sel, c);
    l := Latencies(ttft, e2e, queue.p95);
    assert PercentilesRead(mf, QUEUE_TIME, modelName, queue, c);
    counters := ReadCounters(mf, sel);
    CountersAreRead(mf, modelName, counters);
  }

  // ── Counters ────────

  /** Counter values: finite and not negative, or NaN and ignored. */
  predicate CounterSamples(xs: seq<Sample>) {
    forall i :: 0 <= i < |xs| ==> xs[i].value == NaN || (xs[i].value.Finite? && xs[i].value.r >= 0.0)
  }

  function AddIf(t: Total, selected: bool, v: Number): Total {
    if selected && v != NaN then Total(Plus(t.value, v), true) else t
  }

  /** The narrower sum is non-negative, no larger, and found only with the wider one. */
  predicate Within(n: Total, w: Total) {
    && w.value.Finite? && n.value.Finite? && 0.0 <= n.value.r <= w.value.r
    && (n.found ==> w.found)
  }

  lemma WithinStep(n: Total, w: Total, narrow: bool, wide: bool, v: Number)
    requires Within(n, w) && (narrow ==> wide)
    requires v == NaN || (v.Finite? && v.r >= 0.0)
    ensures Within(AddIf(n, narrow, v), AddIf(w, wide, v))
  {
  }

  lemma SelectLast(before: seq<Sample>, s: Sample, want: Labels)
    ensures SumOf(SelectFrom(before + [s], want)) ==
            AddIf(SumOf(SelectFrom(before, want)), Matches(s.labels, want), s.value)
  {
    KeepAppend(before, [s], (x: Sample) => Matches(x.labels, want));
    var kept := SelectFrom(before, want);
    assert (kept + [s])[..|kept|] == kept;
    assert kept + [] == kept;
  }

  lemma {:induction false} NarrowerSum(all: seq<Sample>, wide: Labels, narrow: Labels)
    requires CounterSamples(all)
    requires forall k :: k in wide ==> k in narrow && narrow[k] == wide[k]
    ensures Within(SumOf(SelectFrom(all, narrow)), SumOf(SelectFrom(all, wide)))
  {
    if all != [] {
      var before, s := all[..|all| - 1], all[|all| - 1];
      NarrowerSum(before, wide, narrow);
      assert all == before + [s];
      SelectLast(before, s, wide);
      SelectLast(before, s, narrow);
      WithinStep(SumOf(SelectFrom(before, narrow)), SumOf(SelectFrom(before, wide)),
                 Matches(s.labels, narrow), Matches(s.labels, wide), s.value);
    }
  }

  /** Aborted requests are among the finished ones: never counted without them, and
      never more of them. */
  lemma AbortedWithinFinished(mf: Families, want: Labels)
    requires CounterSamples(Get(mf, REQUEST_SUCCESS))
    requires "finished_reason" !in want
    ensures var finished, aborted := CounterOf(mf, want, C.RequestsFinished), CounterOf(mf, want, C.RequestsAborted);
            && (aborted.Some? ==> finished.Some?)
            && (aborted.Some? ==> aborted.value.Finite? && finished.value.Finite? &&
                                  0.0 <= aborted.value.r <= finished.value.r)
  {
    NarrowerSum(Get(mf, REQUEST_SUCCESS), want, want["finished_reason" := "abort"]);
  }

  /** With an infinite sample they come apart: the sum of finished requests is then not a
      measurement, but the aborts, which are not checked for that, are still passed on. */
  lemma AbortsWithoutFinished(mf: Families, stopped: Labels, aborted: Labels)
    requires Get(mf, REQUEST_SUCCESS) ==
             [Sample(REQUEST_SUCCESS, stopped, PosInf), Sample(REQUEST_SUCCESS, aborted, Finite(1.0))]
    requires LabelOf(stopped, "finished_reason") != "abort" && LabelOf(aborted, "finished_reason") == "abort"
    ensures CounterOf(mf, map[], C.RequestsFinished) == None
    ensures CounterOf(mf, map[], C.RequestsAborted) == Some(Finite(1.0))
  {
    var all, aborts: Labels := Get(mf, REQUEST_SUCCESS), map["finished_reason" := "abort"];
    var none: Labels := map[];
    assert all == [] + [all[0]] + [all[1]];
    assert SelectFrom([], none) == [] && SelectFrom([], aborts) == [];
    SelectLast([], all[0], none);
    SelectLast([all[0]], all[1], none);
    SelectLast([], all[0], aborts);
    SelectLast([all[0]], all[1], aborts);
    assert [] + [all[0]] == [all[0]] && [all[0]] + [all[1]] == all;
    assert none["finished_reason" := "abort"] == aborts;
  }
}
