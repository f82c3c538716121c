/** From an engine's observations to the percentiles the adapter reads. */
module VllmLaws {
  import opened Basics
  import opened Telemetry
  import opened Text
  import opened Promtext
  import opened Exposition
  import opened Histogram
  import opened HistogramText
  import opened Quantile
  import V = Vllm

  function WantModel(modelName: string): Labels {
    if modelName == "" then map[] else map["model_name" := modelName]
  }

  lemma InSeconds(bounds: seq<real>, m: Metric, seconds: Option<real>, x: Number)
    requires V.InMs(m, seconds) && seconds.Some? && Faithful(bounds, seconds.value, x)
    ensures m.ok && Faithful(bounds, m.value / 1000.0, x)
  {
    assert m.value / 1000.0 == seconds.value;
  }

  /** A quantile of what engines printed, read in milliseconds, is faithful to the
      observation of that rank among all they observed, in seconds. */
  lemma QuantileIsFaithful(family: string, bounds: seq<real>, engines: seq<EngineScrape>, want: Labels, c: Codec,
                           mf: Families, bs: seq<Bucket>, q: real, m: Metric, sorted: seq<Number>, k: nat)
    requires ValidCodec(c) && Exact(bounds, engines, c) && ValidMetricName(family)
    requires AscendingBounds(bounds) && bounds != [] && 0.0 < q < 1.0
    requires forall e :: e in engines ==> Selects(want, e.labels)
    requires ParseText(Print(Payload(family, bounds, engines, c)), c) == Some(mf)
    requires IsDistribution(V.RawOf(mf, family, want, c), bs) && V.InMs(m, QuantileOf(bs, q))
    requires Ranked(Pooled(Observations(engines)), q, sorted, k)
    ensures m.ok && 0 < k <= |sorted| && Faithful(bounds, m.value / 1000.0, sorted[k - 1])
  {
    ScrapedQuantileFaithful(family, bounds, engines, want, c, bs, q, sorted, k);
    InSeconds(bounds, m, QuantileOf(bs, q), sorted[k - 1]);
  }

  /** One of the three percentiles, and which. */
  predicate IsPercentile(m: Metric, q: real, p: V.Percentiles) {
    (q == 0.5 && m == p.p50) || (q == 0.95 && m == p.p95) || (q == 0.99 && m == p.p99)
  }

  lemma PercentileOfBuckets(p: V.Percentiles, bs: seq<Bucket>, q: real, m: Metric)
    requires V.ArePercentiles(p, bs) && IsPercentile(m, q, p)
    ensures V.InMs(m, QuantileOf(bs, q)) && 0.0 < q < 1.0
  {
  }

  /** So is each of the three percentiles the adapter reads. */
  lemma PercentileFaithful(family: string, bounds: seq<real>, engines: seq<EngineScrape>, modelName: string, c: Codec,
                           mf: Families, p: V.Percentiles, q: real, m: Metric, sorted: seq<Number>, k: nat)
    requires ValidCodec(c) && Exact(bounds, engines, c) && ValidMetricName(family)
    requires AscendingBounds(bounds) && bounds != []
    requires forall e :: e in engines ==> Selects(WantModel(modelName), e.labels)
    requires ParseText(Print(Payload(family, bounds, engines, c)), c) == Some(mf)
    requires V.PercentilesRead(mf, family, modelName, p, c) && IsPercentile(m, q, p)
    requires Ranked(Pooled(Observations(engines)), q, sorted, k)
    ensures m.ok && 0 < k <= |sorted| && Faithful(bounds, m.value / 1000.0, sorted[k - 1])
  {
    var want := WantModel(modelName);
    var bs :| IsDistribution(V.RawOf(mf, family, want, c), bs) && V.ArePercentiles(p, bs);
    PercentileOfBuckets(p, bs, q, m);
    QuantileIsFaithful(family, bounds, engines, want, c, mf, bs, q, m, sorted, k);
  }
}
