/** What holds of all nineteen rules: when each fires, that missing data never makes one
    fire, that what they report is justified by the evidence they attach, and which
    diagnoses exclude each other. */
module RuleLaws {
  import opened Basics
  import opened Telemetry
  import opened Rules
  import W = Window

  /** The window ends in the newest snapshot. */
  predicate EndsInLatest(e: Eval) {
    e.window != [] ==> Last(e.window) == e.latest
  }

  // ── When a rule fires ────────

  predicate Fires(code: Code, e: Eval) {
    Evaluate(code, e).Some?
  }

  /** The condition a rule needs sustained, if it has one. */
  function Held(code: Code, t: Thresholds): Option<Snapshot -> bool> {
    match code
    case QueueWithSaturatedGPU => Some(QueuedAndBusy(t))
    case QueueWithIdleGPU => Some(QueuedAndIdle(t))
    case KVNearCapacity => Some(KVCacheHigh(t))
    case E2ELatencyHigh => Some(P95LatencyHigh(t))
    case GPUMemoryPressure => Some(GPUMemoryHigh(t))
    case ErrorRateHigh => Some(Failing(t))
    case ClientAborts => Some(Aborting(t))
    case AtReplicaCeiling => Some(Queued(t))
    case _ => None
  }

  /** What a rule asks of the newest snapshot alone. */
  predicate Guard(code: Code, s: Snapshot, t: Thresholds, now: Time) {
    match code
    case QueueGrowing => s.requestsWaiting.Above(t.queueWaitingRequests)
    case QueueDeferred =>
      && s.waitingDeferred.ok && s.waitingForCapacity.ok
      && s.waitingDeferred.value + s.waitingForCapacity.value > t.queueWaitingRequests
      && s.waitingDeferred.value > s.waitingForCapacity.value
    case KVPreemption => s.preemptionsPerSec.Above(t.preemptionsPerSec)
    case TTFTAdmissionBound =>
      && QueueShareOfTTFT(s).Some? && s.ttftP95Ms.Above(t.ttftP95Ms)
      && QueueShareOfTTFT(s).value >= t.queueShareOfTTFTPct
    case TTFTPrefillBound =>
      && QueueShareOfTTFT(s).Some? && s.ttftP95Ms.Above(t.ttftP95Ms)
      && QueueShareOfTTFT(s).value < t.queueShareOfTTFTPct
    case TailLatencyGap =>
      && s.p95LatencyMs.Above(0.0) && s.p99LatencyMs.ok
      && s.p99LatencyMs.value / s.p95LatencyMs.value > t.tailRatioP99P95
    case PrefixCacheIneffective =>
      && s.prefixCacheHitRatePct.Below(t.prefixCacheHitLowPct)
      && s.promptTokensPerSec.ok && s.promptTokensPerSec.value >= MIN_PROMPT_TOKENS_PER_SEC
    case LowTokenThroughput =>
      s.gpuUtilizationPct.Above(t.gpuUtilHighPct) && s.tokensPerSecond.Below(t.tokensPerSecondLow)
    case AtReplicaCeiling =>
      s.replicas.ok && s.maxReplicas.Above(0.0) && s.replicas.value >= s.maxReplicas.value
    case ReplicasNotReady =>
      && s.replicas.ok && s.readyReplicas.ok && s.replicas.value - s.readyReplicas.value >= 1.0
      && s.requestsWaiting.Above(t.queueWaitingRequests)
    case TelemetryIncomplete => s.metricsMissing != []
    case TelemetryStale => s.Age(now) > t.staleAfter
    case _ => true
  }

  /** Every rule fires exactly when its guard on the newest snapshot holds, its sustained
      condition is sustained and, for the one trend rule, the queue is growing. */
  predicate Condition(code: Code, e: Eval) {
    && Guard(code, e.latest, e.t, e.now)
    && (Held(code, e.t).Some? ==> e.Sustained(Held(code, e.t).value))
    && (code == QueueGrowing ==> e.Trend(Waiting).Some? && e.Trend(Waiting).value > 1.0)
  }

  lemma HeldFiresExactly(code: Code, e: Eval)
    requires Held(code, e.t).Some?
    ensures Fires(code, e) <==> Condition(code, e)
  {
  }

  lemma LatestFiresExactly(code: Code, e: Eval)
    requires code == QueueGrowing || code == QueueDeferred || code == KVPreemption || code == ReplicasNotReady
    ensures Fires(code, e) <==> Condition(code, e)
  {
  }

  lemma FiresExactly(code: Code, e: Eval)
    ensures Fires(code, e) <==> Condition(code, e)
  {
    if Held(code, e.t).Some? {
      HeldFiresExactly(code, e);
    } else if code == QueueGrowing || code == QueueDeferred || code == KVPreemption || code == ReplicasNotReady {
      LatestFiresExactly(code, e);
    }
  }

  // ── Missing data ────────

  predicate LessMeasured(m: Metric, than: Metric) {
    m == than || !m.ok
  }

  /** A snapshot with some of its measurements, any of them, made unmeasured. */
  predicate Weaker(s: Snapshot, than: Snapshot) {
    && s.timestamp == than.timestamp
    && s.metricsMissing == than.metricsMissing
    && s.runtime == than.runtime
    && LessMeasured(s.requestsWaiting, than.requestsWaiting)
    && LessMeasured(s.requestsRunning, than.requestsRunning)
    && LessMeasured(s.waitingForCapacity, than.waitingForCapacity)
    && LessMeasured(s.waitingDeferred, than.waitingDeferred)
    && LessMeasured(s.requestRatePerSec, than.requestRatePerSec)
    && LessMeasured(s.tokensPerSecond, than.tokensPerSecond)
    && LessMeasured(s.promptTokensPerSec, than.promptTokensPerSec)
    && LessMeasured(s.p50LatencyMs, than.p50LatencyMs)
    && LessMeasured(s.p95LatencyMs, than.p95LatencyMs)
    && LessMeasured(s.p99LatencyMs, than.p99LatencyMs)
    && LessMeasured(s.ttftP50Ms, than.ttftP50Ms)
    && LessMeasured(s.ttftP95Ms, than.ttftP95Ms)
    && LessMeasured(s.ttftP99Ms, than.ttftP99Ms)
    && LessMeasured(s.queueTimeP95Ms, than.queueTimeP95Ms)
    && LessMeasured(s.gpuUtilizationPct, than.gpuUtilizationPct)
    && LessMeasured(s.gpuMemoryUsedPct, than.gpuMemoryUsedPct)
    && LessMeasured(s.kvCacheUsagePct, than.kvCacheUsagePct)
    && LessMeasured(s.preemptionsPerSec, than.preemptionsPerSec)
    && LessMeasured(s.prefixCacheHitRatePct, than.prefixCacheHitRatePct)
    && LessMeasured(s.errorRatePct, than.errorRatePct)
    && LessMeasured(s.abortRatePct, than.abortRatePct)
    && LessMeasured(s.replicas, than.replicas)
    && LessMeasured(s.readyReplicas, than.readyReplicas)
    && LessMeasured(s.maxReplicas, than.maxReplicas)
    && LessMeasured(s.scrapeDurationMs, than.scrapeDurationMs)
  }

  ghost predicate WeakerWindow(w: seq<Snapshot>, than: seq<Snapshot>) {
    |w| == |than| && forall i :: 0 <= i < |w| ==> Weaker(w[i], than[i])
  }

  lemma GuardNeedsData(code: Code, s: Snapshot, than: Snapshot, t: Thresholds, now: Time)
    requires Weaker(s, than) && Guard(code, s, t, now)
    ensures Guard(code, than, t, now)
  {
  }

  lemma HeldNeedsData(code: Code, s: Snapshot, than: Snapshot, t: Thresholds)
    requires Weaker(s, than) && Held(code, t).Some? && Held(code, t).value(s)
    ensures Held(code, t).value(than)
  {
  }

  lemma SameFirstIndex(n: nat, p: nat -> bool, q: nat -> bool)
    requires forall k: nat :: k < n ==> p(k) == q(k)
    ensures FirstIndex(n, 0, p) == FirstIndex(n, 0, q)
  {
    var i, j := FirstIndex(n, 0, p), FirstIndex(n, 0, q);
    assert i < j ==> q(i);
    assert j < i ==> p(j);
  }

  lemma SameTailStart(w: seq<Snapshot>, than: seq<Snapshot>, d: Duration)
    requires WeakerWindow(w, than) && w != [] && d > 0
    ensures W.TailStart(w, d) == W.TailStart(than, d)
  {
    assert Weaker(w[|w| - 1], than[|w| - 1]);
    var cutoff := W.Cutoff(w, d);
    var p, q := W.NotBefore(w, cutoff), W.NotBefore(than, cutoff);
    forall k: nat | k < |w| ensures p(k) == q(k) {
      assert Weaker(w[k], than[k]);
    }
    SameFirstIndex(|w|, p, q);
  }

  lemma WeakerPrefix(w: seq<Snapshot>, than: seq<Snapshot>, n: nat)
    requires WeakerWindow(w, than) && n <= |w|
    ensures WeakerWindow(w[..n], than[..n])
  {
  }

  lemma WeakerSuffix(w: seq<Snapshot>, than: seq<Snapshot>, k: nat)
    requires WeakerWindow(w, than) && k <= |w|
    ensures WeakerWindow(w[k..], than[k..])
  {
  }

  /** Which samples the tail holds depends on the timestamps only. */
  lemma TailByTimestamps(w: seq<Snapshot>, than: seq<Snapshot>, d: Duration)
    requires WeakerWindow(w, than)
    ensures WeakerWindow(W.Recent(w, d), W.Recent(than, d))
  {
    if w != [] && d > 0 {
      SameTailStart(w, than, d);
      WeakerSuffix(w, than, W.TailStart(w, d));
    }
  }

  lemma SpanByTimestamps(w: seq<Snapshot>, than: seq<Snapshot>)
    requires WeakerWindow(w, than)
    ensures W.Span(w) == W.Span(than)
  {
    if |w| >= 2 {
      assert Weaker(w[0], than[0]) && Weaker(w[|w| - 1], than[|w| - 1]);
    }
  }

  lemma SustainedNeedsData(code: Code, e: Eval, than: Eval)
    requires e.t == than.t && Held(code, e.t).Some?
    requires Weaker(e.latest, than.latest) && WeakerWindow(e.window, than.window)
    requires e.Sustained(Held(code, e.t).value)
    ensures than.Sustained(Held(code, e.t).value)
  {
    var pred, d := Held(code, e.t).value, e.t.sustainFor;
    if d <= 0 {
      HeldNeedsData(code, e.latest, than.latest, e.t);
    } else {
      var r, s := W.Recent(e.window, d), W.Recent(than.window, d);
      TailByTimestamps(e.window, than.window, d);
      SpanByTimestamps(r, s);
      forall i | 0 <= i < |s| ensures pred(s[i]) {
        HeldNeedsData(code, r[i], s[i], e.t);
      }
    }
  }

  lemma {:induction false} SumNeedsData(w: seq<Snapshot>, than: seq<Snapshot>)
    requires WeakerWindow(w, than) && W.AllMeasured(w, Waiting)
    ensures W.AllMeasured(than, Waiting) && W.SumOf(than, Waiting) == W.SumOf(w, Waiting)
  {
    assert forall i :: 0 <= i < |w| ==> Weaker(w[i], than[i]) && Waiting(w[i]).ok && Waiting(w[i]) == Waiting(than[i]);
    if w != [] {
      SumNeedsData(w[..|w| - 1], than[..|w| - 1]);
    }
  }

  lemma MeanNeedsData(w: seq<Snapshot>, than: seq<Snapshot>)
    requires WeakerWindow(w, than) && W.Mean(w, Waiting).Some?
    ensures W.Mean(than, Waiting) == W.Mean(w, Waiting)
  {
    SumNeedsData(w, than);
  }

  lemma TrendOverNeedsData(w: seq<Snapshot>, than: seq<Snapshot>)
    requires WeakerWindow(w, than) && W.TrendOver(w, Waiting).Some?
    ensures W.TrendOver(than, Waiting) == W.TrendOver(w, Waiting)
  {
    var n, third := |w|, |w| / 3;
    WeakerPrefix(w, than, third);
    WeakerSuffix(w, than, n - third);
    MeanNeedsData(w[..third], than[..third]);
    MeanNeedsData(w[n - third..], than[n - third..]);
  }

  lemma TrendNeedsData(e: Eval, than: Eval)
    requires e.t == than.t && WeakerWindow(e.window, than.window)
    ensures e.Trend(Waiting).Some? ==> than.Trend(Waiting) == e.Trend(Waiting)
  {
    var d := e.t.sustainFor * W.TREND_WINDOW;
    TailByTimestamps(e.window, than.window, d);
    if e.Trend(Waiting).Some? {
      TrendOverNeedsData(W.Recent(e.window, d), W.Recent(than.window, d));
    }
  }

  /** No rule gains from missing data: taking measurements away, any of them from any
      snapshots, never makes a rule fire that did not fire before. */
  lemma NeverGainsFromMissingData(code: Code, e: Eval, than: Eval)
    requires e.t == than.t && e.now == than.now
    requires Weaker(e.latest, than.latest) && WeakerWindow(e.window, than.window)
    requires Fires(code, e)
    ensures Fires(code, than)
  {
    FiresExactly(code, e);
    FiresExactly(code, than);
    GuardNeedsData(code, e.latest, than.latest, e.t, e.now);
    if Held(code, e.t).Some? {
      SustainedNeedsData(code, e, than);
    } else if code == QueueGrowing {
      TrendNeedsData(e, than);
    }
  }

  /** No metric a rule looks at is measured. */
  predicate Blank(s: Snapshot) {
    && !s.requestsWaiting.ok && !s.waitingForCapacity.ok && !s.waitingDeferred.ok
    && !s.tokensPerSecond.ok && !s.promptTokensPerSec.ok && !s.p95LatencyMs.ok && !s.p99LatencyMs.ok
    && !s.ttftP95Ms.ok && !s.queueTimeP95Ms.ok && !s.gpuUtilizationPct.ok && !s.gpuMemoryUsedPct.ok
    && !s.kvCacheUsagePct.ok && !s.preemptionsPerSec.ok && !s.prefixCacheHitRatePct.ok
    && !s.errorRatePct.ok && !s.abortRatePct.ok && !s.replicas.ok && !s.readyReplicas.ok && !s.maxReplicas.ok
  }

  lemma NothingHeldBlank(code: Code, s: Snapshot, t: Thresholds)
    requires Blank(s) && Held(code, t).Some?
    ensures !Held(code, t).value(s)
  {
  }

  /** A workload nothing is measured of gets no diagnosis: only the two findings about
      its telemetry can fire. */
  lemma BlankFiresOnlyObservability(code: Code, e: Eval)
    requires Blank(e.latest) && forall i :: 0 <= i < |e.window| ==> Blank(e.window[i])
    requires Fires(code, e)
    ensures code == TelemetryIncomplete || code == TelemetryStale
  {
    FiresExactly(code, e);
    if Held(code, e.t).Some? {
      NothingHeldBlank(code, e.latest, e.t);
      if e.t.sustainFor > 0 {
        var r := W.Recent(e.window, e.t.sustainFor);
        W.TailSpan(e.window, e.t.sustainFor);
        NothingHeldBlank(code, r[0], e.t);
      }
    }
  }

  /** Two samples d apart sustain whatever both satisfy. */
  lemma SustainedPair(first: Snapshot, last: Snapshot, latest: Snapshot, d: Duration, pred: Snapshot -> bool)
    requires d > 0 && last.timestamp == first.timestamp + d
    requires pred(first) && pred(last)
    ensures W.Sustained(latest, [first, last], d, pred)
  {
    W.SustainedFrom(latest, [first, last], d, pred);
  }

  // ── Diagnoses that exclude each other ────────

  lemma NeverSaturatedAndIdle(e: Eval)
    requires e.t.gpuUtilLowPct <= e.t.gpuUtilHighPct
    ensures !(Fires(QueueWithSaturatedGPU, e) && Fires(QueueWithIdleGPU, e))
  {
  }

  lemma SaturatedAndIdle(s: Snapshot, t: Thresholds) returns (e: Eval)
    requires t.gpuUtilLowPct > t.gpuUtilHighPct
    ensures e.t == t && Fires(QueueWithSaturatedGPU, e) && Fires(QueueWithIdleGPU, e)
  {
    var first := s.(
      timestamp := 0,
      requestsWaiting := Metric(t.queueWaitingRequests + 1.0, true),
      gpuUtilizationPct := Metric((t.gpuUtilLowPct + t.gpuUtilHighPct) / 2.0, true));
    var last := first.(timestamp := t.sustainFor);
    e := Eval(last, [first, last], t, 0);
    if t.sustainFor > 0 {
      SustainedPair(first, last, last, t.sustainFor, QueuedAndBusy(t));
      SustainedPair(first, last, last, t.sustainFor, QueuedAndIdle(t));
    }
  }

  ghost predicate NeverBoth(a: Code, b: Code, t: Thresholds) {
    forall e: Eval :: e.t == t ==> !(Fires(a, e) && Fires(b, e))
  }

  /** The saturated-GPU and idle-GPU diagnoses, whose remedies are opposite, exclude
      each other exactly when the low threshold does not exceed the high one; validated
      thresholds keep them apart. */
  lemma SaturatedOrIdleExactly(s: Snapshot, t: Thresholds)
    ensures NeverBoth(QueueWithSaturatedGPU, QueueWithIdleGPU, t) <==> t.gpuUtilLowPct <= t.gpuUtilHighPct
    ensures t.Validate() ==> NeverBoth(QueueWithSaturatedGPU, QueueWithIdleGPU, t)
  {
    if t.gpuUtilLowPct <= t.gpuUtilHighPct {
      forall e: Eval | e.t == t ensures !(Fires(QueueWithSaturatedGPU, e) && Fires(QueueWithIdleGPU, e)) {
        NeverSaturatedAndIdle(e);
      }
    } else {
      var e := SaturatedAndIdle(s, t);
      assert e.t == t;
    }
  }

  /** A slow first token with both times measured gets exactly one of the two
      explanations, queueing or prefill. */
  lemma OneExplanationForTTFT(e: Eval)
    requires e.t.Validate()
    ensures (Fires(TTFTAdmissionBound, e) || Fires(TTFTPrefillBound, e)) <==>
            e.latest.ttftP95Ms.Above(e.t.ttftP95Ms) && e.latest.queueTimeP95Ms.ok
    ensures !(Fires(TTFTAdmissionBound, e) && Fires(TTFTPrefillBound, e))
  {
  }

  // ── Queue growth and longer sustain windows ────────

  /** A queue that is flat or draining, at any depth and over any length, is never
      reported as growing. */
  lemma NeverGrowingWhenDraining(e: Eval)
    requires W.NonIncreasing(e.window, Waiting)
    ensures !Fires(QueueGrowing, e)
  {
    if e.Trend(Waiting).Some? {
      W.TrendNonIncreasing(e.window, e.t.sustainFor, Waiting);
    }
  }

  /** Asking conditions to hold for longer never adds a finding, except for the trend
      rule, which then looks further back. */
  lemma LongerSustainFiresLess(code: Code, e: Eval, longer: Duration)
    requires W.Sorted(e.window) && EndsInLatest(e) && longer >= e.t.sustainFor && code != QueueGrowing
    requires Fires(code, e.(t := e.t.(sustainFor := longer)))
    ensures Fires(code, e)
  {
    var strict := e.(t := e.t.(sustainFor := longer));
    FiresExactly(code, strict);
    FiresExactly(code, e);
    if Held(code, e.t).Some? && e.window != [] {
      SameHeld(code, e.t, longer);
      W.SustainedForLess(e.latest, e.window, longer, e.t.sustainFor, Held(code, strict.t).value);
      SameSustained(e, Held(code, strict.t).value, Held(code, e.t).value);
    }
  }

  lemma SameHeld(code: Code, t: Thresholds, longer: Duration)
    requires Held(code, t).Some?
    ensures var strict := t.(sustainFor := longer);
            Held(code, strict).Some? && forall s :: Held(code, strict).value(s) == Held(code, t).value(s)
  {
  }

  lemma SameSustained(e: Eval, p: Snapshot -> bool, q: Snapshot -> bool)
    requires forall s :: p(s) == q(s)
    ensures e.Sustained(p) == e.Sustained(q)
  {
  }

  function Queue(s: Snapshot, at: Time, waiting: real): Snapshot {
    s.(timestamp := at, requestsWaiting := Metric(waiting, true))
  }

  lemma MeanOfTwo(a: Snapshot, b: Snapshot, pick: Snapshot -> Metric)
    requires pick(a).ok && pick(b).ok
    ensures W.Mean([a, b], pick) == Some((pick(a).value + pick(b).value) / 2.0)
  {
    assert [a, b][..1] == [a] && [a][..0] == [];
    assert W.SumOf([a], pick) == W.SumOf([], pick) + pick(a).value;
    assert W.SumOf([a, b], pick) == W.SumOf([a], pick) + pick(b).value;
  }

  /** The trend rule can gain a finding: with a sustain window of one its trend window
      holds five of these six samples, too few; with one of five it holds them all. */
  lemma LongerSustainSeesTrend(s: Snapshot, t: Thresholds) returns (e: Eval, longer: Duration)
    ensures W.Sorted(e.window) && EndsInLatest(e) && 0 < e.t.sustainFor < longer
    ensures e.t == t.(sustainFor := e.t.sustainFor)
    ensures !Fires(QueueGrowing, e) && Fires(QueueGrowing, e.(t := e.t.(sustainFor := longer)))
  {
    var low, high := t.queueWaitingRequests + 1.0, t.queueWaitingRequests + 5.0;
    var w := [Queue(s, 0, low), Queue(s, 1, low), Queue(s, 2, low), Queue(s, 3, low), Queue(s, 4, high),
      Queue(s, 5, high)];
    e, longer := Eval(w[5], w, t.(sustainFor := 1), 0), 5;
    W.TailStartIs(w, 3, 1);
    assert |W.Recent(w, 3)| == 5;
    W.TailStartIs(w, 15, 0);
    assert W.Recent(w, 15) == w;
    assert w[..2] == [w[0], w[1]] && w[4..] == [w[4], w[5]];
    MeanOfTwo(w[0], w[1], Waiting);
    MeanOfTwo(w[4], w[5], Waiting);
    assert W.TrendOver(w, Waiting) == Some(4.0);
  }

  // ── The floor of the prefix-cache rule ────────

  /** At exactly 50 prompt tokens per second the rule still fires; just below it does not. */
  lemma FiresAtTheFloor(e: Eval, rate: real)
    requires e.latest.prefixCacheHitRatePct.Below(e.t.prefixCacheHitLowPct)
    ensures Fires(PrefixCacheIneffective, e.(latest := e.latest.(promptTokensPerSec := Metric(50.0, true))))
    ensures rate < 50.0 ==>
            !Fires(PrefixCacheIneffective, e.(latest := e.latest.(promptTokensPerSec := Metric(rate, true))))
  {
  }
}
