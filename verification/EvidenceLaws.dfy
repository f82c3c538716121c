/** What a finding's evidence is worth: when every printed comparison holds, when every
    printed number is a measurement, and when the printed comparisons say all the rule
    checked. */
module EvidenceLaws {
  import opened Basics
  import opened Telemetry
  import opened Rules
  import opened RuleLaws
  import W = Window

  // ── The snapshot a finding is about ────────

  /** The newest snapshot is one of those a sustained condition is judged on. It is when
      the window ends in it, and stays so when newer samples have joined the window since,
      as long as it is in the tail. */
  predicate LatestInTail(e: Eval) {
    e.t.sustainFor <= 0 || e.latest in W.Recent(e.window, e.t.sustainFor)
  }

  lemma EndingIsInTail(e: Eval)
    requires EndsInLatest(e) && e.window != []
    ensures LatestInTail(e)
  {
    W.LastInTail(e.window, e.t.sustainFor);
  }

  lemma HeldNow(code: Code, e: Eval)
    requires LatestInTail(e) && Held(code, e.t).Some? && e.Sustained(Held(code, e.t).value)
    ensures Held(code, e.t).value(e.latest)
  {
    W.SustainedHoldsNowExactly(e.latest, e.window, e.t.sustainFor);
  }

  /** Where a rule's evidence is read. Only the queue-growing rule looks at the trend. */
  function On(code: Code, s: Snapshot, e: Eval): Context {
    Context(s, if code == QueueGrowing then e.Trend(Waiting) else None, e.now)
  }

  /** All a rule asks of one snapshot and the trend beside it: its guard, what it needs
      sustained, and growth. */
  predicate MeetsRule(code: Code, t: Thresholds, on: Context) {
    && Guard(code, on.s, t, on.now)
    && (Held(code, t).Some? ==> Held(code, t).value(on.s))
    && (code == QueueGrowing ==> on.trend.Some? && on.trend.value > 1.0)
  }

  lemma FiresShows(code: Code, e: Eval)
    requires Fires(code, e)
    ensures Evaluate(code, e).value.evidence == Shown(code, e.t, On(code, e.latest, e))
  {
  }

  lemma FiresMeets(code: Code, e: Eval)
    requires Fires(code, e) && (Held(code, e.t).Some? ==> LatestInTail(e))
    ensures MeetsRule(code, e.t, On(code, e.latest, e))
  {
    FiresExactly(code, e);
    if Held(code, e.t).Some? {
      HeldNow(code, e);
    }
  }

  // ── Every printed comparison holds ────────

  ghost predicate AllHold(evidence: seq<Evidence>) {
    forall i :: 0 <= i < |evidence| ==> evidence[i].Holds()
  }

  lemma SecondsOrder(a: Duration, b: Duration)
    ensures Seconds(a) > Seconds(b) <==> a > b
  {
    assert Seconds(a) - Seconds(b) == (a - b) as real / SECOND as real;
  }

  lemma ShownHolds(code: Code, t: Thresholds, on: Context)
    requires MeetsRule(code, t, on)
    ensures AllHold(Shown(code, t, on))
  {
    SecondsOrder(on.s.Age(on.now), t.staleAfter);
  }

  /** Every finding is justified by its own evidence: each comparison it prints holds
      between the two numbers it prints. Only a sustained condition asks anything of the
      window for that. */
  lemma JustifiedByEvidence(code: Code, e: Eval)
    requires Fires(code, e) && (Held(code, e.t).Some? ==> LatestInTail(e))
    ensures AllHold(Evaluate(code, e).value.evidence)
  {
    FiresShows(code, e);
    FiresMeets(code, e);
    ShownHolds(code, e.t, On(code, e.latest, e));
  }

  /** Every measurement a sustained rule compares, in one snapshot. */
  predicate Compares(code: Code, s: Snapshot) {
    match code
    case QueueWithSaturatedGPU | QueueWithIdleGPU => s.requestsWaiting.ok && s.gpuUtilizationPct.ok
    case KVNearCapacity => s.kvCacheUsagePct.ok
    case E2ELatencyHigh => s.p95LatencyMs.ok
    case GPUMemoryPressure => s.gpuMemoryUsedPct.ok
    case ErrorRateHigh => s.errorRatePct.ok
    case ClientAborts => s.abortRatePct.ok
    case AtReplicaCeiling => s.requestsWaiting.ok
    case _ => true
  }

  lemma ShownExactly(code: Code, t: Thresholds, on: Context)
    requires Held(code, t).Some?
    ensures Held(code, t).value(on.s) <==> Compares(code, on.s) && AllHold(Shown(code, t, on))
  {
    var evidence := Shown(code, t, on);
    match code
    case QueueWithSaturatedGPU | QueueWithIdleGPU =>
      assert AllHold(evidence) ==> evidence[0].Holds() && evidence[1].Holds();
    case AtReplicaCeiling => assert AllHold(evidence) ==> evidence[2].Holds();
    case KVNearCapacity | E2ELatencyHigh | GPUMemoryPressure | ErrorRateHigh | ClientAborts =>
      assert AllHold(evidence) ==> evidence[0].Holds();
    case _ =>
  }

  /** Whatever window a sustained rule fired over, its condition holds of the newest
      snapshot exactly when everything it compares is measured there and the evidence
      holds. */
  lemma EvidenceExactly(code: Code, e: Eval)
    requires Held(code, e.t).Some? && Fires(code, e)
    ensures Held(code, e.t).value(e.latest) <==>
            Compares(code, e.latest) && AllHold(Evaluate(code, e).value.evidence)
  {
    FiresShows(code, e);
    ShownExactly(code, e.t, On(code, e.latest, e));
  }

  // ── Every printed number is a measurement ────────

  function Measured(m: Metric): Option<real> {
    if m.ok then Some(m.value) else None
  }

  /** What a measure reads there, if it is measured. */
  function Reads(m: Measure, on: Context): Option<real> {
    var s := on.s;
    match m
    case WaitingRequests => Measured(s.requestsWaiting)
    case RunningRequests => Measured(s.requestsRunning)
    case DeferredRequests => Measured(s.waitingDeferred)
    case CapacityRequests => Measured(s.waitingForCapacity)
    case WaitingTrend => on.trend
    case GPUUtilization => Measured(s.gpuUtilizationPct)
    case GPUMemory => Measured(s.gpuMemoryUsedPct)
    case KVCacheUsage => Measured(s.kvCacheUsagePct)
    case PreemptionRate => Measured(s.preemptionsPerSec)
    case LatencyP95 => Measured(s.p95LatencyMs)
    case LatencyP99 => Measured(s.p99LatencyMs)
    case LatencyRatio => TailRatio(s)
    case TTFTP95 => Measured(s.ttftP95Ms)
    case QueueTimeP95 => Measured(s.queueTimeP95Ms)
    case QueueTimeShare => QueueShareOfTTFT(s)
    case GeneratedTokens => Measured(s.tokensPerSecond)
    case PromptTokenRate => Measured(s.promptTokensPerSec)
    case PrefixCacheHitRate => Measured(s.prefixCacheHitRatePct)
    case ErrorShare => Measured(s.errorRatePct)
    case AbortShare => Measured(s.abortRatePct)
    case ReplicaCount => Measured(s.replicas)
    case ReadyReplicaCount => Measured(s.readyReplicas)
    case MaxReplicaCount => Measured(s.maxReplicas)
    case MissingCount => Some(|s.metricsMissing| as real)
    case TelemetryAge => Some(Seconds(s.Age(on.now)))
  }

  /** Every number printed is what its measure reads there; none is invented. */
  ghost predicate AllRead(evidence: seq<Evidence>, on: Context) {
    forall i :: 0 <= i < |evidence| ==> Reads(evidence[i].metric, on) == Some(evidence[i].observed)
  }

  /** Three rules add a measurement they do not check, as zero when there is none. */
  predicate Supplemented(code: Code, s: Snapshot) {
    match code
    case QueueWithSaturatedGPU => s.requestsRunning.ok
    case QueueWithIdleGPU => s.kvCacheUsagePct.ok
    case E2ELatencyHigh => s.tokensPerSecond.ok
    case _ => true
  }

  lemma ShownRead(code: Code, t: Thresholds, on: Context)
    requires MeetsRule(code, t, on)
    ensures AllRead(Shown(code, t, on), on) <==> Supplemented(code, on.s)
  {
    var evidence := Shown(code, t, on);
    match code
    case QueueWithSaturatedGPU | QueueWithIdleGPU =>
      assert AllRead(evidence, on) ==> Reads(evidence[2].metric, on) == Some(evidence[2].observed);
    case E2ELatencyHigh =>
      assert AllRead(evidence, on) ==> Reads(evidence[1].metric, on) == Some(evidence[1].observed);
    case _ =>
      if Held(code, t).Some? {
        SustainedRead(code, t, on);
      } else {
        GuardedRead(code, t, on);
      }
  }

  lemma SustainedRead(code: Code, t: Thresholds, on: Context)
    requires MeetsRule(code, t, on) && Held(code, t).Some?
    requires code != QueueWithSaturatedGPU && code != QueueWithIdleGPU && code != E2ELatencyHigh
    ensures AllRead(Shown(code, t, on), on)
  {
  }

  lemma GuardedRead(code: Code, t: Thresholds, on: Context)
    requires MeetsRule(code, t, on) && Held(code, t) == None
    ensures AllRead(Shown(code, t, on), on)
  {
  }

  /** Every number a finding prints is what its measure reads in the newest snapshot
      exactly when, for those three rules, the added measurement is there; the other
      sixteen never print a number that was not measured. */
  lemma PrintsMeasurementsExactly(code: Code, e: Eval)
    requires Fires(code, e) && (Held(code, e.t).Some? ==> LatestInTail(e))
    ensures AllRead(Evaluate(code, e).value.evidence, On(code, e.latest, e)) <==> Supplemented(code, e.latest)
  {
    FiresShows(code, e);
    FiresMeets(code, e);
    ShownRead(code, e.t, On(code, e.latest, e));
  }

  function Idle(s: Snapshot, at: Time, t: Thresholds): Snapshot {
    s.(timestamp := at, runtime := "triton", kvCacheUsagePct := UNMEASURED,
       requestsWaiting := Metric(t.queueWaitingRequests + 1.0, true),
       gpuUtilizationPct := Metric(t.gpuUtilLowPct - 1.0, true))
  }

  /** An invented number: Triton has no key-value cache to measure, and a queue before an
      idle GPU is reported there with a cache usage of zero percent. */
  lemma PrintsInventedZero(s: Snapshot, t: Thresholds) returns (e: Eval)
    ensures e.t == t && e.latest.runtime == "triton" && EndsInLatest(e) && W.Sorted(e.window)
    ensures Fires(QueueWithIdleGPU, e)
    ensures Reads(KVCacheUsage, On(QueueWithIdleGPU, e.latest, e)) == None
    ensures Observation(KVCacheUsage, 0.0) in Evaluate(QueueWithIdleGPU, e).value.evidence
  {
    var first, last := Idle(s, 0, t), Idle(s, if t.sustainFor > 0 then t.sustainFor else 0, t);
    e := Eval(last, [first, last], t, 0);
    if t.sustainFor > 0 {
      SustainedPair(first, last, last, t.sustainFor, QueuedAndIdle(t));
    }
    assert Evaluate(QueueWithIdleGPU, e).value.evidence[2] == Observation(KVCacheUsage, 0.0);
  }

  /** An invented number can even satisfy a comparison: the evidence of a finding holds
      while its condition fails, because the newest snapshot, behind the tail, has no
      measurement of the GPU and the zero printed for it is below the limit. */
  lemma HoldsOnInventedZero(s: Snapshot, t: Thresholds) returns (e: Eval)
    requires t.sustainFor > 0 && t.gpuUtilLowPct > 0.0
    ensures e.t == t && W.Sorted(e.window) && e.window != [] && e.latest == e.window[0]
    ensures Fires(QueueWithIdleGPU, e) && AllHold(Evaluate(QueueWithIdleGPU, e).value.evidence)
    ensures !QueuedAndIdle(t)(e.latest)
  {
    var d := t.sustainFor;
    var blind := Idle(s, 0, t).(gpuUtilizationPct := UNMEASURED);
    var w := [blind, Idle(s, 1, t), Idle(s, 2, t), Idle(s, 2 + d, t)];
    e := Eval(blind, w, t, 0);
    W.TailStartIs(w, d, 1);
    W.SustainedFrom(blind, w, d, QueuedAndIdle(t));
  }

  // ── Checking the printed comparisons against another snapshot ────────

  /** The printed comparison also holds of what its measure reads there. */
  predicate Rechecks(ev: Evidence, on: Context) {
    ev.comparison == NoComparison ||
    (Reads(ev.metric, on).Some? && ev.(observed := Reads(ev.metric, on).value).Holds())
  }

  ghost predicate AllRecheck(evidence: seq<Evidence>, on: Context) {
    forall i :: 0 <= i < |evidence| ==> Rechecks(evidence[i], on)
  }

  /** Six rules check more than they print a comparison for: the depth of a growing queue,
      both checks on deferred requests, the floor on prompt tokens, the replica counts,
      and the list of missing metrics. */
  predicate PrintsAll(code: Code) {
    match code
    case QueueGrowing | QueueDeferred | PrefixCacheIneffective
       | AtReplicaCeiling | ReplicasNotReady | TelemetryIncomplete => false
    case _ => true
  }

  /** Two of a rule's comparisons to recheck, or one. */
  predicate PrintsTwo(code: Code) {
    match code
    case QueueWithSaturatedGPU | QueueWithIdleGPU | TTFTAdmissionBound | TTFTPrefillBound | LowTokenThroughput => true
    case _ => false
  }

  lemma PrintsEnoughTwo(code: Code, t: Thresholds, at: Context, on: Context)
    requires PrintsTwo(code)
    ensures AllRecheck(Shown(code, t, at), on) <==> MeetsRule(code, t, on)
  {
    var evidence := Shown(code, t, at);
    assert AllRecheck(evidence, on) ==> Rechecks(evidence[0], on) && Rechecks(evidence[1], on);
  }

  lemma PrintsEnoughSustained(code: Code, t: Thresholds, at: Context, on: Context)
    requires PrintsAll(code) && !PrintsTwo(code) && Held(code, t).Some?
    ensures AllRecheck(Shown(code, t, at), on) <==> MeetsRule(code, t, on)
  {
    var evidence := Shown(code, t, at);
    assert AllRecheck(evidence, on) ==> Rechecks(evidence[0], on);
  }

  lemma PrintsEnoughOne(code: Code, t: Thresholds, at: Context, on: Context)
    requires PrintsAll(code) && !PrintsTwo(code)
    ensures AllRecheck(Shown(code, t, at), on) <==> MeetsRule(code, t, on)
  {
    if Held(code, t).Some? {
      PrintsEnoughSustained(code, t, at, on);
    } else {
      var evidence := Shown(code, t, at);
      SecondsOrder(on.s.Age(on.now), t.staleAfter);
      assert AllRecheck(evidence, on) ==> Rechecks(evidence[0], on);
    }
  }

  lemma PrintsEnough(code: Code, t: Thresholds, at: Context, on: Context)
    requires PrintsAll(code)
    ensures AllRecheck(Shown(code, t, at), on) <==> MeetsRule(code, t, on)
  {
    if PrintsTwo(code) {
      PrintsEnoughTwo(code, t, at, on);
    } else {
      PrintsEnoughOne(code, t, at, on);
    }
  }

  /** A snapshot that passes every printed comparison of the finding and yet does not meet
      the rule. */
  lemma PrintsTooLittle(code: Code, t: Thresholds, at: Context) returns (s: Snapshot)
    requires !PrintsAll(code) && Guard(code, at.s, t, at.now)
    requires code == QueueGrowing ==> at.trend.Some? && at.trend.value > 1.0
    ensures AllRecheck(Shown(code, t, at), at.(s := s)) && !Guard(code, s, t, at.now)
  {
    var l := at.s;
    match code
    case QueueGrowing => s := l.(requestsWaiting := Metric(t.queueWaitingRequests, true));
    case QueueDeferred => s := l.(waitingDeferred := UNMEASURED);
    case PrefixCacheIneffective => s := l.(promptTokensPerSec := Metric(MIN_PROMPT_TOKENS_PER_SEC - 1.0, true));
    case AtReplicaCeiling =>
      s := l.(replicas := Metric(l.maxReplicas.value - 1.0, true),
              requestsWaiting := Metric(t.queueWaitingRequests + 1.0, true));
    case ReplicasNotReady => s := l.(readyReplicas := l.replicas);
    case TelemetryIncomplete => s := l.(metricsMissing := []);
  }

  /** The comparisons a finding prints tell of every snapshot whether it meets the rule,
      exactly for the thirteen rules that print everything they check. For each of the
      other six, whatever it fired on, some snapshot passes all of them and fails it. */
  lemma PrintedComparisonsDecideExactly(code: Code, e: Eval)
    requires Fires(code, e)
    ensures (forall s :: AllRecheck(Evaluate(code, e).value.evidence, On(code, s, e)) <==>
                         MeetsRule(code, e.t, On(code, s, e))) <==>
            PrintsAll(code)
  {
    var at := On(code, e.latest, e);
    FiresShows(code, e);
    FiresExactly(code, e);
    if PrintsAll(code) {
      forall s ensures AllRecheck(Shown(code, e.t, at), On(code, s, e)) <==> MeetsRule(code, e.t, On(code, s, e)) {
        PrintsEnough(code, e.t, at, On(code, s, e));
      }
    } else {
      var s := PrintsTooLittle(code, e.t, at);
      assert On(code, s, e) == at.(s := s);
      assert !MeetsRule(code, e.t, On(code, s, e));
    }
  }

  // ── The printed measurements are all a rule looks at ────────

  lemma AgreeingRechecks(code: Code, t: Thresholds, at: Context, on: Context)
    requires MeetsRule(code, t, at) && AllRead(Shown(code, t, at), on)
    ensures AllRecheck(Shown(code, t, at), on)
  {
    ShownHolds(code, t, at);
    var evidence := Shown(code, t, at);
    forall i | 0 <= i < |evidence| ensures Rechecks(evidence[i], on) {
      assert evidence[i].Holds() && evidence[i].(observed := evidence[i].observed) == evidence[i];
    }
  }

  lemma AgreeingScales(code: Code, t: Thresholds, at: Context, on: Context)
    requires code == AtReplicaCeiling || code == ReplicasNotReady
    requires MeetsRule(code, t, at) && AllRead(Shown(code, t, at), on)
    ensures MeetsRule(code, t, on)
  {
    var evidence := Shown(code, t, at);
    assert Reads(evidence[0].metric, on) == Some(evidence[0].observed);
    assert Reads(evidence[1].metric, on) == Some(evidence[1].observed);
    assert Reads(evidence[2].metric, on) == Some(evidence[2].observed);
  }

  lemma AgreeingMeetsOther(code: Code, t: Thresholds, at: Context, on: Context)
    requires !PrintsAll(code) && code != AtReplicaCeiling && code != ReplicasNotReady
    requires MeetsRule(code, t, at) && AllRead(Shown(code, t, at), on)
    ensures MeetsRule(code, t, on)
  {
    var evidence := Shown(code, t, at);
    assert Reads(evidence[0].metric, on) == Some(evidence[0].observed);
    if code != TelemetryIncomplete {
      assert Reads(evidence[1].metric, on) == Some(evidence[1].observed);
    }
  }

  /** A finding prints every measurement its rule looked at: wherever each of them reads what
      was printed, whatever else is measured or missing there, the rule is met as well. */
  lemma PrintsWhatItLookedAt(code: Code, e: Eval, on: Context)
    requires Fires(code, e) && (Held(code, e.t).Some? ==> LatestInTail(e))
    requires AllRead(Evaluate(code, e).value.evidence, on)
    ensures MeetsRule(code, e.t, on)
  {
    var at := On(code, e.latest, e);
    FiresShows(code, e);
    FiresMeets(code, e);
    if PrintsAll(code) {
      AgreeingRechecks(code, e.t, at, on);
      PrintsEnough(code, e.t, at, on);
    } else if code == AtReplicaCeiling || code == ReplicasNotReady {
      AgreeingScales(code, e.t, at, on);
    } else {
      AgreeingMeetsOther(code, e.t, at, on);
    }
  }
}
