/** The rule set (internal/recommender/rules.go, thresholds.go): nineteen checks over
    optional measurements. Each rule is its guards and the evidence it compares; the
    explanatory prose is left out. */
module Rules {
  import opened Basics
  import opened Telemetry
  import W = Window

  // ── Thresholds ────────

  datatype Thresholds = Thresholds(
    sustainFor: Duration,
    staleAfter: Duration,
    queueWaitingRequests: real,
    gpuUtilHighPct: real,
    gpuUtilLowPct: real,
    gpuMemoryHighPct: real,
    kvCacheHighPct: real,
    preemptionsPerSec: real,
    ttftP95Ms: real,
    e2eP95Ms: real,
    queueShareOfTTFTPct: real,
    tailRatioP99P95: real,
    tokensPerSecondLow: real,
    prefixCacheHitLowPct: real,
    errorRatePct: real,
    abortRatePct: real
  ) {
    predicate Validate() {
      && sustainFor >= 0
      && staleAfter > 0
      && gpuUtilLowPct < gpuUtilHighPct
      && Percentage(gpuUtilHighPct) && Percentage(gpuUtilLowPct)
      && Percentage(gpuMemoryHighPct) && Percentage(kvCacheHighPct)
      && Percentage(queueShareOfTTFTPct) && Percentage(prefixCacheHitLowPct)
      && Percentage(errorRatePct) && Percentage(abortRatePct)
      && queueWaitingRequests >= 0.0 && preemptionsPerSec >= 0.0
      && ttftP95Ms >= 0.0 && e2eP95Ms >= 0.0 && tokensPerSecondLow >= 0.0
      && tailRatioP99P95 >= 1.0
    }
  }

  predicate Percentage(v: real) {
    0.0 <= v <= 100.0
  }

  const DEFAULT_THRESHOLDS := Thresholds(
    45 * SECOND, 120 * SECOND, 8.0, 85.0, 35.0, 90.0, 90.0, 0.01, 1000.0, 10000.0,
    50.0, 3.0, 200.0, 10.0, 2.0, 5.0)

  lemma DefaultsAreValid()
    ensures DEFAULT_THRESHOLDS.Validate()
  {
  }

  // ── Rules ────────

  datatype Code =
    | QueueWithSaturatedGPU | QueueWithIdleGPU | QueueGrowing | QueueDeferred
    | KVPreemption | KVNearCapacity
    | TTFTAdmissionBound | TTFTPrefillBound | E2ELatencyHigh | TailLatencyGap
    | PrefixCacheIneffective | LowTokenThroughput | GPUMemoryPressure
    | ErrorRateHigh | ClientAborts
    | AtReplicaCeiling | ReplicasNotReady
    | TelemetryIncomplete | TelemetryStale
  {
    function DefaultSeverity(): Severity {
      match this
      case QueueGrowing | KVPreemption | ErrorRateHigh | AtReplicaCeiling | ReplicasNotReady => Critical
      case TailLatencyGap | PrefixCacheIneffective | LowTokenThroughput | TelemetryIncomplete => Info
      case _ => Warning
    }

    /** The findings this rule replaces on the same workload. */
    function Supersedes(): set<Code> {
      match this
      case QueueWithSaturatedGPU | QueueWithIdleGPU | TTFTAdmissionBound | TTFTPrefillBound => {E2ELatencyHigh}
      case QueueDeferred => {QueueWithSaturatedGPU, QueueWithIdleGPU}
      case KVPreemption => {KVNearCapacity}
      case AtReplicaCeiling => {QueueWithSaturatedGPU}
      case _ => {}
    }

    /** Two rules read metrics only vLLM has; the rest apply to every runtime. */
    predicate AppliesTo(runtime: string) {
      (this == QueueDeferred || this == PrefixCacheIneffective) ==> runtime == "vllm"
    }
  }

  /** A rule's output. None of the rules overrides its own severity. */
  datatype Finding = Finding(window: Duration, evidence: seq<Evidence>, severity: Option<Severity>)

  function Compared(metric: Measure, observed: real, threshold: real, comparison: Comparison): Evidence {
    Evidence(metric, observed, threshold, comparison)
  }

  function Observation(metric: Measure, observed: real): Evidence {
    Evidence(metric, observed, 0.0, NoComparison)
  }

  /** A supporting measurement listed only when there is one. */
  function IfMeasured(metric: Measure, m: Metric): seq<Evidence> {
    if m.ok then [Observation(metric, m.value)] else []
  }

  function Waiting(s: Snapshot): Metric { s.requestsWaiting }

  datatype Eval = Eval(latest: Snapshot, window: seq<Snapshot>, t: Thresholds, now: Time) {
    function Sustained(pred: Snapshot -> bool): bool {
      W.Sustained(latest, window, t.sustainFor, pred)
    }

    function Span(): Duration {
      W.Span(W.Recent(window, t.sustainFor))
    }

    function Trend(pick: Snapshot -> Metric): Option<real> {
      W.Trend(window, t.sustainFor, pick)
    }

    function Found(code: Code, trend: Option<real>): Option<Finding> {
      Some(Finding(Span(), Shown(code, t, Context(latest, trend, now)), None))
    }
  }

  // ── Evidence ────────

  /** What evidence is read from: a snapshot, and the trend and the clock beside it. */
  datatype Context = Context(s: Snapshot, trend: Option<real>, now: Time)

  function OrZero(v: Option<real>): real {
    if v.Some? then v.value else 0.0
  }

  /** The evidence each rule attaches when it fires. */
  function Shown(code: Code, t: Thresholds, on: Context): seq<Evidence> {
    var s := on.s;
    match code
    case QueueWithSaturatedGPU => [
      Compared(WaitingRequests, s.requestsWaiting.value, t.queueWaitingRequests, Greater),
      Compared(GPUUtilization, s.gpuUtilizationPct.value, t.gpuUtilHighPct, Greater),
      Observation(RunningRequests, s.requestsRunning.Or(0.0))]
    case QueueWithIdleGPU => [
      Compared(WaitingRequests, s.requestsWaiting.value, t.queueWaitingRequests, Greater),
      Compared(GPUUtilization, s.gpuUtilizationPct.value, t.gpuUtilLowPct, Less),
      Observation(KVCacheUsage, s.kvCacheUsagePct.Or(0.0))]
    case QueueGrowing => [
      Observation(WaitingRequests, s.requestsWaiting.value),
      Compared(WaitingTrend, OrZero(on.trend), 1.0, Greater)]
    case QueueDeferred => [
      Observation(DeferredRequests, s.waitingDeferred.value),
      Observation(CapacityRequests, s.waitingForCapacity.value)]
    case KVPreemption =>
      [Compared(PreemptionRate, s.preemptionsPerSec.value, t.preemptionsPerSec, Greater)]
      + IfMeasured(KVCacheUsage, s.kvCacheUsagePct)
    case KVNearCapacity => [Compared(KVCacheUsage, s.kvCacheUsagePct.value, t.kvCacheHighPct, Greater)]
    case TTFTAdmissionBound => [
      Compared(TTFTP95, s.ttftP95Ms.value, t.ttftP95Ms, Greater),
      Compared(QueueTimeShare, OrZero(QueueShareOfTTFT(s)), t.queueShareOfTTFTPct, AtLeast),
      Observation(QueueTimeP95, s.queueTimeP95Ms.value)]
    case TTFTPrefillBound =>
      [Compared(TTFTP95, s.ttftP95Ms.value, t.ttftP95Ms, Greater),
       Compared(QueueTimeShare, OrZero(QueueShareOfTTFT(s)), t.queueShareOfTTFTPct, Less)]
      + IfMeasured(PrefixCacheHitRate, s.prefixCacheHitRatePct)
    case E2ELatencyHigh => [
      Compared(LatencyP95, s.p95LatencyMs.value, t.e2eP95Ms, Greater),
      Observation(GeneratedTokens, s.tokensPerSecond.Or(0.0))]
    case TailLatencyGap => [
      Compared(LatencyRatio, OrZero(TailRatio(s)), t.tailRatioP99P95, Greater),
      Observation(LatencyP95, s.p95LatencyMs.value),
      Observation(LatencyP99, s.p99LatencyMs.value)]
    case PrefixCacheIneffective => [
      Compared(PrefixCacheHitRate, s.prefixCacheHitRatePct.value, t.prefixCacheHitLowPct, Less),
      Observation(PromptTokenRate, s.promptTokensPerSec.value)]
    case LowTokenThroughput =>
      [Compared(GPUUtilization, s.gpuUtilizationPct.value, t.gpuUtilHighPct, Greater),
       Compared(GeneratedTokens, s.tokensPerSecond.value, t.tokensPerSecondLow, Less)]
      + IfMeasured(PromptTokenRate, s.promptTokensPerSec)
    case GPUMemoryPressure => [Compared(GPUMemory, s.gpuMemoryUsedPct.value, t.gpuMemoryHighPct, Greater)]
    case ErrorRateHigh => [Compared(ErrorShare, s.errorRatePct.value, t.errorRatePct, Greater)]
    case ClientAborts =>
      [Compared(AbortShare, s.abortRatePct.value, t.abortRatePct, Greater)]
      + IfMeasured(TTFTP95, s.ttftP95Ms)
    case AtReplicaCeiling => [
      Observation(ReplicaCount, s.replicas.value),
      Observation(MaxReplicaCount, s.maxReplicas.value),
      Compared(WaitingRequests, s.requestsWaiting.value, t.queueWaitingRequests, Greater)]
    case ReplicasNotReady => [
      Observation(ReplicaCount, s.replicas.value),
      Observation(ReadyReplicaCount, s.readyReplicas.value),
      Compared(WaitingRequests, s.requestsWaiting.value, t.queueWaitingRequests, Greater)]
    case TelemetryIncomplete => [Observation(MissingCount, |s.metricsMissing| as real)]
    case TelemetryStale => [Compared(TelemetryAge, Seconds(s.Age(on.now)), Seconds(t.staleAfter), Greater)]
  }

  function Evaluate(code: Code, e: Eval): Option<Finding> {
    match code
    case QueueWithSaturatedGPU => EvalQueueWithSaturatedGPU(e)
    case QueueWithIdleGPU => EvalQueueWithIdleGPU(e)
    case QueueGrowing => EvalQueueGrowing(e)
    case QueueDeferred => EvalQueueDeferred(e)
    case KVPreemption => EvalKVPreemption(e)
    case KVNearCapacity => EvalKVNearCapacity(e)
    case TTFTAdmissionBound => EvalTTFTAdmissionBound(e)
    case TTFTPrefillBound => EvalTTFTPrefillBound(e)
    case E2ELatencyHigh => EvalE2ELatencyHigh(e)
    case TailLatencyGap => EvalTailLatencyGap(e)
    case PrefixCacheIneffective => EvalPrefixCacheIneffective(e)
    case LowTokenThroughput => EvalLowTokenThroughput(e)
    case GPUMemoryPressure => EvalGPUMemoryPressure(e)
    case ErrorRateHigh => EvalErrorRateHigh(e)
    case ClientAborts => EvalClientAborts(e)
    case AtReplicaCeiling => EvalAtReplicaCeiling(e)
    case ReplicasNotReady => EvalReplicasNotReady(e)
    case TelemetryIncomplete => EvalTelemetryIncomplete(e)
    case TelemetryStale => EvalTelemetryStale(e)
  }

  // ── Capacity ────────

  function QueuedAndBusy(t: Thresholds): Snapshot -> bool {
    (s: Snapshot) => s.requestsWaiting.Above(t.queueWaitingRequests) && s.gpuUtilizationPct.Above(t.gpuUtilHighPct)
  }

  function EvalQueueWithSaturatedGPU(e: Eval): Option<Finding> {
    if !e.Sustained(QueuedAndBusy(e.t)) then None
    else e.Found(QueueWithSaturatedGPU, None)
  }

  function QueuedAndIdle(t: Thresholds): Snapshot -> bool {
    (s: Snapshot) => s.requestsWaiting.Above(t.queueWaitingRequests) && s.gpuUtilizationPct.Below(t.gpuUtilLowPct)
  }

  function EvalQueueWithIdleGPU(e: Eval): Option<Finding> {
    if !e.Sustained(QueuedAndIdle(e.t)) then None
    else e.Found(QueueWithIdleGPU, None)
  }

  function EvalQueueGrowing(e: Eval): Option<Finding> {
    var s, trend := e.latest, e.Trend(Waiting);
    if trend == None then None
    else if !s.requestsWaiting.Above(e.t.queueWaitingRequests) || trend.value <= 1.0 then None
    else e.Found(QueueGrowing, trend)
  }

  function EvalQueueDeferred(e: Eval): Option<Finding> {
    var s := e.latest;
    if !s.waitingDeferred.ok || !s.waitingForCapacity.ok then None
    else
      var total := s.waitingDeferred.value + s.waitingForCapacity.value;
      if total <= e.t.queueWaitingRequests || s.waitingDeferred.value <= s.waitingForCapacity.value then None
      else e.Found(QueueDeferred, None)
  }

  // ── KV cache ────────

  function EvalKVPreemption(e: Eval): Option<Finding> {
    var t, s := e.t, e.latest;
    if !s.preemptionsPerSec.Above(t.preemptionsPerSec) then None
    else e.Found(KVPreemption, None)
  }

  function KVCacheHigh(t: Thresholds): Snapshot -> bool {
    (s: Snapshot) => s.kvCacheUsagePct.Above(t.kvCacheHighPct)
  }

  function EvalKVNearCapacity(e: Eval): Option<Finding> {
    if !e.Sustained(KVCacheHigh(e.t)) then None
    else e.Found(KVNearCapacity, None)
  }

  // ── Latency ────────

  /** How much of the time to first token is queueing, in percent. The two percentiles
      come from different histograms, so the ratio is clamped. */
  function QueueShareOfTTFT(s: Snapshot): (share: Option<real>)
    ensures share.Some? ==> share.value <= 100.0
    ensures share.Some? && s.queueTimeP95Ms.value >= 0.0 ==> share.value >= 0.0
  {
    if !s.ttftP95Ms.ok || !s.queueTimeP95Ms.ok || s.ttftP95Ms.value <= 0.0 then None
    else
      var share := s.queueTimeP95Ms.value / s.ttftP95Ms.value * 100.0;
      Some(if share > 100.0 then 100.0 else share)
  }

  function EvalTTFTAdmissionBound(e: Eval): Option<Finding> {
    var t, s, share := e.t, e.latest, QueueShareOfTTFT(e.latest);
    if share == None || !s.ttftP95Ms.Above(t.ttftP95Ms) || share.value < t.queueShareOfTTFTPct then None
    else e.Found(TTFTAdmissionBound, None)
  }

  function EvalTTFTPrefillBound(e: Eval): Option<Finding> {
    var t, s, share := e.t, e.latest, QueueShareOfTTFT(e.latest);
    if share == None || !s.ttftP95Ms.Above(t.ttftP95Ms) || share.value >= t.queueShareOfTTFTPct then None
    else e.Found(TTFTPrefillBound, None)
  }

  function P95LatencyHigh(t: Thresholds): Snapshot -> bool {
    (s: Snapshot) => s.p95LatencyMs.Above(t.e2eP95Ms)
  }

  function EvalE2ELatencyHigh(e: Eval): Option<Finding> {
    if !e.Sustained(P95LatencyHigh(e.t)) then None
    else e.Found(E2ELatencyHigh, None)
  }

  function TailRatio(s: Snapshot): Option<real> {
    if !s.p95LatencyMs.ok || !s.p99LatencyMs.ok || s.p95LatencyMs.value <= 0.0 then None
    else Some(s.p99LatencyMs.value / s.p95LatencyMs.value)
  }

  function EvalTailLatencyGap(e: Eval): Option<Finding> {
    var ratio := TailRatio(e.latest);
    if ratio == None || ratio.value <= e.t.tailRatioP99P95 then None
    else e.Found(TailLatencyGap, None)
  }

  // ── Efficiency ────────

  const MIN_PROMPT_TOKENS_PER_SEC := 50.0

  function EvalPrefixCacheIneffective(e: Eval): Option<Finding> {
    var t, s := e.t, e.latest;
    if !s.prefixCacheHitRatePct.ok || !s.promptTokensPerSec.ok then None
    else if s.promptTokensPerSec.value < MIN_PROMPT_TOKENS_PER_SEC then None
    else if s.prefixCacheHitRatePct.value >= t.prefixCacheHitLowPct then None
    else e.Found(PrefixCacheIneffective, None)
  }

  function EvalLowTokenThroughput(e: Eval): Option<Finding> {
    var t, s := e.t, e.latest;
    if !s.gpuUtilizationPct.Above(t.gpuUtilHighPct)
       || !s.tokensPerSecond.ok || s.tokensPerSecond.value >= t.tokensPerSecondLow then None
    else e.Found(LowTokenThroughput, None)
  }

  function GPUMemoryHigh(t: Thresholds): Snapshot -> bool {
    (s: Snapshot) => s.gpuMemoryUsedPct.Above(t.gpuMemoryHighPct)
  }

  function EvalGPUMemoryPressure(e: Eval): Option<Finding> {
    if !e.Sustained(GPUMemoryHigh(e.t)) then None
    else e.Found(GPUMemoryPressure, None)
  }

  // ── Errors ────────

  function Failing(t: Thresholds): Snapshot -> bool {
    (s: Snapshot) => s.errorRatePct.Above(t.errorRatePct)
  }

  function EvalErrorRateHigh(e: Eval): Option<Finding> {
    if !e.Sustained(Failing(e.t)) then None
    else e.Found(ErrorRateHigh, None)
  }

  function Aborting(t: Thresholds): Snapshot -> bool {
    (s: Snapshot) => s.abortRatePct.Above(t.abortRatePct)
  }

  function EvalClientAborts(e: Eval): Option<Finding> {
    if !e.Sustained(Aborting(e.t)) then None
    else e.Found(ClientAborts, None)
  }

  // ── Scaling ────────

  function Queued(t: Thresholds): Snapshot -> bool {
    (s: Snapshot) => s.requestsWaiting.Above(t.queueWaitingRequests)
  }

  function EvalAtReplicaCeiling(e: Eval): Option<Finding> {
    var t, s := e.t, e.latest;
    if !s.replicas.ok || !s.maxReplicas.ok || s.maxReplicas.value <= 0.0 then None
    else if s.replicas.value < s.maxReplicas.value then None
    else if !e.Sustained(Queued(t)) then None
    else e.Found(AtReplicaCeiling, None)
  }

  function EvalReplicasNotReady(e: Eval): Option<Finding> {
    var t, s := e.t, e.latest;
    if !s.replicas.ok || !s.readyReplicas.ok then None
    else if s.replicas.value - s.readyReplicas.value < 1.0 then None
    else if !s.requestsWaiting.Above(t.queueWaitingRequests) then None
    else e.Found(ReplicasNotReady, None)
  }

  // ── Observability of the workload itself. These carry no window. ────────

  function EvalTelemetryIncomplete(e: Eval): Option<Finding> {
    if |e.latest.metricsMissing| == 0 then None
    else Some(Finding(0, Shown(TelemetryIncomplete, e.t, Context(e.latest, None, e.now)), None))
  }

  function EvalTelemetryStale(e: Eval): Option<Finding> {
    var age := e.latest.Age(e.now);
    if age <= e.t.staleAfter then None
    else Some(Finding(0, Shown(TelemetryStale, e.t, Context(e.latest, None, e.now)), None))
  }
}
