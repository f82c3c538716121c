/** Telemetry records: optional measurements, snapshots, severities, findings. */
module Telemetry {
  import opened Basics

  // ── Optional measurements (metric.go) ────────

  /** A float64 as the exposition format can spell one. */
  datatype Number = Finite(r: real) | PosInf | NegInf | NaN

  /** The zero value, Metric(0.0, false), is an unmeasured metric. */
  datatype Metric = Metric(value: real, ok: bool) {
    function Or(def: real): real {
      if ok then value else def
    }

    predicate Above(threshold: real) {
      ok && value > threshold
    }

    predicate Below(threshold: real) {
      ok && value < threshold
    }
  }

  const UNMEASURED := Metric(0.0, false)

  /** NaN and infinities never become measurements. */
  function Observed(v: Number): Metric {
    match v
    case Finite(r) => Metric(r, true)
    case _ => UNMEASURED
  }

  function ObservedIf(v: Number, ok: bool): Metric {
    if ok then Observed(v) else UNMEASURED
  }

  // ── Severity (types.go) ────────

  datatype Severity = Critical | Warning | Info | OtherSeverity(name: string) {
    /** Highest severity first. */
    function Rank(): nat {
      match this
      case Critical => 0
      case Warning => 1
      case Info => 2
      case OtherSeverity(_) => 3
    }
  }

  // ── Snapshots (types.go). Times and durations are nanoseconds. ────────

  type Time = int
  type Duration = int

  const SECOND: Duration := 1_000_000_000

  function Seconds(d: Duration): real {
    d as real / SECOND as real
  }

  datatype Snapshot = Snapshot(
    timestamp: Time,
    clusterName: string,
    namespace: string,
    workloadName: string,
    runtime: string,
    modelName: string,
    requestRatePerSec: Metric,
    tokensPerSecond: Metric,
    promptTokensPerSec: Metric,
    p50LatencyMs: Metric,
    p95LatencyMs: Metric,
    p99LatencyMs: Metric,
    ttftP50Ms: Metric,
    ttftP95Ms: Metric,
    ttftP99Ms: Metric,
    queueTimeP95Ms: Metric,
    requestsRunning: Metric,
    requestsWaiting: Metric,
    waitingForCapacity: Metric,
    waitingDeferred: Metric,
    gpuUtilizationPct: Metric,
    gpuMemoryUsedPct: Metric,
    kvCacheUsagePct: Metric,
    preemptionsPerSec: Metric,
    prefixCacheHitRatePct: Metric,
    errorRatePct: Metric,
    abortRatePct: Metric,
    replicas: Metric,
    readyReplicas: Metric,
    maxReplicas: Metric,
    scrapeDurationMs: Metric,
    metricsMissing: seq<string>
  ) {
    function Age(now: Time): Duration {
      now - timestamp
    }

    function Key(): string {
      WorkloadKey(namespace, workloadName)
    }
  }

  /** Workload names are only unique within a namespace. */
  function WorkloadKey(namespace: string, workloadName: string): string {
    if namespace == "" then workloadName else namespace + "/" + workloadName
  }

  predicate KeyLess(a: Snapshot, b: Snapshot) {
    StrLess(a.Key(), b.Key())
  }

  // ── Findings (types.go) ────────

  datatype Comparison = NoComparison | Greater | Less | AtLeast | AtMost

  /** What a piece of evidence is a reading of; its name is what the reader sees. */
  datatype Measure =
    | WaitingRequests | RunningRequests | DeferredRequests | CapacityRequests | WaitingTrend
    | GPUUtilization | GPUMemory | KVCacheUsage | PreemptionRate
    | LatencyP95 | LatencyP99 | LatencyRatio | TTFTP95 | QueueTimeP95 | QueueTimeShare
    | GeneratedTokens | PromptTokenRate | PrefixCacheHitRate
    | ErrorShare | AbortShare
    | ReplicaCount | ReadyReplicaCount | MaxReplicaCount
    | MissingCount | TelemetryAge
  {
    function Name(): string {
      match this
      case WaitingRequests => "requests_waiting"
      case GPUUtilization => "gpu_utilization_percent"
      case RunningRequests => "requests_running"
      case KVCacheUsage => "kv_cache_usage_percent"
      case WaitingTrend => "requests_waiting_trend"
      case DeferredRequests => "waiting_deferred"
      case CapacityRequests => "waiting_for_capacity"
      case PreemptionRate => "preemptions_per_sec"
      case TTFTP95 => "ttft_p95_ms"
      case QueueTimeShare => "queue_time_share_of_ttft"
      case QueueTimeP95 => "queue_time_p95_ms"
      case PrefixCacheHitRate => "prefix_cache_hit_rate_percent"
      case LatencyP95 => "p95_latency_ms"
      case GeneratedTokens => "tokens_per_second"
      case LatencyRatio => "p99_over_p95_ratio"
      case LatencyP99 => "p99_latency_ms"
      case PromptTokenRate => "prompt_tokens_per_sec"
      case GPUMemory => "gpu_memory_used_percent"
      case ErrorShare => "error_rate_percent"
      case AbortShare => "abort_rate_percent"
      case ReplicaCount => "replicas"
      case MaxReplicaCount => "max_replicas"
      case ReadyReplicaCount => "ready_replicas"
      case MissingCount => "metrics_missing"
      case TelemetryAge => "telemetry_age_seconds"
    }
  }

  datatype Evidence = Evidence(
    metric: Measure,
    observed: real,
    threshold: real,
    comparison: Comparison
  ) {
    /** The reader's check of one piece of evidence: the printed comparison holds
        between the two printed numbers. Context entries have nothing to check. */
    predicate Holds() {
      match comparison
      case NoComparison => true
      case Greater => observed > threshold
      case Less => observed < threshold
      case AtLeast => observed >= threshold
      case AtMost => observed <= threshold
    }
  }

  datatype Recommendation = Recommendation(
    id: string,
    code: string,
    severity: Severity,
    namespace: string,
    workloadName: string,
    runtime: string,
    title: string,
    evidence: seq<Evidence>,
    observedAt: Time,
    windowSeconds: int
  )
}
