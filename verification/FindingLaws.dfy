/** What a reader may conclude from a finding's printed code: when exactly it is reported,
    how severe it is, what it was read from and where it stands in the output. Nothing here
    goes through the rules' own definitions: codes, severities and conditions are those of
    the rule catalogue (docs/RECOMMENDATIONS.md). */
module FindingLaws {
  import opened Basics
  import opened Telemetry
  import opened Rules
  import opened RuleLaws
  import opened Suppression
  import opened Engine
  import opened Analyze
  import opened Analysis
  import W = Window
  import A = AlertModel
  import AlertSafety

  // ── What each code says ────────

  predicate Over(m: Metric, limit: real) {
    m.ok && m.value > limit
  }

  predicate Under(m: Metric, limit: real) {
    m.ok && m.value < limit
  }

  /** What a code says of every sample it was judged on. */
  predicate SaysThroughout(text: string, s: Snapshot, t: Thresholds) {
    match text
    case "IFA-CAP-001" => Over(s.requestsWaiting, t.queueWaitingRequests) && Over(s.gpuUtilizationPct, t.gpuUtilHighPct)
    case "IFA-CAP-002" => Over(s.requestsWaiting, t.queueWaitingRequests) && Under(s.gpuUtilizationPct, t.gpuUtilLowPct)
    case "IFA-KV-002" => Over(s.kvCacheUsagePct, t.kvCacheHighPct)
    case "IFA-LAT-003" => Over(s.p95LatencyMs, t.e2eP95Ms)
    case "IFA-EFF-003" => Over(s.gpuMemoryUsedPct, t.gpuMemoryHighPct)
    case "IFA-ERR-001" => Over(s.errorRatePct, t.errorRatePct)
    case "IFA-ERR-002" => Over(s.abortRatePct, t.abortRatePct)
    case "IFA-SCL-001" => Over(s.requestsWaiting, t.queueWaitingRequests)
    case _ => false
  }

  /** The codes that ask for a condition to last. */
  predicate Lasting(text: string) {
    text in ["IFA-CAP-001", "IFA-CAP-002", "IFA-KV-002", "IFA-LAT-003", "IFA-EFF-003", "IFA-ERR-001", "IFA-ERR-002",
             "IFA-SCL-001"]
  }

  /** What a code says of the newest sample alone. */
  predicate SaysNow(text: string, s: Snapshot, t: Thresholds, now: Time) {
    match text
    case "IFA-CAP-003" => Over(s.requestsWaiting, t.queueWaitingRequests)
    case "IFA-CAP-004" =>
      && s.runtime == "vllm" && s.waitingDeferred.ok && Under(s.waitingForCapacity, s.waitingDeferred.value)
      && s.waitingDeferred.value + s.waitingForCapacity.value > t.queueWaitingRequests
    case "IFA-KV-001" => Over(s.preemptionsPerSec, t.preemptionsPerSec)
    case "IFA-LAT-001" => SlowFirstToken(s, t) && MostlyQueueing(s, t)
    case "IFA-LAT-002" => SlowFirstToken(s, t) && !MostlyQueueing(s, t)
    case "IFA-LAT-004" =>
      && Over(s.p95LatencyMs, 0.0) && Over(s.p99LatencyMs, t.tailRatioP99P95 * s.p95LatencyMs.value)
    case "IFA-EFF-001" =>
      && s.runtime == "vllm" && Under(s.prefixCacheHitRatePct, t.prefixCacheHitLowPct)
      && s.promptTokensPerSec.ok && s.promptTokensPerSec.value >= 50.0
    case "IFA-EFF-002" => Over(s.gpuUtilizationPct, t.gpuUtilHighPct) && Under(s.tokensPerSecond, t.tokensPerSecondLow)
    case "IFA-SCL-001" => s.replicas.ok && Over(s.maxReplicas, 0.0) && s.maxReplicas.value <= s.replicas.value
    case "IFA-SCL-002" =>
      && s.replicas.ok && s.readyReplicas.ok && s.readyReplicas.value + 1.0 <= s.replicas.value
      && Over(s.requestsWaiting, t.queueWaitingRequests)
    case "IFA-OBS-001" => s.metricsMissing != []
    case "IFA-OBS-002" => now - s.timestamp > t.staleAfter
    case _ => Lasting(text)
  }

  predicate SlowFirstToken(s: Snapshot, t: Thresholds) {
    Over(s.ttftP95Ms, t.ttftP95Ms) && s.ttftP95Ms.value > 0.0 && s.queueTimeP95Ms.ok
  }

  /** At least the threshold's share of the time to the first token is spent queueing. The
      share never counts for more than the whole. */
  predicate MostlyQueueing(s: Snapshot, t: Thresholds) {
    t.queueShareOfTTFTPct <= 100.0 &&
    s.queueTimeP95Ms.value * 100.0 >= t.queueShareOfTTFTPct * s.ttftP95Ms.value
  }

  /** At least six samples, and the waiting requests of the last third exceed those of the
      first third by more than one each on average. */
  predicate Rises(r: seq<Snapshot>) {
    var k := |r| / 3;
    && |r| >= 6
    && (forall i :: 0 <= i < |r| && (i < k || |r| - k <= i) ==> r[i].requestsWaiting.ok)
    && W.SumOf(r[|r| - k..], Waiting) - W.SumOf(r[..k], Waiting) > k as real
  }

  predicate Diagnosed(text: string, e: Eval) {
    && SaysNow(text, e.latest, e.t, e.now)
    && (Lasting(text) ==> W.Sustained(e.latest, e.window, e.t.sustainFor, s => SaysThroughout(text, s, e.t)))
    && (text == "IFA-CAP-003" ==> Rises(W.Recent(e.window, 3 * e.t.sustainFor)))
  }

  /** A finding with the one code is left out beside one with the other. */
  predicate GivesWay(text: string, to: string) {
    match text
    case "IFA-LAT-003" => to in ["IFA-CAP-001", "IFA-CAP-002", "IFA-LAT-001", "IFA-LAT-002"]
    case "IFA-CAP-001" => to in ["IFA-CAP-004", "IFA-SCL-001"]
    case "IFA-CAP-002" => to == "IFA-CAP-004"
    case "IFA-KV-002" => to == "IFA-KV-001"
    case _ => false
  }

  lemma MeansApart(a: real, b: real, k: nat)
    requires k > 0
    ensures b / k as real - a / k as real > 1.0 <==> b - a > k as real
  {
    var n := k as real;
    assert b / n - a / n == (b - a) / n;
    var q := (b - a) / n;
    assert q * n == b - a;
    assert (q - 1.0) * n == b - a - n;
  }

  lemma ThirdsMeasured(r: seq<Snapshot>, k: nat)
    requires 2 * k <= |r|
    ensures W.AllMeasured(r[..k], Waiting) && W.AllMeasured(r[|r| - k..], Waiting) <==>
            forall i :: 0 <= i < |r| && (i < k || |r| - k <= i) ==> r[i].requestsWaiting.ok
  {
    var early, late := r[..k], r[|r| - k..];
    assert forall i :: 0 <= i < k ==> early[i] == r[i];
    assert forall i :: |r| - k <= i < |r| ==> r[i] == late[i - (|r| - k)];
  }

  lemma RisesExactly(r: seq<Snapshot>)
    ensures Rises(r) <==> W.TrendOver(r, Waiting).Some? && W.TrendOver(r, Waiting).value > 1.0
  {
    if |r| >= 6 {
      var k := |r| / 3;
      ThirdsMeasured(r, k);
      MeansApart(W.SumOf(r[..k], Waiting), W.SumOf(r[|r| - k..], Waiting), k);
    }
  }

  lemma ShareExactly(s: Snapshot, t: Thresholds)
    requires SlowFirstToken(s, t)
    ensures QueueShareOfTTFT(s).Some?
    ensures QueueShareOfTTFT(s).value >= t.queueShareOfTTFTPct <==> MostlyQueueing(s, t)
  {
    var q, f, p := s.queueTimeP95Ms.value, s.ttftP95Ms.value, t.queueShareOfTTFTPct;
    var share := q / f * 100.0;
    assert share * f == q * 100.0;
    assert (share - p) * f == q * 100.0 - p * f;
  }

  lemma RatioExactly(s: Snapshot, t: Thresholds)
    requires Over(s.p95LatencyMs, 0.0)
    ensures s.p99LatencyMs.value / s.p95LatencyMs.value > t.tailRatioP99P95 <==>
            s.p99LatencyMs.value > t.tailRatioP99P95 * s.p95LatencyMs.value
  {
    var a, b, p := s.p99LatencyMs.value, s.p95LatencyMs.value, t.tailRatioP99P95;
    var ratio := a / b;
    assert ratio * b == a;
    assert (ratio - p) * b == a - p * b;
  }

  lemma LastingExactly(code: Code)
    ensures Lasting(Text(code)) <==>
            code == QueueWithSaturatedGPU || code == QueueWithIdleGPU || code == KVNearCapacity ||
            code == E2ELatencyHigh || code == GPUMemoryPressure || code == ErrorRateHigh || code == ClientAborts ||
            code == AtReplicaCeiling
  {
  }

  lemma HeldExactly(code: Code, t: Thresholds, s: Snapshot)
    requires Held(code, t).Some?
    ensures Held(code, t).value(s) <==> SaysThroughout(Text(code), s, t)
  {
  }

  lemma LastingGuard(code: Code, s: Snapshot, t: Thresholds, now: Time)
    requires Held(code, t).Some?
    ensures code.AppliesTo(s.runtime) && Guard(code, s, t, now) <==> SaysNow(Text(code), s, t, now)
  {
    LastingExactly(code);
  }

  lemma LatencyGuard(code: Code, s: Snapshot, t: Thresholds, now: Time)
    requires code == TTFTAdmissionBound || code == TTFTPrefillBound || code == TailLatencyGap
    ensures Guard(code, s, t, now) <==> SaysNow(Text(code), s, t, now)
  {
    if SlowFirstToken(s, t) {
      ShareExactly(s, t);
    }
    if Over(s.p95LatencyMs, 0.0) {
      RatioExactly(s, t);
    }
  }

  lemma NewestGuard(code: Code, s: Snapshot, t: Thresholds, now: Time)
    requires Held(code, t).None?
    requires code != TTFTAdmissionBound && code != TTFTPrefillBound && code != TailLatencyGap
    ensures code.AppliesTo(s.runtime) && Guard(code, s, t, now) <==> SaysNow(Text(code), s, t, now)
  {
  }

  lemma GuardExactly(code: Code, s: Snapshot, t: Thresholds, now: Time)
    ensures code.AppliesTo(s.runtime) && Guard(code, s, t, now) <==> SaysNow(Text(code), s, t, now)
  {
    if Held(code, t).Some? {
      LastingGuard(code, s, t, now);
    } else if code == TTFTAdmissionBound || code == TTFTPrefillBound || code == TailLatencyGap {
      LatencyGuard(code, s, t, now);
    } else {
      NewestGuard(code, s, t, now);
    }
  }

  lemma SustainedExactly(code: Code, e: Eval)
    requires Held(code, e.t).Some?
    ensures e.Sustained(Held(code, e.t).value) <==>
            W.Sustained(e.latest, e.window, e.t.sustainFor, s => SaysThroughout(Text(code), s, e.t))
  {
    forall s ensures Held(code, e.t).value(s) == SaysThroughout(Text(code), s, e.t) {
      HeldExactly(code, e.t, s);
    }
    SameSustained(e, Held(code, e.t).value, s => SaysThroughout(Text(code), s, e.t));
  }

  lemma GrowingText(code: Code)
    ensures Text(code) == "IFA-CAP-003" <==> code == QueueGrowing
  {
  }

  /** A rule applies and fires exactly when what its code says is so. */
  lemma DiagnosedExactly(code: Code, e: Eval)
    ensures code.AppliesTo(e.latest.runtime) && Fires(code, e) <==> Diagnosed(Text(code), e)
  {
    FiresExactly(code, e);
    GuardExactly(code, e.latest, e.t, e.now);
    LastingExactly(code);
    GrowingText(code);
    RisesExactly(W.Recent(e.window, 3 * e.t.sustainFor));
    assert e.t.sustainFor * W.TREND_WINDOW == 3 * e.t.sustainFor;
    if Held(code, e.t).Some? {
      SustainedExactly(code, e);
    }
  }

  lemma GivesWayExactly(code: Code, to: Code)
    ensures GivesWay(Text(code), Text(to)) <==> code in Supersedes(to)
  {
  }

  // ── When a code is reported ────────

  ghost predicate Names(out: seq<Recommendation>, s: Snapshot, text: string) {
    exists i :: 0 <= i < |out| && KeyOf(out[i]) == s.Key() && out[i].code == text
  }

  lemma SurvivesExactly(code: Code, e: Eval)
    ensures code in Reported(Fired(DEFAULT_RULES, BuiltIn(e)), Edge(Supersedes)) <==>
            Diagnosed(Text(code), e) && forall to: Code :: GivesWay(Text(code), Text(to)) ==> !Diagnosed(Text(to), e)
  {
    FiredExactly(code, e);
    DiagnosedExactly(code, e);
    forall to: Code
      ensures GivesWay(Text(code), Text(to)) <==> Edge(Supersedes)(to, code)
      ensures to in Fired(DEFAULT_RULES, BuiltIn(e)) <==> Diagnosed(Text(to), e)
    {
      GivesWayExactly(code, to);
      FiredExactly(to, e);
      DiagnosedExactly(to, e);
    }
  }

  lemma NamedSurvives(byKey: seq<Snapshot>, given: Input, s: Snapshot, code: Code)
    requires DistinctKeys(multiset(byKey)) && s in byKey && Names(Reports(byKey, given), s, Text(code))
    ensures code in Reported(Fired(DEFAULT_RULES, BuiltIn(given.For(s))), Edge(Supersedes))
  {
    var out := Reports(byKey, given);
    var i :| 0 <= i < |out| && KeyOf(out[i]) == s.Key() && out[i].code == Text(code);
    var from := InReports(byKey, given, out[i]);
    ReportKey(from, given, out[i]);
    assert s in multiset(byKey) && from in multiset(byKey);
    ReportedCode(s, given, out[i], code);
  }

  lemma SurvivorNamed(byKey: seq<Snapshot>, given: Input, s: Snapshot, code: Code)
    requires s in byKey
    requires code in Reported(Fired(DEFAULT_RULES, BuiltIn(given.For(s))), Edge(Supersedes))
    ensures Names(Reports(byKey, given), s, Text(code))
  {
    UnsuppressedIsReported(s, given, code);
    var out, r := Reports(byKey, given), OutcomeOf(code, given.For(s)).value;
    ReportsContain(byKey, given, s, r);
    OutcomeIdentity(code, given.For(s), r);
    var i :| 0 <= i < |out| && out[i] == r;
    assert KeyOf(out[i]) == s.Key() && out[i].code == Text(code);
  }

  /** A code is reported for a workload exactly when what the code says of the workload is
      so and none of the codes it gives way to says something true of it. */
  lemma ReportedExactly(out: seq<Recommendation>, latest: seq<Snapshot>, given: Input, s: Snapshot, code: Code)
    requires IsAnalysis(out, latest, given) && DistinctKeys(multiset(latest)) && s in latest
    ensures Names(out, s, Text(code)) <==>
            Diagnosed(Text(code), given.For(s)) &&
            forall to: Code :: GivesWay(Text(code), Text(to)) ==> !Diagnosed(Text(to), given.For(s))
  {
    var byKey :| multiset(byKey) == multiset(latest) && Ordered(byKey, KeyLess) && out == Reports(byKey, given);
    SameMembers(byKey, latest);
    SurvivesExactly(code, given.For(s));
    if Names(out, s, Text(code)) {
      NamedSurvives(byKey, given, s, code);
    }
    if code in Reported(Fired(DEFAULT_RULES, BuiltIn(given.For(s))), Edge(Supersedes)) {
      SurvivorNamed(byKey, given, s, code);
    }
  }

  // ── What a finding says beside its code ────────

  predicate CriticalCode(text: string) {
    text in ["IFA-CAP-003", "IFA-KV-001", "IFA-ERR-001", "IFA-SCL-001", "IFA-SCL-002"]
  }

  predicate InfoCode(text: string) {
    text in ["IFA-LAT-004", "IFA-EFF-001", "IFA-EFF-002", "IFA-OBS-001"]
  }

  /** How severe the documentation says a finding with this code is. */
  function Grade(text: string): Severity {
    if CriticalCode(text) then Critical else if InfoCode(text) then Info else Warning
  }

  lemma CodesGraded(text: string)
    ensures !(CriticalCode(text) && InfoCode(text))
  {
  }

  predicate AboutTelemetry(text: string) {
    text in ["IFA-OBS-001", "IFA-OBS-002"]
  }

  /** d nanoseconds are this many whole seconds, counted towards zero. */
  predicate WholeSecondsOf(n: int, d: Duration) {
    if d >= 0 then n * 1_000_000_000 <= d < (n + 1) * 1_000_000_000
    else (n - 1) * 1_000_000_000 < d <= n * 1_000_000_000
  }

  /** From the first sample of the tail to the last. */
  function TailSeconds(w: seq<Snapshot>): Duration {
    if w == [] then 0 else w[|w| - 1].timestamp - w[0].timestamp
  }

  /** The finding is about this snapshot, as severe as its code is, and spans the tail of
      the history the rules looked at unless it is about the telemetry itself. */
  predicate Describes(r: Recommendation, s: Snapshot, e: Eval) {
    && r.namespace == s.namespace && r.workloadName == s.workloadName && r.runtime == s.runtime
    && r.id == r.code + ":" + (if s.namespace == "" then s.workloadName else s.namespace + "/" + s.workloadName)
    && r.observedAt == s.timestamp
    && r.severity == Grade(r.code)
    && (if AboutTelemetry(r.code) then r.windowSeconds == 0
        else WholeSecondsOf(r.windowSeconds, TailSeconds(W.Recent(e.window, e.t.sustainFor))))
  }

  lemma SeverityExactly(code: Code)
    ensures code.DefaultSeverity() == Grade(Text(code))
    ensures AboutTelemetry(Text(code)) <==> code == TelemetryIncomplete || code == TelemetryStale
  {
  }

  lemma TailSpan(e: Eval)
    ensures e.Span() == TailSeconds(W.Recent(e.window, e.t.sustainFor))
  {
  }

  lemma LastingFoundOver(code: Code, e: Eval)
    requires Fires(code, e) && Held(code, e.t).Some?
    ensures Evaluate(code, e).value.severity == None && Evaluate(code, e).value.window == e.Span()
  {
  }

  lemma FoundOver(code: Code, e: Eval)
    requires Fires(code, e)
    ensures Evaluate(code, e).value.severity == None
    ensures Evaluate(code, e).value.window ==
            if code == TelemetryIncomplete || code == TelemetryStale then 0 else e.Span()
  {
    if Held(code, e.t).Some? {
      LastingFoundOver(code, e);
    }
  }

  lemma OutcomeDescribes(code: Code, e: Eval, r: Recommendation)
    requires OutcomeOf(code, e) == Some(r)
    ensures Describes(r, e.latest, e)
  {
    SeverityExactly(code);
    FoundOver(code, e);
    TailSpan(e);
    assert Text(code) + ":" + e.latest.Key() == Text(code) + (":" + e.latest.Key());
  }

  /** Every finding describes one of the workloads analysed. */
  lemma FindingDescribed(out: seq<Recommendation>, latest: seq<Snapshot>, given: Input, r: Recommendation)
    returns (s: Snapshot)
    requires IsAnalysis(out, latest, given) && r in out
    ensures s in latest && Describes(r, s, given.For(s))
  {
    var byKey :| multiset(byKey) == multiset(latest) && Ordered(byKey, KeyLess) && out == Reports(byKey, given);
    SameMembers(byKey, latest);
    s := InReports(byKey, given, r);
    var code := ReportedBy(s, given, r);
    OutcomeDescribes(code, given.For(s), r);
  }

  /** Within a workload the critical codes come first and the informational ones last. */
  predicate Precedes(a: Recommendation, b: Recommendation) {
    || (CriticalCode(a.code) && !CriticalCode(b.code))
    || (!InfoCode(a.code) && InfoCode(b.code))
    || (CriticalCode(a.code) == CriticalCode(b.code) && InfoCode(a.code) == InfoCode(b.code) && StrLess(a.code, b.code))
  }

  lemma GradedOrder(a: Recommendation, b: Recommendation)
    requires FindingLess(a, b) && a.severity == Grade(a.code) && b.severity == Grade(b.code)
    ensures Precedes(a, b)
  {
    CodesGraded(a.code);
    CodesGraded(b.code);
  }

  /** The output is in the order of the workloads' keys, within a workload critical codes
      before the others and informational ones after them, and then by code. */
  lemma CriticalFirst(out: seq<Recommendation>, latest: seq<Snapshot>, given: Input, i: nat, j: nat)
    requires IsAnalysis(out, latest, given) && DistinctKeys(multiset(latest)) && i < j < |out|
    ensures StrLess(KeyOf(out[i]), KeyOf(out[j])) || (KeyOf(out[i]) == KeyOf(out[j]) && Precedes(out[i], out[j]))
  {
    AnalysisOrdered(out, latest, given);
    var s := FindingDescribed(out, latest, given, out[i]);
    var u := FindingDescribed(out, latest, given, out[j]);
    if FindingLess(out[i], out[j]) {
      GradedOrder(out[i], out[j]);
    }
    assert ReportLess(out[i], out[j]);
  }

  // ── Which codes reach the alert subscribers ────────

  /** The codes a sender with this minimum severity announces. */
  predicate Announced(text: string, minimum: Severity) {
    match minimum
    case Critical => CriticalCode(text)
    case Warning => !InfoCode(text)
    case _ => true
  }

  lemma EligibleByCode(c: A.Config, r: Recommendation)
    requires A.ValidConfig(c) && r.severity == Grade(r.code)
    ensures A.Eligible(c, r) <==> Announced(r.code, c.minSeverity)
  {
    CodesGraded(r.code);
  }

  /** Once a Notify of an analysis is about to return, and none of its payloads was dropped,
      the open alerts are exactly the findings whose codes the minimum severity asks for. */
  lemma OpenExactlyAnnounced(s: A.State, latest: seq<Snapshot>, given: Input, id: string)
    requires A.Reachable(s) && A.Enabled(s, A.EndNotify) && s.dropped == s.producer.base.dropped
    requires IsAnalysis(s.producer.recs, latest, given)
    ensures var out := s.producer.recs;
            id in s.open <==>
            exists i :: 0 <= i < |out| && out[i].id == id && Announced(out[i].code, s.config.minSeverity)
  {
    var out := s.producer.recs;
    AlertSafety.NotifyConverges(s);
    forall i | 0 <= i < |out| ensures A.Eligible(s.config, out[i]) <==> Announced(out[i].code, s.config.minSeverity) {
      var from := FindingDescribed(out, latest, given, out[i]);
      EligibleByCode(s.config, out[i]);
    }
    assert id in A.EligibleIds(s.config, out) <==>
           exists i :: 0 <= i < |out| && out[i].id == id && Announced(out[i].code, s.config.minSeverity);
  }
}
