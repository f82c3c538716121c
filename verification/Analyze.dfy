/** Analysis (internal/recommender/recommender.go): every rule over every workload,
    suppression, and one canonical output. */
module Analyze {
  import opened Basics
  import opened Telemetry
  import opened Rules
  import opened RuleLaws
  import opened EvidenceLaws
  import opened Suppression
  import opened Engine

  // ── Codes ────────

  function Text(code: Code): string {
    match code
    case QueueWithSaturatedGPU => "IFA-CAP-001"
    case QueueWithIdleGPU => "IFA-CAP-002"
    case QueueGrowing => "IFA-CAP-003"
    case QueueDeferred => "IFA-CAP-004"
    case KVPreemption => "IFA-KV-001"
    case KVNearCapacity => "IFA-KV-002"
    case TTFTAdmissionBound => "IFA-LAT-001"
    case TTFTPrefillBound => "IFA-LAT-002"
    case E2ELatencyHigh => "IFA-LAT-003"
    case TailLatencyGap => "IFA-LAT-004"
    case PrefixCacheIneffective => "IFA-EFF-001"
    case LowTokenThroughput => "IFA-EFF-002"
    case GPUMemoryPressure => "IFA-EFF-003"
    case ErrorRateHigh => "IFA-ERR-001"
    case ClientAborts => "IFA-ERR-002"
    case AtReplicaCeiling => "IFA-SCL-001"
    case ReplicasNotReady => "IFA-SCL-002"
    case TelemetryIncomplete => "IFA-OBS-001"
    case TelemetryStale => "IFA-OBS-002"
  }

  /** The rule a code's text names, read off its family and number. */
  function FromText(t: string): Code {
    if |t| < 10 then TelemetryStale
    else
      var family, number := (t[4], t[5]), t[|t| - 1];
      if family == ('C', 'A') then
        if number == '1' then QueueWithSaturatedGPU
        else if number == '2' then QueueWithIdleGPU
        else if number == '3' then QueueGrowing else QueueDeferred
      else if family == ('K', 'V') then
        if number == '1' then KVPreemption else KVNearCapacity
      else if family == ('L', 'A') then
        if number == '1' then TTFTAdmissionBound
        else if number == '2' then TTFTPrefillBound
        else if number == '3' then E2ELatencyHigh else TailLatencyGap
      else if family == ('E', 'F') then
        if number == '1' then PrefixCacheIneffective
        else if number == '2' then LowTokenThroughput else GPUMemoryPressure
      else if family == ('E', 'R') then
        if number == '1' then ErrorRateHigh else ClientAborts
      else if family == ('S', 'C') then
        if number == '1' then AtReplicaCeiling else ReplicasNotReady
      else
        if number == '1' then TelemetryIncomplete else TelemetryStale
  }

  lemma FromTextOfText(code: Code)
    ensures FromText(Text(code)) == code
  {
  }

  /** Codes are permanent names: no two rules share one. */
  lemma TextInjective(a: Code, b: Code)
    requires Text(a) == Text(b)
    ensures a == b
  {
    FromTextOfText(a);
    FromTextOfText(b);
  }

  lemma NoColon(code: Code)
    ensures forall i :: 0 <= i < |Text(code)| ==> Text(code)[i] != ':'
  {
  }

  predicate CodeLess(a: Code, b: Code) {
    StrLess(Text(a), Text(b))
  }

  const DEFAULT_RULES: set<Code> := {
    QueueWithSaturatedGPU, QueueWithIdleGPU, QueueGrowing, QueueDeferred,
    KVPreemption, KVNearCapacity,
    TTFTAdmissionBound, TTFTPrefillBound, E2ELatencyHigh, TailLatencyGap,
    PrefixCacheIneffective, LowTokenThroughput, GPUMemoryPressure,
    ErrorRateHigh, ClientAborts, AtReplicaCeiling, ReplicasNotReady,
    TelemetryIncomplete, TelemetryStale}

  lemma EveryRuleIsDefault(code: Code)
    ensures code in DEFAULT_RULES
  {
  }

  lemma CodesOrdered()
    ensures StrictOrderOn(DEFAULT_RULES, CodeLess)
  {
    forall a, b | a in DEFAULT_RULES && b in DEFAULT_RULES
      ensures a != b ==> CodeLess(a, b) || CodeLess(b, a)
      ensures !CodeLess(a, a)
    {
      StrLessTotal(Text(a), Text(b));
      StrLessIrreflexive(Text(a));
      if Text(a) == Text(b) {
        TextInjective(a, b);
      }
    }
    forall a, b, c | CodeLess(a, b) && CodeLess(b, c) ensures CodeLess(a, c) {
      StrLessTransitive(Text(a), Text(b), Text(c));
    }
  }

  // ── The built-in rules ────────

  function Supersedes(code: Code): set<Code> {
    code.Supersedes()
  }

  function SupersedesRank(code: Code): int {
    match code
    case QueueDeferred | AtReplicaCeiling => 3
    case QueueWithSaturatedGPU | QueueWithIdleGPU => 2
    case TTFTAdmissionBound | TTFTPrefillBound | KVPreemption => 1
    case _ => 0
  }

  lemma BuiltInAcyclic()
    ensures Acyclic(Edge(Supersedes))
  {
    RankedAcyclic(Edge(Supersedes), SupersedesRank);
  }

  /** int(d.Seconds()): whole seconds, truncated towards zero. */
  function WholeSeconds(d: Duration): (n: int)
    ensures d >= 0 ==> n * SECOND <= d < (n + 1) * SECOND
    ensures d <= 0 ==> (n - 1) * SECOND < d <= n * SECOND
  {
    if d >= 0 then d / SECOND else -((-d) / SECOND)
  }

  function RecommendationID(code: Code, s: Snapshot): string {
    Text(code) + (":" + s.Key())
  }

  function Report(code: Code, s: Snapshot, f: Finding): Recommendation {
    Recommendation(
      RecommendationID(code, s), Text(code),
      if f.severity.Some? then f.severity.value else code.DefaultSeverity(),
      s.namespace, s.workloadName, s.runtime, "", f.evidence, s.timestamp, WholeSeconds(f.window))
  }

  /** What a built-in rule reports, if it applies to the workload's runtime and fires. */
  function OutcomeOf(code: Code, e: Eval): Option<Recommendation> {
    if code.AppliesTo(e.latest.runtime) && Evaluate(code, e).Some?
    then Some(Report(code, e.latest, Evaluate(code, e).value))
    else None
  }

  function BuiltIn(e: Eval): Code -> Option<Recommendation> {
    (code: Code) => OutcomeOf(code, e)
  }

  lemma OutcomeCode(code: Code, e: Eval)
    ensures OutcomeOf(code, e).Some? ==> OutcomeOf(code, e).value.code == Text(code)
  {
  }

  lemma BuiltInCoded(e: Eval)
    ensures Coded(BuiltIn(e))
  {
    forall c, d | BuiltIn(e)(c).Some? && BuiltIn(e)(d).Some? && BuiltIn(e)(c).value.code == BuiltIn(e)(d).value.code
      ensures c == d
    {
      OutcomeCode(c, e);
      OutcomeCode(d, e);
      TextInjective(c, d);
    }
  }

  method AnalyzeWorkload(snap: Snapshot, hist: seq<Snapshot>, t: Thresholds, now: Time)
    returns (out: seq<Recommendation>)
    ensures var e := Eval(snap, hist, t, now);
            Coded(BuiltIn(e)) && out == WorkloadReport(DEFAULT_RULES, BuiltIn(e), Supersedes)
  {
    var e := Eval(snap, hist, t, now);
    BuiltInCoded(e);
    CodesOrdered();
    var rules := SortSet(DEFAULT_RULES, CodeLess);
    out := Run(rules, BuiltIn(e), Supersedes);
  }

  lemma FiredExactly(code: Code, e: Eval)
    ensures code in Fired(DEFAULT_RULES, BuiltIn(e)) <==> code.AppliesTo(e.latest.runtime) && Fires(code, e)
  {
    EveryRuleIsDefault(code);
  }

  // ── Missing data after suppression ────────

  /** A report can gain a finding when measurements are taken away, but never a new one: it
      had fired before, superseded by a rule that now has too little data. */
  lemma RevealedByMissingData(code: Code, e: Eval, than: Eval) returns (cause: Code)
    requires e.t == than.t && e.now == than.now
    requires Weaker(e.latest, than.latest) && WeakerWindow(e.window, than.window)
    ensures code in Reported(Fired(DEFAULT_RULES, BuiltIn(e)), Edge(Supersedes)) &&
            code !in Reported(Fired(DEFAULT_RULES, BuiltIn(than)), Edge(Supersedes)) ==>
              Fires(code, than) && Fires(cause, than) && code in Supersedes(cause) && !Fires(cause, e)
  {
    var now, before := Fired(DEFAULT_RULES, BuiltIn(e)), Fired(DEFAULT_RULES, BuiltIn(than));
    cause := code;
    if code in Reported(now, Edge(Supersedes)) && code !in Reported(before, Edge(Supersedes)) {
      FiredExactly(code, e);
      NeverGainsFromMissingData(code, e, than);
      FiredExactly(code, than);
      cause :| cause in before && Edge(Supersedes)(cause, code);
      FiredExactly(cause, than);
      FiredExactly(cause, e);
    }
  }

  // ── The symptom rule and its causes ────────

  lemma SymptomSupersededBy(code: Code)
    ensures E2ELatencyHigh in Supersedes(code) <==>
            code == QueueWithSaturatedGPU || code == QueueWithIdleGPU ||
            code == TTFTAdmissionBound || code == TTFTPrefillBound
  {
  }

  /** High end-to-end latency, the symptom, is reported exactly when it fires and none of
      the four diagnoses that supersede it does, whether or not those are reported
      themselves. */
  lemma SymptomReportedExactly(e: Eval)
    ensures E2ELatencyHigh in Reported(Fired(DEFAULT_RULES, BuiltIn(e)), Edge(Supersedes)) <==>
            Fires(E2ELatencyHigh, e)
            && !Fires(QueueWithSaturatedGPU, e) && !Fires(QueueWithIdleGPU, e)
            && !Fires(TTFTAdmissionBound, e) && !Fires(TTFTPrefillBound, e)
  {
    var fired := Fired(DEFAULT_RULES, BuiltIn(e));
    forall code ensures code in fired <==> code.AppliesTo(e.latest.runtime) && Fires(code, e) {
      FiredExactly(code, e);
    }
    forall code ensures Edge(Supersedes)(code, E2ELatencyHigh) <==>
      code == QueueWithSaturatedGPU || code == QueueWithIdleGPU || code == TTFTAdmissionBound || code ==
        TTFTPrefillBound
    {
      SymptomSupersededBy(code);
    }
  }

  /** A vLLM snapshot that measures nothing but latency and preemptions. */
  function Preempting(t: Thresholds, at: Time): Snapshot {
    var no := UNMEASURED;
    Snapshot(at, "", "inference", "chat", "vllm", "", no, no, no, no, Metric(t.e2eP95Ms + 1.0, true), no, no, no, no,
      no, no, no, no, no,
             no, no, no, Metric(t.preemptionsPerSec + 1.0, true), no, no, no, no, no, no, no, [])
  }

  lemma QuietNow(code: Code, e: Eval)
    requires EndsInLatest(e) && e.window != [] && Held(code, e.t).Some? && !Held(code, e.t).value(e.latest)
    ensures !Fires(code, e)
  {
    FiresExactly(code, e);
    if e.Sustained(Held(code, e.t).value) {
      EndingIsInTail(e);
      HeldNow(code, e);
    }
  }

  /** It is not reported only when nothing more specific fired, as its explanation tells
      the operator: for any thresholds, exhausted KV cache can be reported beside it. */
  lemma SymptomBesideCause(t: Thresholds) returns (e: Eval)
    ensures e.t == t && EndsInLatest(e)
    ensures Fires(KVPreemption, e)
    ensures E2ELatencyHigh in Reported(Fired(DEFAULT_RULES, BuiltIn(e)), Edge(Supersedes))
  {
    var first, last := Preempting(t, 0), Preempting(t, t.sustainFor);
    e := Eval(last, [first, last], t, 0);
    if t.sustainFor > 0 {
      SustainedPair(first, last, last, t.sustainFor, P95LatencyHigh(t));
    }
    FiresExactly(E2ELatencyHigh, e);
    FiresExactly(KVPreemption, e);
    QuietNow(QueueWithSaturatedGPU, e);
    QuietNow(QueueWithIdleGPU, e);
    FiresExactly(TTFTAdmissionBound, e);
    FiresExactly(TTFTPrefillBound, e);
    SymptomReportedExactly(e);
  }
}
