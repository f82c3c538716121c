/** The webhook sender as a state machine (internal/alerting).

    One goroutine at a time holds the sender's lock and runs Notify; one other
    goroutine takes payloads off the bounded queue and posts them. Every action
    below is one atomic step of one of them, so a run of the machine is one
    interleaving of the two. The consumer never takes the lock: it may run between
    any two enqueues of the same Notify. */
module AlertModel {
  import opened Basics
  import opened Telemetry

  // ── Payloads (payload.go) ────────

  datatype Event = Firing | Escalated | Resolved

  const SCHEMA_VERSION := 1

  datatype Payload = Payload(
    schemaVersion: int,
    event: Event,
    id: string,
    code: string,
    severity: Severity,
    previous: Option<Severity>,
    cluster: string,
    namespace: string,
    workload: string,
    runtime: string,
    title: string,
    evidence: seq<Evidence>,
    observedAt: Option<Time>,
    sentAt: Time,
    windowSeconds: int
  )

  /** The identity kept for a finding that was sent and is not yet resolved. */
  datatype OpenAlert = OpenAlert(
    id: string,
    code: string,
    severity: Severity,
    namespace: string,
    workload: string,
    runtime: string,
    title: string
  )

  function FiringPayload(rec: Recommendation, event: Event, previous: Severity, cluster: string, now: Time): Payload {
    Payload(SCHEMA_VERSION, event, rec.id, rec.code, rec.severity,
            if event == Escalated then Some(previous) else None,
            cluster, rec.namespace, rec.workloadName, rec.runtime, rec.title,
            rec.evidence, Some(rec.observedAt), now, rec.windowSeconds)
  }

  function ResolvedPayload(a: OpenAlert, cluster: string, now: Time): Payload {
    Payload(SCHEMA_VERSION, Resolved, a.id, a.code, Info, Some(a.severity),
            cluster, a.namespace, a.workload, a.runtime, a.title,
            [], None, now, 0)
  }

  function NewOpenAlert(rec: Recommendation): OpenAlert {
    OpenAlert(rec.id, rec.code, rec.severity, rec.namespace, rec.workloadName, rec.runtime, rec.title)
  }

  // ── Delivery outcomes ────────

  datatype PostError = Status(code: int) | Transport | Unclassified

  predicate Retryable(e: PostError) {
    match e
    case Status(code) => code >= 500 || code == 429
    case Transport => true
    case Unclassified => false
  }

  datatype PostResult = Accepted | Failed(error: PostError)

  const DELIVERY_ATTEMPTS := 2

  /** Whether deliver posts again after this result of the given attempt. */
  predicate PostsAgain(attempt: nat, result: PostResult) {
    attempt < DELIVERY_ATTEMPTS && result.Failed? && Retryable(result.error)
  }

  /** One finished delivery: the payload and the result of each post. */
  datatype Delivery = Delivery(payload: Payload, results: seq<PostResult>) {
    predicate Sent() {
      results != [] && Last(results).Accepted?
    }
  }

  // ── State ────────

  datatype Config = Config(minSeverity: Severity, cluster: string, capacity: nat)

  /** What New accepts, after its defaults: a known severity and a real queue. */
  predicate ValidConfig(c: Config) {
    !c.minSeverity.OtherSeverity? && c.capacity > 0
  }

  predicate Eligible(c: Config, rec: Recommendation) {
    rec.severity.Rank() <= c.minSeverity.Rank()
  }

  function EligibleIds(c: Config, recs: seq<Recommendation>): set<string> {
    set i | 0 <= i < |recs| && Eligible(c, recs[i]) :: recs[i].id
  }

  /** The state a running Notify started from. */
  datatype Base = Base(now: Time, open: map<string, OpenAlert>, accepted: nat, dropped: nat, suppressed: nat)

  datatype Producer =
    | Idle
    | Examining(recs: seq<Recommendation>, done: nat, base: Base)
    | Resolving(recs: seq<Recommendation>, pending: set<string>, base: Base)

  /** Exited remembers how many payloads had been accepted when run returned. */
  datatype Consumer = Waiting | Delivering(payload: Payload, results: seq<PostResult>) | Exited(accepted: nat)

  /** The sender's fields, then the history of the run so far. */
  datatype State = State(
    config: Config,
    open: map<string, OpenAlert>,
    queue: seq<Payload>,
    sent: nat,
    failed: nat,
    dropped: nat,
    suppressed: nat,
    stopped: bool,
    producer: Producer,
    consumer: Consumer,
    attempted: nat,
    accepted: seq<Payload>,
    deliveries: seq<Delivery>,
    notified: seq<seq<Recommendation>>
  )

  function Initial(c: Config): State {
    State(c, map[], [], 0, 0, 0, 0, false, Idle, Waiting, 0, [], [], [])
  }

  // ── Actions ────────

  datatype Action =
    | Begin(recs: seq<Recommendation>, now: Time)
    | Examine
    | StartResolving
    | Resolve(id: string)
    | EndNotify
    | Take
    | Post(result: PostResult)
    | Stop
    | Exit

  predicate Fits(s: State) {
    |s.queue| < s.config.capacity
  }

  /** The non-blocking queue write. */
  function Enqueue(s: State, p: Payload): State {
    if Fits(s)
    then s.(queue := s.queue + [p], attempted := s.attempted + 1, accepted := s.accepted + [p])
    else s.(dropped := s.dropped + 1, attempted := s.attempted + 1)
  }

  /** Enqueue, and record the finding as open when the queue accepted it. */
  function Announce(s: State, p: Payload, rec: Recommendation): State {
    var t := Enqueue(s, p);
    if Fits(s) then t.(open := s.open[rec.id := NewOpenAlert(rec)]) else t
  }

  /** One iteration of the loop over the current findings. */
  function ExamineOne(s: State, rec: Recommendation, now: Time): State {
    if !Eligible(s.config, rec) then
      s
    else if rec.id !in s.open then
      Announce(s, FiringPayload(rec, Firing, OtherSeverity(""), s.config.cluster, now), rec)
    else if rec.severity.Rank() < s.open[rec.id].severity.Rank() then
      Announce(s, FiringPayload(rec, Escalated, s.open[rec.id].severity, s.config.cluster, now), rec)
    else
      s.(suppressed := s.suppressed + 1)
  }

  /** One iteration of the loop over open alerts that are no longer present. */
  function ResolveOne(s: State, id: string, now: Time): State
    requires id in s.open
  {
    var t := Enqueue(s, ResolvedPayload(s.open[id], s.config.cluster, now));
    if Fits(s) then t.(open := s.open - {id}) else t
  }

  /** The result of one post: another attempt, or the end of the delivery. */
  function AfterPost(s: State, result: PostResult): State
    requires s.consumer.Delivering?
  {
    var results := s.consumer.results + [result];
    if PostsAgain(|results|, result) then
      s.(consumer := Delivering(s.consumer.payload, results))
    else
      s.(consumer := Waiting,
         deliveries := s.deliveries + [Delivery(s.consumer.payload, results)],
         sent := if result.Accepted? then s.sent + 1 else s.sent,
         failed := if result.Accepted? then s.failed else s.failed + 1)
  }

  predicate Enabled(s: State, a: Action) {
    match a
    case Begin(_, _) => s.producer.Idle?
    case Examine => s.producer.Examining? && s.producer.done < |s.producer.recs|
    case StartResolving => s.producer.Examining? && s.producer.done == |s.producer.recs|
    case Resolve(id) => s.producer.Resolving? && id in s.producer.pending && id in s.open
    case EndNotify => s.producer.Resolving? && s.producer.pending == {}
    case Take => s.consumer.Waiting? && s.queue != []
    case Post(_) => s.consumer.Delivering?
    case Stop => true
    case Exit => s.consumer.Waiting? && s.stopped && s.queue == []
  }

  function Apply(s: State, a: Action): State
    requires Enabled(s, a)
  {
    match a
    case Begin(recs, now) =>
      s.(producer := Examining(recs, 0, Base(now, s.open, |s.accepted|, s.dropped, s.suppressed)))
    case Examine =>
      var p := s.producer;
      ExamineOne(s, p.recs[p.done], p.base.now).(producer := p.(done := p.done + 1))
    case StartResolving =>
      var p := s.producer;
      s.(producer := Resolving(p.recs, s.open.Keys - EligibleIds(s.config, p.recs), p.base))
    case Resolve(id) =>
      var p := s.producer;
      ResolveOne(s, id, p.base.now).(producer := p.(pending := p.pending - {id}))
    case EndNotify =>
      s.(producer := Idle, notified := s.notified + [s.producer.recs])
    case Take =>
      s.(consumer := Delivering(s.queue[0], []), queue := s.queue[1..])
    case Post(result) =>
      AfterPost(s, result)
    case Stop =>
      s.(stopped := true)
    case Exit =>
      s.(consumer := Exited(|s.accepted|))
  }

  ghost predicate Next(s: State, t: State) {
    exists a :: Enabled(s, a) && t == Apply(s, a)
  }

  // ── Runs ────────

  ghost predicate IsRun(run: seq<State>) {
    && run != []
    && forall i :: 0 <= i < |run| - 1 ==> Next(run[i], run[i + 1])
  }

  ghost predicate Reaches(s: State, t: State) {
    exists run :: IsRun(run) && run[0] == s && Last(run) == t
  }

  ghost predicate Reachable(s: State) {
    ValidConfig(s.config) && Reaches(Initial(s.config), s)
  }

  lemma ReachesSelf(s: State)
    ensures Reaches(s, s)
  {
    assert IsRun([s]) && Last([s]) == s;
  }

  lemma ReachesStep(s: State, t: State, a: Action)
    requires Reaches(s, t) && Enabled(t, a)
    ensures Reaches(s, Apply(t, a))
  {
    var run :| IsRun(run) && run[0] == s && Last(run) == t;
    var longer := run + [Apply(t, a)];
    forall i | 0 <= i < |longer| - 1 ensures Next(longer[i], longer[i + 1]) {
      if i < |run| - 1 {
        assert Next(run[i], run[i + 1]);
      } else {
        assert longer[i] == t;
      }
    }
    assert IsRun(longer) && longer[0] == s && Last(longer) == Apply(t, a);
  }

  lemma ReachesTransitive(s: State, t: State, u: State)
    requires Reaches(s, t) && Reaches(t, u)
    ensures Reaches(s, u)
  {
    var left :| IsRun(left) && left[0] == s && Last(left) == t;
    var right :| IsRun(right) && right[0] == t && Last(right) == u;
    var run := left + right[1..];
    forall i | 0 <= i < |run| - 1 ensures Next(run[i], run[i + 1]) {
      if i < |left| - 1 {
        assert Next(left[i], left[i + 1]);
      } else {
        assert run[i] == right[i - |left| + 1];
        assert Next(right[i - |left| + 1], right[i - |left| + 1 + 1]);
      }
    }
    assert Last(run) == u && run[0] == s && IsRun(run);
  }
}
