/** What every interleaving keeps, part two: nothing accepted is lost, reordered or
    counted twice, and what is left when Close returns. */
module AlertFlow {
  import opened Basics
  import opened Telemetry
  import opened AlertModel

  function PayloadsOf(ds: seq<Delivery>): seq<Payload> {
    if ds == [] then [] else PayloadsOf(ds[..|ds| - 1]) + [Last(ds).payload]
  }

  function SentCount(ds: seq<Delivery>): nat {
    if ds == [] then 0 else SentCount(ds[..|ds| - 1]) + (if Last(ds).Sent() then 1 else 0)
  }

  /** What a subscriber received. */
  function SentStream(ds: seq<Delivery>): seq<Payload> {
    if ds == [] then []
    else
      var before := SentStream(ds[..|ds| - 1]);
      if Last(ds).Sent() then before + [Last(ds).payload] else before
  }

  function InFlight(s: State): seq<Payload> {
    if s.consumer.Delivering? then [s.consumer.payload] else []
  }

  /** Posted once or twice. A second post follows only an error in transport, status 429 or
      a status of 500 and above; one post is the end only when it was accepted or failed
      in another way. */
  predicate ProperAttempts(results: seq<PostResult>) {
    match |results|
    case 1 =>
      results[0].Failed? ==>
        results[0].error == Unclassified ||
        (results[0].error.Status? && results[0].error.code != 429 && results[0].error.code < 500)
    case 2 =>
      results[0].Failed? &&
      (results[0].error == Transport ||
       (results[0].error.Status? && (results[0].error.code == 429 || results[0].error.code >= 500)))
    case _ => false
  }

  /** Acceptance order is delivery order, with nothing missing in between. */
  ghost predicate InOrder(s: State) {
    s.accepted == PayloadsOf(s.deliveries) + InFlight(s) + s.queue
  }

  /** Every enqueue attempt and every delivery ended in exactly one counter. */
  ghost predicate Counted(s: State) {
    && s.sent == SentCount(s.deliveries)
    && s.sent + s.failed == |s.deliveries|
    && s.attempted == |s.accepted| + s.dropped
  }

  ghost predicate ProperDeliveries(s: State) {
    && (forall d :: d in s.deliveries ==> ProperAttempts(d.results))
    // A delivery still running has at most one failed attempt behind it.
    && (s.consumer.Delivering? && s.consumer.results != [] ==>
          |s.consumer.results| == 1 && PostsAgain(1, s.consumer.results[0]))
  }

  /** Once run has returned, everything accepted before that was delivered, and what
      was accepted after it stays in the queue. */
  ghost predicate DrainedAtExit(s: State) {
    s.consumer.Exited? ==> s.stopped && |s.deliveries| == s.consumer.accepted
  }

  ghost predicate FlowInv(s: State) {
    && InOrder(s)
    && |s.queue| <= s.config.capacity
    && Counted(s)
    && ProperDeliveries(s)
    && DrainedAtExit(s)
  }

  lemma {:induction false} PayloadsOfLength(ds: seq<Delivery>)
    ensures |PayloadsOf(ds)| == |ds|
  {
    if ds != [] {
      PayloadsOfLength(ds[..|ds| - 1]);
    }
  }

  lemma DeliveryAppend(ds: seq<Delivery>, d: Delivery)
    ensures PayloadsOf(ds + [d]) == PayloadsOf(ds) + [d.payload]
    ensures SentCount(ds + [d]) == SentCount(ds) + (if d.Sent() then 1 else 0)
    ensures SentStream(ds + [d]) == if d.Sent() then SentStream(ds) + [d.payload] else SentStream(ds)
  {
    assert (ds + [d])[..|ds|] == ds;
  }

  lemma EnqueueKeepsFlow(s: State, p: Payload)
    requires FlowInv(s)
    ensures FlowInv(Enqueue(s, p))
  {
    assert PayloadsOf(s.deliveries) + InFlight(s) + (s.queue + [p])
        == PayloadsOf(s.deliveries) + InFlight(s) + s.queue + [p];
  }

  /** The flow invariant does not mention what Notify itself keeps track of. */
  lemma SameFlow(s: State, t: State)
    requires FlowInv(s)
    requires t == s.(open := t.open, suppressed := t.suppressed, producer := t.producer, notified := t.notified)
    ensures FlowInv(t)
  {
  }

  lemma TakeKeepsFlow(s: State)
    requires FlowInv(s) && Enabled(s, Take)
    ensures FlowInv(Apply(s, Take))
  {
    assert s.queue == [s.queue[0]] + s.queue[1..];
    assert PayloadsOf(s.deliveries) + [] + s.queue == PayloadsOf(s.deliveries) + [s.queue[0]] + s.queue[1..];
  }

  lemma PostKeepsFlow(s: State, result: PostResult)
    requires FlowInv(s) && s.consumer.Delivering?
    ensures FlowInv(AfterPost(s, result))
  {
    var results := s.consumer.results + [result];
    if !PostsAgain(|results|, result) {
      var d := Delivery(s.consumer.payload, results);
      DeliveryAppend(s.deliveries, d);
      assert PayloadsOf(s.deliveries) + [d.payload] + s.queue == PayloadsOf(s.deliveries) + [d.payload] + [] + s.queue;
      assert Last(results) == result;
    }
  }

  lemma ExamineKeepsFlow(s: State, rec: Recommendation, now: Time)
    requires FlowInv(s)
    ensures FlowInv(ExamineOne(s, rec, now))
  {
    var p := if rec.id in s.open
             then FiringPayload(rec, Escalated, s.open[rec.id].severity, s.config.cluster, now)
             else FiringPayload(rec, Firing, OtherSeverity(""), s.config.cluster, now);
    EnqueueKeepsFlow(s, p);
    SameFlow(Enqueue(s, p), Announce(s, p, rec));
  }

  lemma FlowStep(s: State, a: Action)
    requires FlowInv(s) && Enabled(s, a)
    ensures FlowInv(Apply(s, a))
  {
    match a
    case Examine =>
      var rec, now := s.producer.recs[s.producer.done], s.producer.base.now;
      ExamineKeepsFlow(s, rec, now);
      SameFlow(ExamineOne(s, rec, now), Apply(s, a));
    case Resolve(id) =>
      var p := ResolvedPayload(s.open[id], s.config.cluster, s.producer.base.now);
      EnqueueKeepsFlow(s, p);
      SameFlow(Enqueue(s, p), Apply(s, a));
    case Take =>
      TakeKeepsFlow(s);
    case Post(result) =>
      PostKeepsFlow(s, result);
    case Exit =>
      PayloadsOfLength(s.deliveries);
    case _ =>
  }

  lemma FlowInitial(c: Config)
    ensures FlowInv(Initial(c))
  {
  }

  /** With no failed delivery the subscriber received the whole delivered stream. */
  lemma {:induction false} NothingFailed(ds: seq<Delivery>)
    ensures SentCount(ds) <= |ds|
    ensures SentCount(ds) == |ds| ==> SentStream(ds) == PayloadsOf(ds)
  {
    if ds != [] {
      NothingFailed(ds[..|ds| - 1]);
    }
  }
}
