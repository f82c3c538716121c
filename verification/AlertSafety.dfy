/** The sender's guarantees over every run: every interleaving of Notify with the
    delivery goroutine, every pattern of full-queue drops and post failures, and
    every order in which a map iteration can resolve findings. */
module AlertSafety {
  import opened Basics
  import opened Telemetry
  import opened AlertModel
  import opened AlertLifecycle
  import opened AlertFlow
  import opened AlertConvergence

  ghost predicate Inv(s: State) {
    LifecycleInv(s) && FlowInv(s) && ConvergenceInv(s)
  }

  lemma StepKeepsInv(s: State, t: State)
    requires Inv(s) && Next(s, t)
    ensures Inv(t)
  {
    var a :| Enabled(s, a) && t == Apply(s, a);
    LifecycleStep(s, a);
    FlowStep(s, a);
    ConvergenceStep(s, a);
  }

  /** The configuration is fixed and the histories only grow. */
  lemma StepGrows(s: State, t: State)
    requires Next(s, t)
    ensures t.config == s.config && s.accepted <= t.accepted && s.deliveries <= t.deliveries
  {
    var a :| Enabled(s, a) && t == Apply(s, a);
    ApplyGrows(s, a);
  }

  lemma ExamineGrows(s: State)
    requires Enabled(s, Examine)
    ensures var t := Apply(s, Examine);
            t.config == s.config && s.accepted <= t.accepted && s.deliveries <= t.deliveries
  {
  }

  lemma PostGrows(s: State, result: PostResult)
    requires Enabled(s, Post(result))
    ensures var t := Apply(s, Post(result));
            t.config == s.config && s.accepted <= t.accepted && s.deliveries <= t.deliveries
  {
  }

  lemma ApplyGrows(s: State, a: Action)
    requires Enabled(s, a)
    ensures var t := Apply(s, a);
            t.config == s.config && s.accepted <= t.accepted && s.deliveries <= t.deliveries
  {
    match a
    case Examine => ExamineGrows(s);
    case Post(result) => PostGrows(s, result);
    case _ =>
  }

  lemma {:induction false} RunKeepsInv(run: seq<State>, i: nat)
    requires IsRun(run) && Inv(run[0]) && i < |run|
    ensures Inv(run[i]) && run[i].config == run[0].config
    ensures run[0].accepted <= run[i].accepted && run[0].deliveries <= run[i].deliveries
  {
    if i > 0 {
      RunKeepsInv(run, i - 1);
      assert Next(run[i - 1], run[i - 1 + 1]);
      StepKeepsInv(run[i - 1], run[i]);
      StepGrows(run[i - 1], run[i]);
    }
  }

  lemma InvReached(s: State, t: State)
    requires Inv(s) && Reaches(s, t)
    ensures Inv(t) && t.config == s.config
    ensures s.accepted <= t.accepted && s.deliveries <= t.deliveries
  {
    var run :| IsRun(run) && run[0] == s && Last(run) == t;
    RunKeepsInv(run, |run| - 1);
  }

  lemma ReachableInv(s: State)
    requires Reachable(s)
    ensures Inv(s)
  {
    LifecycleInitial(s.config);
    FlowInitial(s.config);
    ConvergenceInitial(s.config);
    InvReached(Initial(s.config), s);
  }

  /** At most one message per transition: the accepted events of each finding are a
      prefix of (firing escalated* resolved)*, every escalation strictly more severe
      and naming the severity before it; `open` holds the finding exactly while its
      last accepted event is not a resolution, as that event described it; and one
      episode announces at most rank(minSeverity) + 1 times. */
  lemma TransitionsOnly(s: State, id: string)
    requires Reachable(s)
    ensures var events := EventsOf(s.accepted, id);
            && WellFormed(events)
            && OpenMatches(s.open, id, events)
            && EpisodeLength(events) <= s.config.minSeverity.Rank() + 1
  {
    ReachableInv(s);
    assert FindingOk(s, id);
  }

  /** Accepted payloads are exactly the delivered ones, then the one in flight, then
      the queue, in that order; every attempt is accepted or dropped; every delivery
      is sent or failed, after one or two posts. */
  lemma NothingLost(s: State)
    requires Reachable(s)
    ensures s.accepted == PayloadsOf(s.deliveries) + InFlight(s) + s.queue
    ensures |s.accepted| == s.sent + s.failed + |InFlight(s)| + |s.queue|
    ensures s.attempted == |s.accepted| + s.dropped
    ensures s.sent == |SentStream(s.deliveries)|
    ensures forall d :: d in s.deliveries ==> ProperAttempts(d.results)
    ensures |s.queue| <= s.config.capacity
  {
    ReachableInv(s);
    PayloadsOfLength(s.deliveries);
    SentStreamLength(s.deliveries);
  }

  /** A payload is dropped exactly when it is attempted with the queue full. */
  lemma DropsExactlyWhenFull(s: State, a: Action)
    requires Reachable(s) && Enabled(s, a)
    ensures var t := Apply(s, a);
            t.dropped == if t.attempted > s.attempted && |s.queue| == s.config.capacity then s.dropped + 1
                         else s.dropped
  {
    ReachableInv(s);
  }

  lemma {:induction false} SentStreamLength(ds: seq<Delivery>)
    ensures |SentStream(ds)| == SentCount(ds)
  {
    if ds != [] {
      SentStreamLength(ds[..|ds| - 1]);
    }
  }

  /** With an idle consumer and an empty queue everything accepted has been sent or has
      failed. */
  lemma AllDelivered(s: State)
    requires Reachable(s) && s.queue == [] && !s.consumer.Delivering?
    ensures s.sent + s.failed == |s.deliveries| == |s.accepted|
  {
    ReachableInv(s);
    PayloadsOfLength(s.deliveries);
    assert s.accepted == PayloadsOf(s.deliveries) + [] + [];
  }

  /** When run has returned, the queue holds exactly the payloads accepted since: with
      no later Notify it is empty and everything accepted was sent or failed. */
  lemma CloseDrains(s: State)
    requires Reachable(s) && s.consumer.Exited?
    ensures s.consumer.accepted <= |s.accepted| && s.queue == s.accepted[s.consumer.accepted..]
    ensures s.queue == [] <==> |s.accepted| == s.consumer.accepted
    ensures s.queue == [] ==> |s.accepted| == s.sent + s.failed
  {
    ReachableInv(s);
    PayloadsOfLength(s.deliveries);
    assert s.accepted == PayloadsOf(s.deliveries) + s.queue;
  }

  /** If nothing failed, replaying what was sent and what is still to come rebuilds
      exactly `open`; once the pipe is empty, what was sent is enough. */
  lemma ReplayRebuildsOpen(s: State)
    requires Reachable(s) && s.failed == 0
    ensures Replay(SentStream(s.deliveries) + InFlight(s) + s.queue) == Severities(s.open)
    ensures s.queue == [] && !s.consumer.Delivering? ==> Replay(SentStream(s.deliveries)) == Severities(s.open)
  {
    ReachableInv(s);
    NothingFailed(s.deliveries);
    ReplayIsOpen(s);
    assert SentStream(s.deliveries) + [] + [] == SentStream(s.deliveries);
  }

  /** The newest finished delivery of a finding failed. */
  predicate NewestFailed(ds: seq<Delivery>, id: string) {
    ds != [] && if Last(ds).payload.id == id then !Last(ds).Sent() else NewestFailed(ds[..|ds| - 1], id)
  }

  /** Both end in the same event, or neither has one. */
  predicate SameNewest(xs: seq<Payload>, ys: seq<Payload>) {
    (xs == [] <==> ys == []) && (xs != [] && ys != [] ==> Last(xs) == Last(ys))
  }

  lemma {:induction false} EventsOfJoin(xs: seq<Payload>, ys: seq<Payload>, id: string)
    ensures EventsOf(xs + ys, id) == EventsOf(xs, id) + EventsOf(ys, id)
  {
    if ys == [] {
      assert xs + ys == xs;
    } else {
      assert (xs + ys)[..|xs + ys| - 1] == xs + ys[..|ys| - 1];
      EventsOfJoin(xs, ys[..|ys| - 1], id);
    }
  }

  lemma {:induction false} NewestSent(ds: seq<Delivery>, id: string)
    requires !NewestFailed(ds, id)
    ensures SameNewest(EventsOf(SentStream(ds), id), EventsOf(PayloadsOf(ds), id))
  {
    if ds != [] && Last(ds).payload.id != id {
      NewestSent(ds[..|ds| - 1], id);
    }
  }

  /** Finding by finding, failures elsewhere do no harm: a finding with an event still to
      come, or whose newest delivery did not fail, is rebuilt exactly as `open` has it. */
  lemma ReplayRebuildsFinding(s: State, id: string)
    requires Reachable(s)
    requires EventsOf(InFlight(s) + s.queue, id) != [] || !NewestFailed(s.deliveries, id)
    ensures var replayed := Replay(SentStream(s.deliveries) + (InFlight(s) + s.queue));
            && (id in replayed <==> id in s.open)
            && (id in s.open ==> replayed[id] == s.open[id].severity)
  {
    var sent, ahead := SentStream(s.deliveries), InFlight(s) + s.queue;
    ReachableInv(s);
    assert s.accepted == PayloadsOf(s.deliveries) + ahead;
    EventsOfJoin(sent, ahead, id);
    EventsOfJoin(PayloadsOf(s.deliveries), ahead, id);
    if EventsOf(ahead, id) == [] {
      NewestSent(s.deliveries, id);
    }
    assert SameNewest(EventsOf(sent + ahead, id), EventsOf(s.accepted, id));
    ReplayOne(sent + ahead, id);
    assert FindingOk(s, id);
  }

  /** A Notify after Close: its payload is accepted and stays in the queue for good. */
  lemma AcceptedAfterExit(c: Config, rec: Recommendation, now: Time) returns (s: State)
    requires ValidConfig(c) && Eligible(c, rec)
    ensures Reachable(s) && s.consumer.Exited? && |s.queue| == 1 && s.queue == s.accepted
  {
    var s0 := Initial(c);
    ReachesSelf(s0);
    ReachesStep(s0, s0, Stop);
    var s1 := Apply(s0, Stop);
    ReachesStep(s0, s1, Exit);
    var s2 := Apply(s1, Exit);
    ReachesStep(s0, s2, Begin([rec], now));
    var s3 := Apply(s2, Begin([rec], now));
    ReachesStep(s0, s3, Examine);
    s := Apply(s3, Examine);
  }

  /** `open` records acceptance onto the queue, not delivery: one rejected post is
      enough for a subscriber to miss a finding that stays open. */
  lemma FailedDeliveryStaysOpen(c: Config, rec: Recommendation, now: Time) returns (s: State)
    requires ValidConfig(c) && Eligible(c, rec)
    ensures Reachable(s) && s.producer.Idle? && s.queue == [] && s.failed == 1
    ensures rec.id in s.open && Replay(SentStream(s.deliveries)) == map[]
  {
    var s0 := Initial(c);
    ReachesSelf(s0);
    ReachesStep(s0, s0, Begin([rec], now));
    var s1 := Apply(s0, Begin([rec], now));
    ReachesStep(s0, s1, Examine);
    var s2 := Apply(s1, Examine);
    ReachesStep(s0, s2, StartResolving);
    var s3 := Apply(s2, StartResolving);
    assert s3.producer.recs[0] == rec && rec.id in EligibleIds(c, [rec]);
    ReachesStep(s0, s3, EndNotify);
    var s4 := Apply(s3, EndNotify);
    ReachesStep(s0, s4, Take);
    var s5 := Apply(s4, Take);
    ReachesStep(s0, s5, Post(Failed(Status(400))));
    s := Apply(s5, Post(Failed(Status(400))));
    DeliveryAppend([], Delivery(s5.consumer.payload, [Failed(Status(400))]));
  }

  /** A Notify about to return that dropped nothing leaves `open` with exactly the
      findings at or above the minimum severity, none recorded less severe than
      reported. */
  lemma NotifyConverges(s: State)
    requires Reachable(s) && Enabled(s, EndNotify)
    requires s.dropped == s.producer.base.dropped
    ensures s.open.Keys == EligibleIds(s.config, s.producer.recs)
    ensures Steady(s.config, s.open, s.producer.recs)
  {
    ReachableInv(s);
  }

  /** Repeating it is silent: a Notify that began in such a state enqueues nothing,
      drops nothing, changes nothing, and suppresses every eligible finding. */
  lemma RepeatIsSilent(s: State)
    requires Reachable(s) && Enabled(s, EndNotify)
    requires Steady(s.config, s.producer.base.open, s.producer.recs)
    ensures Unmoved(s, s.producer.recs, s.producer.base)
  {
    ReachableInv(s);
  }

  /** With distinct identifiers, that is one suppression per open finding. */
  lemma {:induction false} EligibleCountDistinct(c: Config, recs: seq<Recommendation>)
    requires forall i, j :: 0 <= i < j < |recs| ==> recs[i].id != recs[j].id
    ensures EligibleCount(c, recs) == |EligibleIds(c, recs)|
  {
    if recs == [] {
      assert EligibleIds(c, recs) == {};
    } else {
      var k := |recs| - 1;
      EligibleCountDistinct(c, recs[..k]);
      EligibleAppend(c, recs, k);
      assert recs[..k + 1] == recs;
      NotYetEligible(c, recs);
    }
  }

  lemma NotYetEligible(c: Config, recs: seq<Recommendation>)
    requires recs != [] && forall i, j :: 0 <= i < j < |recs| ==> recs[i].id != recs[j].id
    ensures Last(recs).id !in EligibleIds(c, recs[..|recs| - 1])
  {
  }

  /** Both, for a Notify that ran from s to t. */
  lemma NotifyReturns(s: State, t: State)
    requires Reachable(s) && Reaches(s, t) && Enabled(t, EndNotify)
    requires var b := t.producer.base;
             b.open == s.open && b.accepted == |s.accepted| && b.dropped == s.dropped && b.suppressed == s.suppressed
    ensures s.dropped <= t.dropped
    ensures s.dropped == t.dropped ==> Steady(s.config, t.open, t.producer.recs)
    ensures Steady(s.config, s.open, t.producer.recs) ==>
              t.open == s.open && t.dropped == s.dropped && t.accepted == s.accepted &&
              t.suppressed == s.suppressed + EligibleCount(s.config, t.producer.recs)
  {
    ReachableInv(s);
    InvReached(s, t);
  }
}
