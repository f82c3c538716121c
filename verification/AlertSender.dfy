/** The sender itself (sender.go): the fields Notify, enqueue and deliver update,
    each method proved to be a run of the state machine. */
module AlertSender {
  import opened Basics
  import opened Telemetry
  import opened AlertModel
  import opened AlertLifecycle
  import opened AlertFlow
  import opened AlertConvergence
  import opened AlertSafety

  class Sender {
    const config: Config
    var open: map<string, OpenAlert>
    var queue: seq<Payload>
    var sent: nat
    var failed: nat
    var dropped: nat
    var suppressed: nat
    var stopped: bool
    /** What the delivery goroutine is doing. */
    var consumer: Consumer

    /** The run of the state machine these fields have gone through. */
    ghost var model: State

    ghost predicate Valid()
      reads this
    {
      && Reachable(model)
      && model.config == config
      && model.open == open
      && model.queue == queue
      && model.sent == sent
      && model.failed == failed
      && model.dropped == dropped
      && model.suppressed == suppressed
      && model.stopped == stopped
      && SameConsumer(model.consumer, consumer)
    }

    static predicate SameConsumer(c: Consumer, d: Consumer) {
      match c
      case Exited(_) => d.Exited?
      case _ => c == d
    }

    constructor (config: Config)
      requires ValidConfig(config)
      ensures Valid() && model == Initial(config)
    {
      this.config := config;
      open, queue := map[], [];
      sent, failed, dropped, suppressed := 0, 0, 0, 0;
      stopped := false;
      consumer := Waiting;
      model := Initial(config);
      new;
      ReachesSelf(model);
    }

    /** The state machine takes the step the fields have just taken. */
    ghost method Advance(a: Action)
      requires Reachable(model) && Enabled(model, a)
      modifies `model
      ensures Reachable(model) && model == Apply(old(model), a) && model.config == old(model.config)
      ensures Reaches(old(model), model)
      ensures forall s :: Reaches(s, old(model)) ==> Reaches(s, model)
    {
      ReachesSelf(model);
      forall s | Reaches(s, model) ensures Reaches(s, Apply(model, a)) {
        ReachesStep(s, model, a);
      }
      model := Apply(model, a);
    }

    method Enqueue(p: Payload) returns (ok: bool)
      modifies `queue, `dropped
      ensures ok == (|old(queue)| < config.capacity)
      ensures queue == if ok then old(queue) + [p] else old(queue)
      ensures dropped == if ok then old(dropped) else old(dropped) + 1
    {
      if |queue| < config.capacity {
        queue := queue + [p];
        return true;
      }
      dropped := dropped + 1;
      return false;
    }

    /** Any number of steps of the delivery goroutine, interleaved with Notify: only
        the queue, the delivery counters and the consumer itself may change. */
    method ConsumerRuns()
      requires Valid()
      modifies `queue, `sent, `failed, `consumer, `model
      ensures Valid() && Reaches(old(model), model)
      ensures model.producer == old(model.producer) && model.notified == old(model.notified)
      ensures model.accepted == old(model.accepted)
      ensures sent >= old(sent) && failed >= old(failed)
    {
      ReachesSelf(model);
      var steps: nat := *;
      while steps > 0
        invariant Valid() && Reaches(old(model), model)
        invariant model.producer == old(model.producer) && model.notified == old(model.notified)
        invariant model.accepted == old(model.accepted)
        invariant sent >= old(sent) && failed >= old(failed)
      {
        if consumer.Waiting? && queue != [] {
          Advance(Take);
          consumer, queue := Delivering(queue[0], []), queue[1..];
        } else if consumer.Delivering? {
          var result: PostResult := *;
          Advance(Post(result));
          var results := consumer.results + [result];
          if PostsAgain(|results|, result) {
            consumer := Delivering(consumer.payload, results);
          } else if result.Accepted? {
            consumer, sent := Waiting, sent + 1;
          } else {
            consumer, failed := Waiting, failed + 1;
          }
        } else if consumer.Waiting? && stopped {
          Advance(Exit);
          consumer := Exited(0);
        }
        steps := steps - 1;
      }
    }

    /** The body of Notify's first loop, for one finding; reports whether the finding
        counts as present. */
    method ExamineFinding(rec: Recommendation, now: Time) returns (present: bool)
      requires Valid() && Enabled(model, Examine)
      requires rec == model.producer.recs[model.producer.done] && now == model.producer.base.now
      modifies `open, `queue, `dropped, `suppressed, `model
      ensures Valid() && model == Apply(old(model), Examine) && Reaches(old(model), model)
      ensures present == Eligible(config, rec)
    {
      Advance(Examine);
      if rec.severity.Rank() > config.minSeverity.Rank() {
        return false;
      }
      if rec.id !in open {
        var ok := Enqueue(FiringPayload(rec, Firing, OtherSeverity(""), config.cluster, now));
        if ok {
          open := open[rec.id := NewOpenAlert(rec)];
        }
      } else if rec.severity.Rank() < open[rec.id].severity.Rank() {
        var ok := Enqueue(FiringPayload(rec, Escalated, open[rec.id].severity, config.cluster, now));
        if ok {
          open := open[rec.id := NewOpenAlert(rec)];
        }
      } else {
        suppressed := suppressed + 1;
      }
      return true;
    }

    /** One round of Notify's first loop, the delivery goroutine running before it. */
    method ExamineNext(rec: Recommendation, now: Time) returns (present: bool)
      requires Valid() && Enabled(model, Examine)
      requires rec == model.producer.recs[model.producer.done] && now == model.producer.base.now
      modifies this
      ensures Valid() && Reaches(old(model), model)
      ensures model.producer == old(model.producer).(done := old(model.producer.done) + 1)
      ensures model.notified == old(model.notified)
      ensures present == Eligible(config, rec)
    {
      ConsumerRuns();
      ghost var between := model;
      present := ExamineFinding(rec, now);
      ReachesTransitive(old(model), between, model);
    }

    /** The body of Notify's second loop: forget the alert only once its resolution
        is actually queued. */
    method ResolveFinding(id: string, now: Time)
      requires Valid() && Enabled(model, Resolve(id)) && now == model.producer.base.now
      modifies `open, `queue, `dropped, `model
      ensures Valid() && model == Apply(old(model), Resolve(id)) && Reaches(old(model), model)
      ensures old(open).Keys - {id} <= open.Keys
    {
      Advance(Resolve(id));
      var ok := Enqueue(ResolvedPayload(open[id], config.cluster, now));
      if ok {
        open := open - {id};
      }
    }

    /** Notify's first loop: the current findings, in order. */
    method ExamineAll(recs: seq<Recommendation>, now: Time) returns (present: set<string>)
      requires Valid() && model.producer.Examining?
      requires model.producer.recs == recs && model.producer.done == 0 && model.producer.base.now == now
      modifies this
      ensures Valid() && Reaches(old(model), model)
      ensures model.producer == old(model.producer).(done := |recs|)
      ensures model.notified == old(model.notified)
      ensures present == EligibleIds(config, recs)
    {
      present := {};
      ReachesSelf(model);
      var i := 0;
      while i < |recs|
        invariant 0 <= i <= |recs|
        invariant Valid() && Reaches(old(model), model)
        invariant model.producer == old(model.producer).(done := i)
        invariant model.notified == old(model.notified)
        invariant present == EligibleIds(config, recs[..i])
      {
        ghost var before := model;
        var seen := ExamineNext(recs[i], now);
        ReachesTransitive(old(model), before, model);
        EligibleAppend(config, recs, i);
        if seen {
          present := present + {recs[i].id};
        }
        i := i + 1;
      }
      assert recs[..|recs|] == recs;
    }

    /** Notify's second loop: the open findings that are no longer present, in
        whatever order the map yields them. */
    method ResolveAbsent(absent: set<string>, now: Time)
      requires Valid() && model.producer.Resolving?
      requires model.producer.pending == absent <= open.Keys && model.producer.base.now == now
      modifies this
      ensures Valid() && Reaches(old(model), model)
      ensures model.producer == old(model.producer).(pending := {})
      ensures model.notified == old(model.notified)
    {
      var pending := absent;
      ReachesSelf(model);
      while pending != {}
        invariant Valid() && Reaches(old(model), model)
        invariant model.producer == old(model.producer).(pending := pending)
        invariant model.notified == old(model.notified)
        invariant pending <= open.Keys
        decreases pending
      {
        ghost var before := model;
        ConsumerRuns();
        ghost var between := model;
        var id :| id in pending;
        ResolveFinding(id, now);
        ReachesTransitive(before, between, model);
        ReachesTransitive(old(model), before, model);
        pending := pending - {id};
      }
    }

    /** One complete evaluation's findings. Whatever the consumer does meanwhile and
        whichever enqueues find the queue full, this is a run of the state machine
        that consumes exactly these findings; without a drop it converges, and from
        a converged state it is silent. */
    method Notify(recs: seq<Recommendation>, now: Time)
      requires Valid() && model.producer.Idle?
      modifies this
      ensures Valid() && model.producer.Idle?
      ensures Reaches(old(model), model)
      ensures model.notified == old(model.notified) + [recs]
      ensures dropped >= old(dropped)
      ensures dropped == old(dropped) ==> Steady(config, open, recs)
      ensures Steady(config, old(open), recs) ==>
                open == old(open) && dropped == old(dropped) && model.accepted == old(model.accepted) &&
                suppressed == old(suppressed) + EligibleCount(config, recs)
    {
      Advance(Begin(recs, now));
      ghost var begun := model;
      var present := ExamineAll(recs, now);
      ghost var examined := model;
      Advance(StartResolving);
      ghost var resolving := model;
      ResolveAbsent(open.Keys - present, now);
      ReachesTransitive(examined, resolving, model);
      ReachesTransitive(begun, examined, model);
      ReachesTransitive(old(model), begun, model);
      NotifyReturns(old(model), model);
      Advance(EndNotify);
    }

    /** The rest of one delivery, from wherever it has got to: at most two posts in all,
        the second only after a retryable error. */
    method Deliver(p: Payload)
      requires Valid() && consumer.Delivering? && consumer.payload == p
      modifies `sent, `failed, `consumer, `model
      ensures Valid() && consumer.Waiting? && Reaches(old(model), model)
      ensures |model.deliveries| == |old(model.deliveries)| + 1
      ensures model.deliveries[..|old(model.deliveries)|] == old(model.deliveries)
      ensures var d := Last(model.deliveries);
              d.payload == p && old(consumer.results) <= d.results && ProperAttempts(d.results) &&
              (if d.Sent() then sent == old(sent) + 1 && failed == old(failed)
               else sent == old(sent) && failed == old(failed) + 1)
      ensures model.producer == old(model.producer) && model.accepted == old(model.accepted)
    {
      ReachesSelf(model);
      ReachableInv(model);
      var attempt := |consumer.results| + 1;
      var again := true;
      while again
        invariant Valid() && Reaches(old(model), model)
        invariant again ==> attempt <= DELIVERY_ATTEMPTS && model == old(model).(consumer := consumer)
        invariant again ==> Attempting(p, attempt) && old(consumer.results) <= consumer.results
        invariant !again ==> consumer.Waiting? && Delivered(old(model), model)
        invariant !again ==> Last(model.deliveries).payload == p
        invariant !again ==> old(consumer.results) <= Last(model.deliveries).results
        invariant again ==> sent == old(sent) && failed == old(failed)
        decreases again, DELIVERY_ATTEMPTS - attempt
      {
        ghost var before := model;
        again := PostOnce(p, attempt);
        ReachesTransitive(old(model), before, model);
        attempt := attempt + 1;
      }
      ReachableInv(model);
      assert Last(model.deliveries) in model.deliveries;
    }

    /** deliver is about to make this attempt at this payload. */
    ghost predicate Attempting(p: Payload, attempt: nat)
      reads this
    {
      && consumer.Delivering? && consumer.payload == p && |consumer.results| == attempt - 1
      && (attempt == 2 ==> PostsAgain(1, consumer.results[0]))
    }

    /** One delivery more, counted once, and nothing else. */
    static ghost predicate Delivered(s: State, t: State) {
      && t.deliveries != [] && t.deliveries == s.deliveries + [Last(t.deliveries)]
      && t.producer == s.producer && t.accepted == s.accepted
      && (if Last(t.deliveries).Sent() then t.sent == s.sent + 1 && t.failed == s.failed
          else t.sent == s.sent && t.failed == s.failed + 1)
    }

    /** One post and what deliver makes of its result; reports whether to post again. */
    method PostOnce(p: Payload, attempt: nat) returns (again: bool)
      requires Valid() && Attempting(p, attempt) && 1 <= attempt <= DELIVERY_ATTEMPTS
      modifies `sent, `failed, `consumer, `model
      ensures Valid() && Reaches(old(model), model)
      ensures again ==> attempt < DELIVERY_ATTEMPTS && Attempting(p, attempt + 1)
      ensures again ==> model == old(model).(consumer := consumer)
      ensures again ==> old(consumer.results) <= consumer.results && sent == old(sent) && failed == old(failed)
      ensures !again ==> consumer.Waiting? && Delivered(old(model), model)
      ensures !again ==> Last(model.deliveries).payload == p && old(consumer.results) <= Last(model.deliveries).results
    {
      var result: PostResult := *;
      Advance(Post(result));
      var results := consumer.results + [result];
      again := PostsAgain(attempt, result);
      if again {
        consumer := Delivering(p, results);
      } else {
        consumer := Waiting;
        if result.Accepted? {
          sent := sent + 1;
        } else {
          failed := failed + 1;
        }
      }
    }

    /** The drain loop of run after stop: it delivers everything queued, in order,
        and returns with the queue empty. */
    method Drain()
      requires Valid() && stopped && consumer.Waiting?
      modifies `queue, `sent, `failed, `consumer, `model
      ensures Valid() && Reaches(old(model), model)
      ensures consumer.Exited? && queue == []
      ensures model.accepted == old(model.accepted) && model.producer == old(model.producer)
      ensures sent + failed == |model.deliveries| == |model.accepted|
    {
      ReachesSelf(model);
      while queue != []
        invariant Valid() && consumer.Waiting? && Reaches(old(model), model)
        invariant model.accepted == old(model.accepted) && model.producer == old(model.producer)
        decreases |queue|
      {
        var p := queue[0];
        Advance(Take);
        queue, consumer := queue[1..], Delivering(p, []);
        ghost var taken := model;
        Deliver(p);
        ReachesTransitive(old(model), taken, model);
      }
      AllDelivered(model);
      Advance(Exit);
      consumer := Exited(0);
    }

    /** The first half of Close: closes the stop channel, once. */
    method SignalStop()
      requires Valid()
      modifies `stopped, `model
      ensures Valid() && Reaches(old(model), model)
      ensures model == old(model).(stopped := true)
    {
      ReachesSelf(model);
      if !stopped {
        Advance(Action.Stop);
        stopped := true;
      }
    }

    /** The second half: waits for run to return. A delivery under way is finished first,
        and a goroutine that has already returned is not started again. */
    method Await()
      requires Valid() && stopped
      modifies `queue, `sent, `failed, `consumer, `model
      ensures Valid() && Reaches(old(model), model) && consumer.Exited?
      ensures model.accepted == old(model.accepted) && model.producer == old(model.producer)
      ensures if old(consumer).Exited? then model == old(model)
              else queue == [] && sent + failed == |model.accepted|
    {
      ReachesSelf(model);
      if consumer.Exited? {
        return;
      }
      if consumer.Delivering? {
        Deliver(consumer.payload);
      }
      ghost var idle := model;
      Drain();
      ReachesTransitive(old(model), idle, model);
    }

    /** Close, with no Notify beside it: whatever the goroutine was doing, everything
        accepted has been sent or has failed and nothing is left. */
    method Close()
      requires Valid()
      modifies `stopped, `queue, `sent, `failed, `consumer, `model
      ensures Valid() && stopped && Reaches(old(model), model) && consumer.Exited?
      ensures model.accepted == old(model.accepted) && model.producer == old(model.producer)
      ensures !old(consumer).Exited? ==> queue == [] && sent + failed == |model.accepted|
    {
      SignalStop();
      ghost var stopping := model;
      Await();
      ReachesTransitive(old(model), stopping, model);
    }

    /** Stats: four separate loads, between which the goroutine may go on delivering. Each
        counter is one it had during the call, and together they never count a delivery
        twice or miss one finished before it. */
    method Stats() returns (s: nat, f: nat, d: nat, sup: nat)
      requires Valid()
      modifies `queue, `sent, `failed, `consumer, `model
      ensures Valid() && Reaches(old(model), model)
      ensures old(sent) <= s <= sent && old(failed) <= f <= failed
      ensures |old(model.deliveries)| <= s + f <= |model.deliveries|
      ensures d + |model.accepted| == model.attempted
      ensures sup == suppressed
    {
      ReachableInv(model);
      s := sent;
      ghost var first := model;
      ConsumerRuns();
      f := failed;
      ghost var second := model;
      ConsumerRuns();
      d := dropped;
      ghost var third := model;
      ConsumerRuns();
      sup := suppressed;
      ReachesTransitive(first, second, third);
      ReachesTransitive(first, third, model);
      ReachableInv(model);
    }

    method Open() returns (n: nat)
      requires Valid()
      ensures n == |Replay(model.accepted)|
    {
      ReachableInv(model);
      ReplayIsOpen(model);
      assert Severities(open).Keys == open.Keys;
      n := |open|;
    }
  }
}
