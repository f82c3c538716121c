/** What every interleaving keeps, part four: what an accepted payload says. A finding's
    event carries everything the finding did, and is worth sending under the configured
    minimum severity; a resolution carries no measurement. */
module AlertContents {
  import opened Basics
  import opened Telemetry
  import opened AlertModel
  import opened AlertSafety

  /** Severities at or above the configured minimum. */
  predicate Worth(severity: Severity, minimum: Severity) {
    match minimum
    case Critical => severity == Critical
    case Warning => severity == Critical || severity == Warning
    case _ => severity == Critical || severity == Warning || severity == Info
  }

  /** The payload tells a subscriber all of the finding. */
  predicate Tells(p: Payload, rec: Recommendation) {
    && p.id == rec.id && p.code == rec.code && p.severity == rec.severity
    && p.namespace == rec.namespace && p.workload == rec.workloadName && p.runtime == rec.runtime
    && p.title == rec.title && p.evidence == rec.evidence
    && p.observedAt == Some(rec.observedAt) && p.windowSeconds == rec.windowSeconds
  }

  /** What a payload says whichever finding it is about. */
  predicate Stamped(p: Payload, c: Config) {
    && p.schemaVersion == 1
    && p.cluster == c.cluster
    && (p.event == Firing <==> p.previous == None)
    && (p.event == Resolved ==>
          p.evidence == [] && p.observedAt == None && p.windowSeconds == 0 && p.severity == Info)
  }

  /** The finding was handed to the running Notify or to one that has returned. */
  ghost predicate Handed(s: State, rec: Recommendation) {
    || (!s.producer.Idle? && rec in s.producer.recs)
    || exists i :: 0 <= i < |s.notified| && rec in s.notified[i]
  }

  ghost predicate TellsHanded(s: State, p: Payload) {
    exists rec :: Handed(s, rec) && Tells(p, rec) && Worth(rec.severity, s.config.minSeverity)
  }

  ghost predicate ContentsInv(s: State) {
    && ValidConfig(s.config)
    && forall p :: p in s.accepted ==> Stamped(p, s.config) && (p.event != Resolved ==> TellsHanded(s, p))
  }

  /** What has been handed over stays handed over. */
  lemma HandedStays(s: State, a: Action, rec: Recommendation)
    requires Enabled(s, a) && Handed(s, rec)
    ensures Handed(Apply(s, a), rec)
  {
    var t := Apply(s, a);
    if i :| 0 <= i < |s.notified| && rec in s.notified[i] {
      assert t.notified[i] == s.notified[i];
    } else if a == EndNotify {
      assert t.notified[|s.notified|] == s.producer.recs;
    }
  }

  lemma TellsHandedStays(s: State, a: Action, p: Payload)
    requires Enabled(s, a) && TellsHanded(s, p)
    ensures TellsHanded(Apply(s, a), p)
  {
    var rec :| Handed(s, rec) && Tells(p, rec) && Worth(rec.severity, s.config.minSeverity);
    HandedStays(s, a, rec);
  }

  /** What a finding may add to the accepted payloads: nothing, or one that tells it. */
  lemma ExamineAdds(s: State, rec: Recommendation, now: Time)
    requires ValidConfig(s.config)
    ensures var t := ExamineOne(s, rec, now);
            t.accepted == s.accepted ||
            (t.accepted == s.accepted + [Last(t.accepted)] &&
             var p := Last(t.accepted);
             && Stamped(p, s.config) && p.sentAt == now && p.event != Resolved
             && Tells(p, rec) && Worth(rec.severity, s.config.minSeverity))
  {
  }

  lemma ResolveAdds(s: State, id: string, now: Time)
    requires id in s.open
    ensures var t := ResolveOne(s, id, now);
            t.accepted == s.accepted ||
            (t.accepted == s.accepted + [Last(t.accepted)] &&
             var p := Last(t.accepted);
             Stamped(p, s.config) && p.sentAt == now && p.event == Resolved)
  {
  }

  /** What one step may add: at most one payload, made by the running Notify from the
      finding it is at or from the alert it resolves, and dated when that Notify began. */
  lemma StepAdds(s: State, a: Action)
    requires Enabled(s, a) && ValidConfig(s.config)
    ensures var t := Apply(s, a);
            t.accepted == s.accepted ||
            (t.accepted == s.accepted + [Last(t.accepted)] &&
             var p := Last(t.accepted);
             && (a == Examine || a.Resolve?)
             && Stamped(p, s.config) && p.sentAt == s.producer.base.now
             && (p.event == Resolved <==> a.Resolve?)
             && (a == Examine ==>
                   var rec := s.producer.recs[s.producer.done];
                   Tells(p, rec) && Worth(rec.severity, s.config.minSeverity)))
  {
    match a
    case Examine => ExamineAdds(s, s.producer.recs[s.producer.done], s.producer.base.now);
    case Resolve(id) => ResolveAdds(s, id, s.producer.base.now);
    case _ =>
  }

  lemma NotifiedStep(s: State, a: Action)
    requires Enabled(s, a)
    ensures Apply(s, a).notified == if a == EndNotify then s.notified + [s.producer.recs] else s.notified
    ensures s.producer.Idle? && !Apply(s, a).producer.Idle? ==> Apply(s, a).producer.Examining?
  {
  }

  /** A Notify is dated when it begins, and keeps that date and its findings throughout. */
  lemma NotifyKeepsDate(s: State, a: Action)
    requires Enabled(s, a)
    ensures var t := Apply(s, a);
            && (a.Begin? ==> t.producer.base.now == a.now && t.producer.recs == a.recs)
            && (!s.producer.Idle? && !t.producer.Idle? ==>
                  t.producer.base.now == s.producer.base.now && t.producer.recs == s.producer.recs)
  {
  }

  lemma ExaminedIsHanded(s: State)
    requires Enabled(s, Examine)
    ensures Handed(Apply(s, Examine), s.producer.recs[s.producer.done])
  {
  }

  lemma ContentsStep(s: State, a: Action)
    requires ContentsInv(s) && Enabled(s, a)
    ensures ContentsInv(Apply(s, a))
  {
    var t := Apply(s, a);
    ApplyGrows(s, a);
    StepAdds(s, a);
    forall p | p in t.accepted
      ensures Stamped(p, t.config) && (p.event != Resolved ==> TellsHanded(t, p))
    {
      if p in s.accepted {
        if p.event != Resolved {
          TellsHandedStays(s, a, p);
        }
      } else if p.event != Resolved {
        assert p == Last(t.accepted);
        ExaminedIsHanded(s);
      }
    }
  }

  lemma {:induction false} RunKeepsContents(run: seq<State>, i: nat)
    requires IsRun(run) && ContentsInv(run[0]) && i < |run|
    ensures ContentsInv(run[i]) && run[i].config == run[0].config
  {
    if i > 0 {
      RunKeepsContents(run, i - 1);
      assert Next(run[i - 1], run[i - 1 + 1]);
      var a :| Enabled(run[i - 1], a) && run[i] == Apply(run[i - 1], a);
      ContentsStep(run[i - 1], a);
      ApplyGrows(run[i - 1], a);
    }
  }

  /** In every reachable state: a firing or escalated payload tells everything of a finding
      some Notify was handed, one severe enough to be sent; a resolution says only which
      finding is gone; and each names the configured cluster. */
  lemma PayloadsTell(s: State, p: Payload)
    requires Reachable(s) && p in s.accepted
    ensures Stamped(p, s.config)
    ensures p.event != Resolved ==> TellsHanded(s, p)
  {
    var run :| IsRun(run) && run[0] == Initial(s.config) && Last(run) == s;
    RunKeepsContents(run, |run| - 1);
  }
}
