/** What every interleaving of Notify with the delivery goroutine keeps, part one:
    the accepted events of each finding, and what `open` records about them. */
module AlertLifecycle {
  import opened Basics
  import opened Telemetry
  import opened AlertModel

  /** The identity a payload carries. */
  function Identity(p: Payload): OpenAlert {
    OpenAlert(p.id, p.code, p.severity, p.namespace, p.workload, p.runtime, p.title)
  }

  /** Event q may directly follow event p of the same finding: an escalation is
      strictly more severe and names p's severity; a resolution names p's severity
      and repeats p's identity; a new episode starts with a firing. */
  predicate MayFollow(p: Payload, q: Payload) {
    match q.event
    case Firing => p.event == Resolved
    case Escalated =>
      p.event != Resolved && q.severity.Rank() < p.severity.Rank() && q.previous == Some(p.severity)
    case Resolved =>
      p.event != Resolved && q.previous == Some(p.severity) && q.severity == Info && q.evidence == [] &&
      Identity(q).(severity := p.severity) == Identity(p)
  }

  /** The events of one finding, in acceptance order. */
  function EventsOf(log: seq<Payload>, id: string): (events: seq<Payload>)
    ensures forall e :: e in events ==> e.id == id
  {
    if log == [] then []
    else
      var before := EventsOf(log[..|log| - 1], id);
      if Last(log).id == id then before + [Last(log)] else before
  }

  /** A prefix of (firing escalated* resolved)*. */
  ghost predicate WellFormed(events: seq<Payload>) {
    && (events != [] ==> events[0].event == Firing)
    && forall i :: 0 <= i < |events| - 1 ==> MayFollow(events[i], events[i + 1])
  }

  /** What `open` must say about a finding with these accepted events. */
  predicate OpenMatches(open: map<string, OpenAlert>, id: string, events: seq<Payload>) {
    if events == [] || Last(events).event == Resolved
    then id !in open
    else id in open && open[id] == Identity(Last(events))
  }

  /** The firing and escalated events since the last resolution. */
  function EpisodeLength(events: seq<Payload>): nat {
    if events == [] || Last(events).event == Resolved then 0
    else 1 + EpisodeLength(events[..|events| - 1])
  }

  ghost predicate FindingOk(s: State, id: string) {
    var events := EventsOf(s.accepted, id);
    && WellFormed(events)
    && OpenMatches(s.open, id, events)
    && (id in s.open ==> EpisodeLength(events) + s.open[id].severity.Rank() <= s.config.minSeverity.Rank() + 1)
  }

  ghost predicate LifecycleInv(s: State) {
    forall id :: FindingOk(s, id)
  }

  lemma EventsOfAppend(log: seq<Payload>, p: Payload, id: string)
    ensures EventsOf(log + [p], id) == if p.id == id then EventsOf(log, id) + [p] else EventsOf(log, id)
  {
    assert (log + [p])[..|log|] == log;
  }

  lemma WellFormedAppend(events: seq<Payload>, p: Payload)
    requires WellFormed(events)
    requires if events == [] then p.event == Firing else MayFollow(Last(events), p)
    ensures WellFormed(events + [p])
  {
    var longer := events + [p];
    forall i | 0 <= i < |longer| - 1 ensures MayFollow(longer[i], longer[i + 1]) {
      if i < |events| - 1 {
        assert MayFollow(events[i], events[i + 1]);
      }
    }
  }

  /** Accepting one more event of a finding keeps that finding's invariant. */
  lemma FindingStep(s: State, t: State, p: Payload)
    requires FindingOk(s, p.id) && t.config == s.config
    requires t.accepted == s.accepted + [p]
    requires var events := EventsOf(s.accepted, p.id);
             if events == [] then p.event == Firing else MayFollow(Last(events), p)
    requires if p.event == Resolved then p.id !in t.open else p.id in t.open && t.open[p.id] == Identity(p)
    requires p.severity.Rank() <= s.config.minSeverity.Rank() || p.event == Resolved
    ensures FindingOk(t, p.id)
  {
    var events := EventsOf(s.accepted, p.id);
    EventsOfAppend(s.accepted, p, p.id);
    WellFormedAppend(events, p);
    assert (events + [p])[..|events|] == events;
    assert Last(events + [p]) == p;
  }

  /** The other findings are untouched by it. */
  lemma OtherFinding(s: State, t: State, p: Payload, id: string)
    requires FindingOk(s, id) && t.config == s.config && id != p.id
    requires t.accepted == s.accepted + [p]
    requires id in s.open <==> id in t.open
    requires id in s.open ==> s.open[id] == t.open[id]
    ensures FindingOk(t, id)
  {
    EventsOfAppend(s.accepted, p, id);
  }

  lemma AnnounceKeepsLifecycle(s: State, p: Payload, rec: Recommendation)
    requires LifecycleInv(s) && Eligible(s.config, rec)
    requires Identity(p) == NewOpenAlert(rec) && p.event != Resolved
    requires var events := EventsOf(s.accepted, p.id);
             if events == [] then p.event == Firing else MayFollow(Last(events), p)
    ensures LifecycleInv(Announce(s, p, rec))
  {
    var t := Announce(s, p, rec);
    forall id ensures FindingOk(t, id) {
      assert FindingOk(s, id);
      if Fits(s) {
        if id == p.id {
          FindingStep(s, t, p);
        } else {
          OtherFinding(s, t, p, id);
        }
      }
    }
  }

  lemma ExamineKeepsLifecycle(s: State, rec: Recommendation, now: Time)
    requires LifecycleInv(s)
    ensures LifecycleInv(ExamineOne(s, rec, now))
  {
    assert FindingOk(s, rec.id);
    if !Eligible(s.config, rec) {
    } else if rec.id !in s.open {
      AnnounceKeepsLifecycle(s, FiringPayload(rec, Firing, OtherSeverity(""), s.config.cluster, now), rec);
    } else if rec.severity.Rank() < s.open[rec.id].severity.Rank() {
      AnnounceKeepsLifecycle(s, FiringPayload(rec, Escalated, s.open[rec.id].severity, s.config.cluster, now), rec);
    } else {
      UnchangedFindings(s, ExamineOne(s, rec, now));
    }
  }

  lemma UnchangedFindings(s: State, t: State)
    requires LifecycleInv(s)
    requires t.config == s.config && t.accepted == s.accepted && t.open == s.open
    ensures LifecycleInv(t)
  {
    forall id ensures FindingOk(t, id) {
      assert FindingOk(s, id);
    }
  }

  lemma ResolveKeepsLifecycle(s: State, id: string, now: Time)
    requires LifecycleInv(s) && id in s.open
    ensures LifecycleInv(ResolveOne(s, id, now))
  {
    var t := ResolveOne(s, id, now);
    var p := ResolvedPayload(s.open[id], s.config.cluster, now);
    assert FindingOk(s, id);
    assert p.id == id by {
      assert Last(EventsOf(s.accepted, id)) in EventsOf(s.accepted, id);
    }
    forall other ensures FindingOk(t, other) {
      assert FindingOk(s, other);
      if Fits(s) {
        if other == id {
          FindingStep(s, t, p);
        } else {
          OtherFinding(s, t, p, other);
        }
      }
    }
  }

  lemma LifecycleStep(s: State, a: Action)
    requires LifecycleInv(s) && Enabled(s, a)
    ensures LifecycleInv(Apply(s, a))
  {
    match a
    case Examine =>
      var u := ExamineOne(s, s.producer.recs[s.producer.done], s.producer.base.now);
      ExamineKeepsLifecycle(s, s.producer.recs[s.producer.done], s.producer.base.now);
      UnchangedFindings(u, Apply(s, a));
    case Resolve(id) =>
      var u := ResolveOne(s, id, s.producer.base.now);
      ResolveKeepsLifecycle(s, id, s.producer.base.now);
      UnchangedFindings(u, Apply(s, a));
    case _ =>
      UnchangedFindings(s, Apply(s, a));
  }

  lemma LifecycleInitial(c: Config)
    ensures LifecycleInv(Initial(c))
  {
  }

  // ── Replaying a stream of events ────────

  /** A subscriber's own view: the severity of every finding its stream left open. */
  function Replay(log: seq<Payload>): map<string, Severity> {
    if log == [] then map[]
    else
      var before := Replay(log[..|log| - 1]);
      var p := Last(log);
      if p.event == Resolved then before - {p.id} else before[p.id := p.severity]
  }

  function Severities(open: map<string, OpenAlert>): map<string, Severity> {
    map id | id in open :: open[id].severity
  }

  /** Replay agrees with each finding's own last event. */
  lemma {:induction false} ReplayOne(log: seq<Payload>, id: string)
    ensures var events := EventsOf(log, id);
            if events == [] || Last(events).event == Resolved
            then id !in Replay(log)
            else id in Replay(log) && Replay(log)[id] == Last(events).severity
  {
    if log != [] {
      ReplayOne(log[..|log| - 1], id);
    }
  }

  /** Replaying everything accepted rebuilds exactly `open`, at its severities. */
  lemma ReplayIsOpen(s: State)
    requires LifecycleInv(s)
    ensures Replay(s.accepted) == Severities(s.open)
  {
    forall id ensures id in Replay(s.accepted) <==> id in s.open {
      assert FindingOk(s, id);
      ReplayOne(s.accepted, id);
    }
    forall id | id in s.open ensures Replay(s.accepted)[id] == s.open[id].severity {
      assert FindingOk(s, id);
      ReplayOne(s.accepted, id);
    }
  }
}
