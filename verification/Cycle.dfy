/** The collector's goroutine (internal/collector/collector.go, Run) and what it does after
    each ScrapeAll (cmd/control-plane/main.go, OnCycle): reads the store, analyses it and
    hands the findings to the alert sender. Scrape goroutines run whenever they can. */
module Cycle {
  import opened Basics
  import opened Telemetry
  import opened Rules
  import opened EvidenceLaws
  import opened Store
  import opened StoreObject
  import opened Analysis
  import opened StoreAnalysis
  import S = ScrapeAll
  import A = AlertModel
  import AlertContents
  import FindingLaws

  // ── State ────────

  datatype Setup = Setup(targets: nat, cap: nat, retention: Retention, thresholds: Thresholds)

  /** Where the collector's own goroutine is: at its select, inside ScrapeAll, or inside
      Analyze, with what it has read so far. */
  datatype Phase =
    | Select
    | Scraping
    | Analyzing(latest: seq<Snapshot>, windows: map<string, seq<Snapshot>>)

  datatype State = State(phase: Phase, scrape: S.State, ops: seq<Op>, reports: seq<seq<Recommendation>>)

  datatype Step =
    | Tick
    | Scrape(step: S.Step)
    | Sample(w: nat, snap: Snapshot, now: Time)
    | Expire(now: Time)
    | ReadLatest(latest: seq<Snapshot>)
    | ReadHistory(key: string)
    | Report(out: seq<Recommendation>, now: Time)

  /** Before the first cycle nothing has been scraped, as after a ScrapeAll cancelled at
      once. */
  ghost predicate Initial(s: State) {
    s.phase.Select? && NotRun(s.scrape) && s.ops == [] && s.reports == []
  }

  predicate NotRun(x: S.State) {
    x.loop == S.Returned && x.slots == 0 && x.waiting == 0 && x.workers == [] && x.cancelled && x.scrapes == []
  }

  function Given(windows: map<string, seq<Snapshot>>, t: Thresholds, now: Time): Input {
    Input(Some(key => if key in windows then windows[key] else []), t, now)
  }

  /** A goroutine writes to the store only inside its scrape; the collector prunes only at
      its select, and reads only once ScrapeAll has returned. */
  ghost predicate Enabled(s: State, step: Step, c: Setup) {
    match step
    case Tick => s.phase.Select?
    case Scrape(x) => S.Enabled(s.scrape, x, c.targets, c.cap)
    case Sample(w, _, _) => S.At(s.scrape, w, S.Stage.Scraping)
    case Expire(_) => s.phase.Select?
    case ReadLatest(latest) =>
      s.phase.Scraping? && s.scrape.loop == S.Returned && IsLatest(latest, Replay(s.ops, c.retention))
    case ReadHistory(_) => s.phase.Analyzing?
    case Report(out, now) =>
      && s.phase.Analyzing?
      && (forall x :: x in s.phase.latest ==> x.Key() in s.phase.windows)
      && IsAnalysis(out, s.phase.latest, Given(s.phase.windows, c.thresholds, now))
  }

  ghost function Do(s: State, step: Step, c: Setup): State
    requires Enabled(s, step, c)
  {
    match step
    case Tick => s.(phase := Phase.Scraping, scrape := S.State(S.Loop.Select, 0, 0, [], false, []))
    case Scrape(x) => s.(scrape := S.Do(s.scrape, x, c.targets, c.cap))
    case Sample(_, snap, now) => s.(ops := s.ops + [Op.Add(snap, now)])
    case Expire(now) => s.(ops := s.ops + [Op.Prune(now)])
    case ReadLatest(latest) => s.(phase := Analyzing(latest, map[]))
    case ReadHistory(key) =>
      s.(phase := s.phase.(windows := s.phase.windows[key := SeriesOf(Replay(s.ops, c.retention), key)]))
    case Report(out, _) => s.(phase := Select, reports := s.reports + [out])
  }

  // ── The reads are undisturbed ────────

  /** Findings with distinct identifiers, each justified by its own evidence and as severe
      as its code. */
  ghost predicate Sound(out: seq<Recommendation>) {
    && (forall i, j :: 0 <= i < j < |out| ==> out[i].id != out[j].id)
    && (forall i :: 0 <= i < |out| ==> AllHold(out[i].evidence) && out[i].severity == FindingLaws.Grade(out[i].code))
  }

  /** While the collector analyses, what it has read is what the store still holds. */
  ghost predicate Undisturbed(s: State, c: Setup) {
    s.phase.Analyzing? ==>
      var data := Replay(s.ops, c.retention);
      && IsLatest(s.phase.latest, data)
      && forall key :: key in s.phase.windows ==> s.phase.windows[key] == SeriesOf(data, key)
  }

  ghost predicate Inv(s: State, c: Setup) {
    && S.Inv(s.scrape, c.targets, c.cap)
    && (!s.phase.Scraping? ==> s.scrape.loop == S.Returned)
    && Undisturbed(s, c)
    && forall i :: 0 <= i < |s.reports| ==> Sound(s.reports[i])
  }

  /** Once ScrapeAll has returned no scrape can write to the store. */
  lemma NoSampleAfterReturn(s: State, c: Setup, w: nat)
    requires S.Inv(s.scrape, c.targets, c.cap) && s.scrape.loop == S.Returned
    ensures !S.At(s.scrape, w, S.Stage.Scraping)
  {
    S.NothingRunning(s.scrape, c.cap);
  }

  lemma ReportSound(s: State, c: Setup, out: seq<Recommendation>, now: Time)
    requires Inv(s, c) && Enabled(s, Report(out, now), c)
    ensures Sound(out)
  {
    var data, latest := Replay(s.ops, c.retention), s.phase.latest;
    var given := Given(s.phase.windows, c.thresholds, now);
    ReplayWellKeyed(s.ops, c.retention);
    LatestHasDistinctKeys(latest);
    IdentitiesDistinct(out, latest, given);
    forall x | x in latest ensures LatestInTail(given.For(x)) {
      WindowEndsInLatest(data, c.retention.maxPerWorkload, latest, c.thresholds, now, x);
      assert given.For(x) == Reading(data, c.thresholds, now).For(x);
    }
    forall i | 0 <= i < |out|
      ensures AllHold(out[i].evidence) && out[i].severity == FindingLaws.Grade(out[i].code)
    {
      AnalysisJustified(out, latest, given, out[i]);
      var s := FindingLaws.FindingDescribed(out, latest, given, out[i]);
    }
  }

  lemma ScrapeKeepsInv(s: State, x: S.Step, c: Setup)
    requires Inv(s, c) && Enabled(s, Scrape(x), c)
    ensures Inv(Do(s, Scrape(x), c), c)
  {
    S.InvStep(s.scrape, x, c.targets, c.cap);
    if s.scrape.loop == S.Returned {
      S.NothingRunning(s.scrape, c.cap);
    }
  }

  lemma FreshInv(c: Setup)
    ensures S.Inv(S.State(S.Loop.Select, 0, 0, [], false, []), c.targets, c.cap)
  {
    S.InitialInv(S.State(S.Loop.Select, 0, 0, [], false, []), c.targets, c.cap);
  }

  lemma StepKeepsInv(s: State, step: Step, c: Setup)
    requires Inv(s, c) && Enabled(s, step, c)
    ensures Inv(Do(s, step, c), c)
  {
    match step
    case Tick => FreshInv(c);
    case Scrape(x) => ScrapeKeepsInv(s, x, c);
    case Sample(w, _, _) =>
      if s.scrape.loop == S.Returned {
        NoSampleAfterReturn(s, c, w);
      }
    case Report(out, now) => ReportSound(s, c, out, now);
    case _ =>
  }

  ghost predicate Next(s: State, t: State, c: Setup) {
    exists step :: Enabled(s, step, c) && t == Do(s, step, c)
  }

  ghost predicate IsRun(run: seq<State>, c: Setup) {
    && run != [] && Initial(run[0])
    && forall i :: 0 <= i < |run| - 1 ==> Next(run[i], run[i + 1], c)
  }

  lemma InitialInv(s: State, c: Setup)
    requires Initial(s)
    ensures Inv(s, c)
  {
    NotRunInv(s.scrape, c);
  }

  lemma NotRunInv(x: S.State, c: Setup)
    requires NotRun(x)
    ensures S.Inv(x, c.targets, c.cap)
  {
  }

  lemma {:induction false} RunKeepsInv(run: seq<State>, c: Setup, i: nat)
    requires IsRun(run, c) && i < |run|
    ensures Inv(run[i], c)
  {
    if i == 0 {
      InitialInv(run[0], c);
    } else {
      RunKeepsInv(run, c, i - 1);
      assert Next(run[i - 1], run[i - 1 + 1], c);
      var step :| Enabled(run[i - 1], step, c) && run[i] == Do(run[i - 1], step, c);
      StepKeepsInv(run[i - 1], step, c);
    }
  }

  /** In every interleaving of scrapes with the collector, each analysis reads an
      undisturbed store, so everything it reports is justified and named once. */
  lemma ReportsSound(run: seq<State>, c: Setup, out: seq<Recommendation>)
    requires IsRun(run, c) && out in Last(run).reports
    ensures Sound(out)
  {
    RunKeepsInv(run, c, |run| - 1);
  }

  // ── What subscribers are told ────────

  ghost predicate AllJustified(payloads: seq<A.Payload>) {
    forall i :: 0 <= i < |payloads| ==> AllHold(payloads[i].evidence)
  }

  lemma ActionJustified(s: A.State, a: A.Action)
    requires AllJustified(s.accepted) && A.Enabled(s, a)
    requires s.producer.Examining? ==> forall i :: 0 <= i < |s.producer.recs| ==> AllHold(s.producer.recs[i].evidence)
    ensures AllJustified(A.Apply(s, a).accepted)
  {
  }

  lemma NextJustified(s: A.State, t: A.State)
    requires AllJustified(s.accepted) && A.Next(s, t)
    requires s.producer.Examining? ==> Sound(s.producer.recs)
    ensures AllJustified(t.accepted)
  {
    var a :| A.Enabled(s, a) && t == A.Apply(s, a);
    ActionJustified(s, a);
  }

  /** A running Notify was handed one of the collector's analyses. */
  predicate ReceivesReport(s: A.State, reports: seq<seq<Recommendation>>) {
    s.producer.Examining? ==> s.producer.recs in reports
  }

  /** The sender is started empty and each Notify is handed one of the collector's
      analyses. */
  ghost predicate Fed(alerts: seq<A.State>, config: A.Config, reports: seq<seq<Recommendation>>) {
    && A.IsRun(alerts) && alerts[0] == A.Initial(config)
    && forall i :: 0 <= i < |alerts| ==> ReceivesReport(alerts[i], reports)
  }

  lemma {:induction false} AlertsJustifiedTo(alerts: seq<A.State>, reports: seq<seq<Recommendation>>, i: nat)
    requires A.IsRun(alerts) && alerts[0].accepted == [] && i < |alerts|
    requires forall j :: 0 <= j < |alerts| ==> ReceivesReport(alerts[j], reports)
    requires forall out :: out in reports ==> Sound(out)
    ensures AllJustified(alerts[i].accepted)
  {
    if i > 0 {
      AlertsJustifiedTo(alerts, reports, i - 1);
      assert ReceivesReport(alerts[i - 1], reports);
      assert A.Next(alerts[i - 1], alerts[i - 1 + 1]);
      NextJustified(alerts[i - 1], alerts[i]);
    }
  }

  /** Every payload the sender ever accepts, whatever is dropped, fails or is retried, is
      justified by the evidence it carries. */
  lemma AlertsJustified(run: seq<State>, c: Setup, alerts: seq<A.State>, config: A.Config, p: A.Payload)
    requires IsRun(run, c) && Fed(alerts, config, Last(run).reports)
    requires p in Last(alerts).accepted
    ensures AllHold(p.evidence)
  {
    var reports := Last(run).reports;
    forall out | out in reports ensures Sound(out) {
      ReportsSound(run, c, out);
    }
    AlertsJustifiedTo(alerts, reports, |alerts| - 1);
  }

  /** The running Notify and those before it were handed the collector's analyses. */
  ghost predicate HandedReports(s: A.State, reports: seq<seq<Recommendation>>) {
    && (!s.producer.Idle? ==> s.producer.recs in reports)
    && forall i :: 0 <= i < |s.notified| ==> s.notified[i] in reports
  }

  lemma NextHandsReports(s: A.State, t: A.State, reports: seq<seq<Recommendation>>)
    requires A.Next(s, t) && HandedReports(s, reports) && ReceivesReport(t, reports)
    ensures HandedReports(t, reports)
  {
    var a :| A.Enabled(s, a) && t == A.Apply(s, a);
    AlertContents.NotifiedStep(s, a);
    AlertContents.NotifyKeepsDate(s, a);
  }

  lemma {:induction false} HandedReportsTo(alerts: seq<A.State>, reports: seq<seq<Recommendation>>, i: nat)
    requires A.IsRun(alerts) && alerts[0].producer.Idle? && alerts[0].notified == [] && i < |alerts|
    requires forall j :: 0 <= j < |alerts| ==> ReceivesReport(alerts[j], reports)
    ensures HandedReports(alerts[i], reports)
  {
    if i > 0 {
      HandedReportsTo(alerts, reports, i - 1);
      assert A.Next(alerts[i - 1], alerts[i - 1 + 1]);
      NextHandsReports(alerts[i - 1], alerts[i], reports);
    }
  }

  /** Whatever is delivered as firing or escalated tells all of a finding in one of the
      collector's analyses, with its evidence, when it was observed and over how long. */
  lemma AlertsTellFindings(run: seq<State>, c: Setup, alerts: seq<A.State>, config: A.Config, p: A.Payload)
    returns (out: seq<Recommendation>, rec: Recommendation)
    requires IsRun(run, c) && A.ValidConfig(config) && Fed(alerts, config, Last(run).reports)
    requires p in Last(alerts).accepted && p.event != A.Resolved
    ensures out in Last(run).reports && rec in out
    ensures AlertContents.Tells(p, rec) && AlertContents.Worth(rec.severity, config.minSeverity)
    ensures AllHold(p.evidence) && p.severity == FindingLaws.Grade(p.code)
  {
    var s := Last(alerts);
    AlertContents.RunKeepsContents(alerts, |alerts| - 1);
    HandedReportsTo(alerts, Last(run).reports, |alerts| - 1);
    rec :| AlertContents.Handed(s, rec) && AlertContents.Tells(p, rec)
      && AlertContents.Worth(rec.severity, s.config.minSeverity);
    if !s.producer.Idle? && rec in s.producer.recs {
      out := s.producer.recs;
    } else {
      var i :| 0 <= i < |s.notified| && rec in s.notified[i];
      out := s.notified[i];
    }
    ReportsSound(run, c, out);
  }
}
