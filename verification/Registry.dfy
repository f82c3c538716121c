/** The service's own metrics (internal/metrics/registry.go): what is recorded, what
    Write prints, and what a parser of that text reads back. */
module Registry {
  import opened Basics
  import opened Telemetry
  import opened Text
  import opened Promtext
  import opened Exposition

  datatype TargetKey = TargetKey(workload: string, runtime: string)

  datatype TargetStats = TargetStats(
    scrapes: nat,
    errors: nat,
    lastSuccess: Option<Time>,
    lastDurationMs: real,
    missingMetrics: nat
  )

  const NO_STATS := TargetStats(0, 0, None, 0.0, 0)

  datatype BuildInfo = BuildInfo(version: string, commit: string, goVer: string)
  datatype DatabaseStats = DatabaseStats(written: nat, failed: nat, dropped: nat)
  datatype AlertStats = AlertStats(sent: nat, failed: nat, dropped: nat, suppressed: nat, open: nat)

  // ── Recording ────────

  datatype ScrapeEvent =
    | Succeeded(key: TargetKey, tookMicros: nat, missing: nat, at: Time)
    | ScrapeFailed(key: TargetKey)

  function StatsFor(scrapes: map<TargetKey, TargetStats>, k: TargetKey): TargetStats {
    if k in scrapes then scrapes[k] else NO_STATS
  }

  function Record(scrapes: map<TargetKey, TargetStats>, e: ScrapeEvent): map<TargetKey, TargetStats> {
    var s := StatsFor(scrapes, e.key);
    match e
    case Succeeded(k, took, missing, at) =>
      scrapes[k := TargetStats(s.scrapes + 1, s.errors, Some(at), took as real / 1000.0, missing)]
    case ScrapeFailed(k) =>
      scrapes[k := s.(errors := s.errors + 1)]
  }

  function Tally(events: seq<ScrapeEvent>): map<TargetKey, TargetStats> {
    if events == [] then map[] else Record(Tally(events[..|events| - 1]), Last(events))
  }

  function Successes(events: seq<ScrapeEvent>, k: TargetKey): nat {
    |Keep(events, (e: ScrapeEvent) => e.Succeeded? && e.key == k)|
  }

  function Errors(events: seq<ScrapeEvent>, k: TargetKey): nat {
    |Keep(events, (e: ScrapeEvent) => e.ScrapeFailed? && e.key == k)|
  }

  /** The missing-metric count of the last successful scrape. */
  function LastMissing(events: seq<ScrapeEvent>, k: TargetKey): nat {
    if events == [] then 0
    else if Last(events).key == k && Last(events).Succeeded? then Last(events).missing
    else LastMissing(events[..|events| - 1], k)
  }

  /** The last successful scrape of a target, if there was one. */
  function LastSuccessOf(events: seq<ScrapeEvent>, k: TargetKey): Option<ScrapeEvent> {
    if events == [] then None
    else if Last(events).key == k && Last(events).Succeeded? then Some(Last(events))
    else LastSuccessOf(events[..|events| - 1], k)
  }

  /** The time, the duration and the missing metrics kept for a target are those of its last
      successful scrape; failures leave them. */
  lemma {:induction false} TallyLast(events: seq<ScrapeEvent>, k: TargetKey)
    ensures var s := StatsFor(Tally(events), k);
            match LastSuccessOf(events, k)
            case None => s.lastSuccess == None && s.lastDurationMs == 0.0 && s.missingMetrics == 0
            case Some(e) =>
              && e.Succeeded? && s.lastSuccess == Some(e.at) && s.missingMetrics == e.missing
              && s.lastDurationMs * 1000.0 == e.tookMicros as real
  {
    if events != [] {
      TallyLast(events[..|events| - 1], k);
    }
  }

  /** Counters are per target and count every event of that target. */
  lemma {:induction false} TallyCounts(events: seq<ScrapeEvent>, k: TargetKey)
    ensures k in Tally(events) <==> exists i :: 0 <= i < |events| && events[i].key == k
    ensures var s := StatsFor(Tally(events), k);
            s.scrapes == Successes(events, k) && s.errors == Errors(events, k) &&
            s.missingMetrics == LastMissing(events, k)
  {
    if events != [] {
      var before, e := events[..|events| - 1], Last(events);
      TallyCounts(before, k);
      assert events == before + [e];
      KeepAppend(before, [e], (x: ScrapeEvent) => x.Succeeded? && x.key == k);
      KeepAppend(before, [e], (x: ScrapeEvent) => x.ScrapeFailed? && x.key == k);
      assert forall i :: 0 <= i < |before| ==> events[i] == before[i];
      assert events[|events| - 1] == e;
    }
  }

  // ── Printing ────────

  /** Everything Write reads under the lock, with its map keys already sorted. */
  datatype View = View(
    build: BuildInfo,
    uptimeSeconds: real,
    keys: seq<TargetKey>,
    scrapes: map<TargetKey, TargetStats>,
    storeSize: nat,
    severities: seq<string>,
    recommendations: map<string, nat>,
    active: nat,
    database: Option<DatabaseStats>,
    alerts: Option<AlertStats>
  )

  ghost predicate ValidView(v: View) {
    && Elements(v.keys) == v.scrapes.Keys
    && Distinct(v.keys)
    && Elements(v.severities) == v.recommendations.Keys
    && Distinct(v.severities)
  }

  datatype Family =
    | Build | Uptime | Scrapes | Errored | Duration | LastSuccess | Missing | StoreSize
    | Recommendations | Active
    | DbWrites | DbFailures | DbDropped
    | AlertsSent | AlertFailures | AlertsDropped | AlertsSuppressed | AlertsOpen

  function NameOf(f: Family): string {
    match f
    case Build => "ifa_build_info"
    case Uptime => "ifa_uptime_seconds"
    case Scrapes => "ifa_scrapes_total"
    case Errored => "ifa_scrape_errors_total"
    case Duration => "ifa_scrape_duration_milliseconds"
    case LastSuccess => "ifa_last_successful_" + "scrape_timestamp_seconds"
    case Missing => "ifa_target_missing_metrics"
    case StoreSize => "ifa_store_snapshots"
    case Recommendations => "ifa_recommendations_total"
    case Active => "ifa_active_recommendations"
    case DbWrites => "ifa_database_writes_total"
    case DbFailures => "ifa_database_write_failures_total"
    case DbDropped => "ifa_database_dropped_total"
    case AlertsSent => "ifa_alerts_sent_total"
    case AlertFailures => "ifa_alert_failures_total"
    case AlertsDropped => "ifa_alerts_dropped_total"
    case AlertsSuppressed => "ifa_alerts_suppressed_total"
    case AlertsOpen => "ifa_alerts_open"
  }

  /** The length and two bytes of each name: enough to tell any two apart. */
  function TagOf(f: Family): (int, char, char) {
    match f
    case Build => (14, 'b', '_')
    case Uptime => (18, 'u', 'e')
    case Scrapes => (17, 's', 'e')
    case Errored => (23, 's', 'e')
    case Duration => (32, 's', 'e')
    case LastSuccess => (44, 'l', 's')
    case Missing => (26, 't', 't')
    case StoreSize => (19, 's', '_')
    case Recommendations => (25, 'r', 'm')
    case Active => (26, 'a', 'e')
    case DbWrites => (25, 'd', 'a')
    case DbFailures => (33, 'd', 'a')
    case DbDropped => (26, 'd', 'a')
    case AlertsSent => (21, 'a', 's')
    case AlertFailures => (24, 'a', '_')
    case AlertsDropped => (24, 'a', 's')
    case AlertsSuppressed => (27, 'a', 's')
    case AlertsOpen => (15, 'a', 's')
  }

  lemma NameTag(f: Family)
    ensures var n := NameOf(f); |n| > 9 && (|n|, n[4], n[9]) == TagOf(f)
  {
  }

  lemma NamesDistinct(f: Family, g: Family)
    ensures NameOf(f) == NameOf(g) ==> f == g
  {
    NameTag(f);
    NameTag(g);
  }

  lemma NameValid(f: Family)
    ensures ValidMetricName(NameOf(f))
  {
    match f
    case Build => CoreNameValid(f);
    case Uptime => CoreNameValid(f);
    case Scrapes => CoreNameValid(f);
    case Errored => CoreNameValid(f);
    case Duration => TargetNameValid(f);
    case LastSuccess => LastSuccessNameValid();
    case Missing => TargetNameValid(f);
    case StoreSize => TargetNameValid(f);
    case Recommendations => RecommendationNameValid(f);
    case Active => RecommendationNameValid(f);
    case DbWrites => DatabaseNameValid(f);
    case DbFailures => DatabaseNameValid(f);
    case DbDropped => DatabaseNameValid(f);
    case _ => AlertNameValid(f);
  }

  lemma CoreNameValid(f: Family)
    requires f.Build? || f.Uptime? || f.Scrapes? || f.Errored?
    ensures ValidMetricName(NameOf(f))
  {
  }

  lemma TargetNameValid(f: Family)
    requires f.Duration? || f.Missing? || f.StoreSize?
    ensures ValidMetricName(NameOf(f))
  {
  }

  lemma LastSuccessNameValid()
    ensures ValidMetricName(NameOf(LastSuccess))
  {
    assert ValidMetricName("ifa_last_successful_") && ValidMetricName("scrape_timestamp_seconds");
  }

  lemma RecommendationNameValid(f: Family)
    requires f.Recommendations? || f.Active?
    ensures ValidMetricName(NameOf(f))
  {
  }

  lemma DatabaseNameValid(f: Family)
    requires f.DbWrites? || f.DbFailures? || f.DbDropped?
    ensures ValidMetricName(NameOf(f))
  {
  }

  lemma AlertNameValid(f: Family)
    requires f.AlertsSent? || f.AlertFailures? || f.AlertsDropped? || f.AlertsSuppressed? || f.AlertsOpen?
    ensures ValidMetricName(NameOf(f))
  {
  }

  /** A section by its family. */
  datatype FamilySection = FamilySection(family: Family, typ: string, rows: seq<Row>) {
    function Named(): Section {
      Section(NameOf(family), typ, rows)
    }
  }

  function Named(sections: seq<FamilySection>): seq<Section> {
    seq(|sections|, i requires 0 <= i < |sections| => sections[i].Named())
  }

  function TargetLabels(k: TargetKey): seq<Label> {
    [Label("workload", k.workload), Label("runtime", k.runtime)]
  }

  function TargetRows(keys: seq<TargetKey>, number: TargetKey -> string): seq<Row> {
    seq(|keys|, i requires 0 <= i < |keys| => Row(TargetLabels(keys[i]), number(keys[i])))
  }

  function SeverityRows(v: View, c: Codec): seq<Row> {
    seq(|v.severities|, i requires 0 <= i < |v.severities| =>
      Row([Label("severity", v.severities[i])],
          c.decimal(if v.severities[i] in v.recommendations then v.recommendations[v.severities[i]] else 0)))
  }

  function Single(family: Family, typ: string, number: string): FamilySection {
    FamilySection(family, typ, [Row([], number)])
  }

  function ScrapesText(v: View, c: Codec): TargetKey -> string {
    k => c.decimal(StatsFor(v.scrapes, k).scrapes)
  }

  function ErrorsText(v: View, c: Codec): TargetKey -> string {
    k => c.decimal(StatsFor(v.scrapes, k).errors)
  }

  function DurationText(v: View, c: Codec): TargetKey -> string {
    k => c.fixed(StatsFor(v.scrapes, k).lastDurationMs, 3)
  }

  /** A target never scraped successfully reports zero. */
  function LastSuccessText(v: View, c: Codec): TargetKey -> string {
    k => match StatsFor(v.scrapes, k).lastSuccess
         case None => c.fixed(0.0, 0)
         case Some(at) => c.fixed((at / SECOND) as real, 0)
  }

  function MissingText(v: View, c: Codec): TargetKey -> string {
    k => c.decimal(StatsFor(v.scrapes, k).missingMetrics)
  }

  function CoreSections(v: View, c: Codec): seq<FamilySection> {
    [
      FamilySection(Build, "gauge",
              [Row([Label("version", v.build.version), Label("commit", v.build.commit),
                    Label("go_version", v.build.goVer)], c.decimal(1))]),
      Single(Uptime, "gauge", c.fixed(v.uptimeSeconds, 3)),
      FamilySection(Scrapes, "counter", TargetRows(v.keys, ScrapesText(v, c))),
      FamilySection(Errored, "counter", TargetRows(v.keys, ErrorsText(v, c))),
      FamilySection(Duration, "gauge", TargetRows(v.keys, DurationText(v, c))),
      FamilySection(LastSuccess, "gauge", TargetRows(v.keys, LastSuccessText(v, c))),
      FamilySection(Missing, "gauge", TargetRows(v.keys, MissingText(v, c))),
      Single(StoreSize, "gauge", c.decimal(v.storeSize)),
      FamilySection(Recommendations, "counter", SeverityRows(v, c)),
      Single(Active, "gauge", c.decimal(v.active))
    ]
  }

  function DatabaseSections(v: View, c: Codec): seq<FamilySection> {
    match v.database
    case None => []
    case Some(d) => [
      Single(DbWrites, "counter", c.decimal(d.written)),
      Single(DbFailures, "counter", c.decimal(d.failed)),
      Single(DbDropped, "counter", c.decimal(d.dropped))
    ]
  }

  function AlertSections(v: View, c: Codec): seq<FamilySection> {
    match v.alerts
    case None => []
    case Some(a) => [
      Single(AlertsSent, "counter", c.decimal(a.sent)),
      Single(AlertFailures, "counter", c.decimal(a.failed)),
      Single(AlertsDropped, "counter", c.decimal(a.dropped)),
      Single(AlertsSuppressed, "counter", c.decimal(a.suppressed)),
      Single(AlertsOpen, "gauge", c.decimal(a.open))
    ]
  }

  function Sections(v: View, c: Codec): seq<FamilySection> {
    CoreSections(v, c) + DatabaseSections(v, c) + AlertSections(v, c)
  }

  /** The text Write produces. */
  function Exposed(v: View, help: string -> string, c: Codec): string {
    Print(Document(Named(Sections(v, c)), help))
  }

  // ── Every line is printable ────────

  lemma TypeNames()
    ensures PlainWord("gauge") && ToLower("gauge") == "gauge"
    ensures PlainWord("counter") && ToLower("counter") == "counter"
  {
    assert ToLower("gauge") == "gauge" && ToLower("counter") == "counter";
  }

  predicate PrintableFamily(s: FamilySection, c: Codec) {
    s.typ in {"gauge", "counter"} && PrintableSection(s.Named(), c)
  }

  /** A row is printable when its label names and its number are. */
  lemma RowPrintable(name: string, r: Row, c: Codec)
    requires ValidMetricName(name)
    requires NumberText(r.number) && c.parse(r.number).Some?
    requires forall l :: l in r.labels ==> ValidMetricName(l.key)
    ensures Printable(RowLine(name, r), c)
  {
    ParseNumberText(r.number, c);
  }

  lemma FamilyPrintable(s: FamilySection, c: Codec)
    requires s.typ in {"gauge", "counter"}
    requires forall r :: r in s.rows ==>
               && NumberText(r.number) && c.parse(r.number).Some?
               && forall l :: l in r.labels ==> ValidMetricName(l.key)
    ensures PrintableFamily(s, c)
  {
    TypeNames();
    NameValid(s.family);
    var named := s.Named();
    forall r | r in named.rows ensures Printable(RowLine(named.name, r), c) {
      RowPrintable(named.name, r, c);
    }
  }

  lemma LabelNames()
    ensures ValidMetricName("workload") && ValidMetricName("runtime") && ValidMetricName("severity")
    ensures ValidMetricName("version") && ValidMetricName("commit") && ValidMetricName("go_version")
  {
  }

  lemma TargetsPrintable(f: Family, typ: string, keys: seq<TargetKey>, number: TargetKey -> string, c: Codec)
    requires typ in {"gauge", "counter"}
    requires forall k :: NumberText(number(k)) && c.parse(number(k)).Some?
    ensures PrintableFamily(FamilySection(f, typ, TargetRows(keys, number)), c)
  {
    LabelNames();
    FamilyPrintable(FamilySection(f, typ, TargetRows(keys, number)), c);
  }

  lemma SinglePrintable(f: Family, typ: string, number: string, c: Codec)
    requires typ in {"gauge", "counter"}
    requires NumberText(number) && c.parse(number).Some?
    ensures PrintableFamily(Single(f, typ, number), c)
  {
    FamilyPrintable(Single(f, typ, number), c);
  }

  lemma BuildPrintable(v: View, c: Codec)
    requires ValidCodec(c)
    ensures PrintableFamily(CoreSections(v, c)[0], c)
  {
    LabelNames();
    assert CoreSections(v, c)[0].rows[0].number == c.decimal(1);
    FamilyPrintable(CoreSections(v, c)[0], c);
  }

  lemma SeveritiesPrintable(v: View, c: Codec)
    requires ValidCodec(c)
    ensures PrintableFamily(FamilySection(Recommendations, "counter", SeverityRows(v, c)), c)
  {
    LabelNames();
    FamilyPrintable(FamilySection(Recommendations, "counter", SeverityRows(v, c)), c);
  }

  lemma CorePrintable(v: View, c: Codec)
    requires ValidCodec(c)
    ensures forall s :: s in CoreSections(v, c) ==> PrintableFamily(s, c)
  {
    BuildPrintable(v, c);
    SinglePrintable(Uptime, "gauge", c.fixed(v.uptimeSeconds, 3), c);
    TargetsPrintable(Scrapes, "counter", v.keys, ScrapesText(v, c), c);
    TargetsPrintable(Errored, "counter", v.keys, ErrorsText(v, c), c);
    TargetsPrintable(Duration, "gauge", v.keys, DurationText(v, c), c);
    TargetsPrintable(LastSuccess, "gauge", v.keys, LastSuccessText(v, c), c);
    TargetsPrintable(Missing, "gauge", v.keys, MissingText(v, c), c);
    SinglePrintable(StoreSize, "gauge", c.decimal(v.storeSize), c);
    SeveritiesPrintable(v, c);
    SinglePrintable(Active, "gauge", c.decimal(v.active), c);
  }

  lemma ExtrasPrintable(v: View, c: Codec)
    requires ValidCodec(c)
    ensures forall s :: s in DatabaseSections(v, c) + AlertSections(v, c) ==> PrintableFamily(s, c)
  {
    forall s | s in DatabaseSections(v, c) + AlertSections(v, c) ensures PrintableFamily(s, c) {
      SinglePrintable(s.family, s.typ, s.rows[0].number, c);
    }
  }

  // ── Reading back ────────

  /** The label pair that names a target. */
  function Want(k: TargetKey): Labels {
    map["workload" := k.workload, "runtime" := k.runtime]
  }

  lemma TargetLabelMap(k: TargetKey)
    ensures LabelMap(TargetLabels(k), map[]) == Want(k)
  {
    var ls, empty: Labels := TargetLabels(k), map[];
    assert ls[1..] == [Label("runtime", k.runtime)] && ls[1..][1..] == [];
    assert LabelMap(ls, empty) == LabelMap(ls[1..], empty["workload" := k.workload]);
    assert LabelMap(ls[1..], empty["workload" := k.workload]) ==
           LabelMap([], empty["workload" := k.workload]["runtime" := k.runtime]);
  }

  lemma WantSelects(k: TargetKey, other: TargetKey)
    ensures Matches(Want(other), Want(k)) <==> other == k
  {
    assert "workload" != "runtime";
    assert LabelOf(Want(other), "workload") == other.workload && LabelOf(Want(other), "runtime") == other.runtime;
    assert "workload" in Want(k) && "runtime" in Want(k);
  }

  /** Among the samples of per-target rows, the pair selects its target's row only. */
  lemma {:induction false} SelectTarget(name: string, keys: seq<TargetKey>, number: TargetKey -> string, c: Codec,
                                        k: TargetKey)
    requires Distinct(keys)
    requires forall x :: NumberText(number(x)) && c.parse(number(x)).Some?
    ensures SelectFrom(SamplesNamed(RowLines(name, TargetRows(keys, number)), name, c), Want(k)) ==
            if k in keys then [Sample(name, Want(k), c.parse(number(k)).value)] else []
  {
    var lines := RowLines(name, TargetRows(keys, number));
    if keys != [] {
      var n := |keys| - 1;
      var before, x := keys[..n], keys[n];
      SelectTarget(name, before, number, c, k);
      assert lines[..n] == RowLines(name, TargetRows(before, number));
      ParseNumberText(number(x), c);
      TargetLabelMap(x);
      SelectTargetNext(SamplesNamed(lines[..n], name, c), name, x, c.parse(number(x)).value, k);
      assert keys == before + [x];
    }
  }

  lemma SelectTargetNext(before: seq<Sample>, name: string, x: TargetKey, value: Number, k: TargetKey)
    ensures SelectFrom(before + [Sample(name, Want(x), value)], Want(k)) ==
            SelectFrom(before, Want(k)) + (if x == k then [Sample(name, Want(k), value)] else [])
  {
    WantSelects(k, x);
    KeepAppend(before, [Sample(name, Want(x), value)], (s: Sample) => Matches(s.labels, Want(k)));
    assert [Sample(name, Want(x), value)][..0] == [];
  }

  /** Families are printed in this order; the optional ones come last. */
  function Place(f: Family): nat {
    match f
    case Build => 0
    case Uptime => 1
    case Scrapes => 2
    case Errored => 3
    case Duration => 4
    case LastSuccess => 5
    case Missing => 6
    case StoreSize => 7
    case Recommendations => 8
    case Active => 9
    case DbWrites => 10
    case DbFailures => 11
    case DbDropped => 12
    case AlertsSent => 13
    case AlertFailures => 14
    case AlertsDropped => 15
    case AlertsSuppressed => 16
    case AlertsOpen => 17
  }

  ghost predicate InPlace(sections: seq<FamilySection>, low: nat, high: nat) {
    && (forall i :: 0 <= i < |sections| ==> low <= Place(sections[i].family) < high)
    && (forall i, j :: 0 <= i < j < |sections| ==> Place(sections[i].family) < Place(sections[j].family))
  }

  lemma CoreInPlace(v: View, c: Codec)
    ensures |CoreSections(v, c)| == 10 && InPlace(CoreSections(v, c), 0, 10)
  {
    var core := CoreSections(v, c);
    assert forall j :: 0 <= j < 10 ==> Place(core[j].family) == j;
  }

  lemma OptionalInPlace(v: View, c: Codec)
    ensures InPlace(DatabaseSections(v, c), 10, 13) && InPlace(AlertSections(v, c), 13, 18)
  {
    var alerts := AlertSections(v, c);
    assert forall j :: 0 <= j < |alerts| ==> Place(alerts[j].family) == 13 + j;
  }

  lemma JoinInPlace(xs: seq<FamilySection>, ys: seq<FamilySection>, low: nat, middle: nat, high: nat)
    requires low <= middle <= high && InPlace(xs, low, middle) && InPlace(ys, middle, high)
    ensures InPlace(xs + ys, low, high)
  {
  }

  lemma SectionsInPlace(v: View, c: Codec)
    ensures InPlace(Sections(v, c), 0, 18)
  {
    CoreInPlace(v, c);
    OptionalInPlace(v, c);
    JoinInPlace(CoreSections(v, c), DatabaseSections(v, c), 0, 10, 13);
    JoinInPlace(CoreSections(v, c) + DatabaseSections(v, c), AlertSections(v, c), 0, 13, 18);
  }

  lemma NamesApart(v: View, c: Codec, i: nat)
    requires i < |Sections(v, c)|
    ensures var all := Named(Sections(v, c));
            forall j :: 0 <= j < |all| && j != i ==> all[j].name != all[i].name
  {
    var sections := Sections(v, c);
    SectionsInPlace(v, c);
    forall j | 0 <= j < |sections| && j != i ensures NameOf(sections[j].family) != NameOf(sections[i].family) {
      NamesDistinct(sections[i].family, sections[j].family);
    }
  }

  /** The number a reader gets back for a printed count. */
  function Printed(count: int, c: Codec): Number {
    match c.parse(c.decimal(count))
    case None => NaN
    case Some(v) => v
  }

  /** Looking the target's label pair up in one family: its own count, exactly when it is
      one a float64 can hold, or nothing. */
  predicate ReadsBack(mf: Families, name: string, k: TargetKey, known: bool, count: int, c: Codec) {
    && Select(mf, name, Want(k)) == (if known then [Sample(name, Want(k), Printed(count, c))] else [])
    && (c.representable(count as real) ==> Printed(count, c) == Finite(count as real))
  }

  /** Parse undoes Write: whatever bytes the workload and runtime names hold, the parse
      succeeds exactly when the lines fit the scanner; then no line is skipped, and looking a target's label
      pair up finds exactly its own counts, or nothing for an unknown target. */
  lemma ParseUndoesWrite(v: View, help: string -> string, c: Codec, k: TargetKey)
    requires ValidView(v) && ValidCodec(c) && TidyHelp(help)
    ensures ParseText(Exposed(v, help, c), c).Some? <==> FitsScanner(Document(Named(Sections(v, c)), help))
    ensures var parsed := ParseText(Exposed(v, help, c), c);
            var known := k in v.scrapes;
            var s := StatsFor(v.scrapes, k);
            parsed.Some? ==>
            && parsed.value.linesSkipped == 0
            && var mf := parsed.value;
            && ReadsBack(mf, "ifa_scrapes_total", k, known, s.scrapes, c)
            && ReadsBack(mf, "ifa_scrape_errors_total", k, known, s.errors, c)
            && ReadsBack(mf, "ifa_target_missing_metrics", k, known, s.missingMetrics, c)
  {
    ParseExposed(v, help, c);
    assert k in v.keys <==> k in Elements(v.keys);
    ReadScrapes(v, help, c, k);
    ReadErrors(v, help, c, k);
    ReadMissing(v, help, c, k);
    CountNames();
  }

  lemma CountNames()
    ensures NameOf(Scrapes) == "ifa_scrapes_total"
    ensures NameOf(Errored) == "ifa_scrape_errors_total"
    ensures NameOf(Missing) == "ifa_target_missing_metrics"
  {
  }

  ghost function Meant(v: View, help: string -> string, c: Codec): Families {
    DocMeaning(Document(Named(Sections(v, c)), help), c)
  }

  lemma ReadScrapes(v: View, help: string -> string, c: Codec, k: TargetKey)
    requires ValidView(v) && ValidCodec(c)
    ensures ReadsBack(Meant(v, help, c), NameOf(Scrapes), k, k in v.keys, StatsFor(v.scrapes, k).scrapes, c)
  {
    ReadTarget(v, help, c, k, 2, ScrapesText(v, c), StatsFor(v.scrapes, k).scrapes);
  }

  lemma ReadErrors(v: View, help: string -> string, c: Codec, k: TargetKey)
    requires ValidView(v) && ValidCodec(c)
    ensures ReadsBack(Meant(v, help, c), NameOf(Errored), k, k in v.keys, StatsFor(v.scrapes, k).errors, c)
  {
    ReadTarget(v, help, c, k, 3, ErrorsText(v, c), StatsFor(v.scrapes, k).errors);
  }

  lemma ReadMissing(v: View, help: string -> string, c: Codec, k: TargetKey)
    requires ValidView(v) && ValidCodec(c)
    ensures ReadsBack(Meant(v, help, c), NameOf(Missing), k, k in v.keys, StatsFor(v.scrapes, k).missingMetrics, c)
  {
    ReadTarget(v, help, c, k, 6, MissingText(v, c), StatsFor(v.scrapes, k).missingMetrics);
  }

  lemma ParseExposed(v: View, help: string -> string, c: Codec)
    requires ValidCodec(c) && TidyHelp(help)
    ensures ParseText(Exposed(v, help, c), c) ==
            if FitsScanner(Document(Named(Sections(v, c)), help)) then Some(Meant(v, help, c)) else None
    ensures Meant(v, help, c).linesSkipped == 0
  {
    var sections := Named(Sections(v, c));
    AllPrintable(v, c);
    DocumentPrintable(sections, help, c);
    ParsePrint(Document(sections, help), c);
    NothingSkipped(Document(sections, help), c);
  }

  lemma AllPrintable(v: View, c: Codec)
    requires ValidCodec(c)
    ensures forall s :: s in Named(Sections(v, c)) ==> PrintableSection(s, c)
  {
    CorePrintable(v, c);
    ExtrasPrintable(v, c);
    var sections := Sections(v, c);
    assert sections == CoreSections(v, c) + (DatabaseSections(v, c) + AlertSections(v, c));
    forall s | s in Named(sections) ensures PrintableSection(s, c) {
      var i :| 0 <= i < |sections| && Named(sections)[i] == s;
      assert sections[i] in sections;
    }
  }

  lemma ReadTarget(v: View, help: string -> string, c: Codec, k: TargetKey, i: nat, number: TargetKey -> string,
                   count: int)
    requires ValidView(v) && ValidCodec(c) && i < 10
    requires CoreSections(v, c)[i].rows == TargetRows(v.keys, number)
    requires number(k) == c.decimal(count)
    requires forall x :: NumberText(number(x)) && c.parse(number(x)).Some?
    ensures ReadsBack(Meant(v, help, c), NameOf(CoreSections(v, c)[i].family), k, k in v.keys, count, c)
  {
    var sections := Named(Sections(v, c));
    var name := NameOf(CoreSections(v, c)[i].family);
    assert sections[i] == CoreSections(v, c)[i].Named();
    NamesApart(v, c, i);
    SectionSamples(sections, help, c, i);
    DocSamples(Document(sections, help), name, c);
    SelectTarget(name, v.keys, number, c, k);
  }
}
