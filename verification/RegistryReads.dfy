/** Reading back all of what Write prints: each family under its own name, with its type
    and its numbers, and the optional ones only when there is something to report. */
module RegistryReads {
  import opened Basics
  import opened Telemetry
  import opened Text
  import opened Promtext
  import opened Exposition
  import opened Registry

  function NumberIn(text: string, c: Codec): Number {
    match c.parse(text)
    case None => NaN
    case Some(v) => v
  }

  /** The family is there with this type and these samples, and no others. */
  predicate Shows(mf: Families, name: string, typ: string, samples: seq<Sample>) {
    name in mf.types && mf.types[name] == typ && Get(mf, name) == samples
  }

  /** One number without labels. */
  predicate ShowsOne(mf: Families, name: string, typ: string, number: string, c: Codec) {
    Shows(mf, name, typ, [Sample(name, map[], NumberIn(number, c))])
  }

  /** One count without labels, exact when a float64 can hold it. */
  predicate ShowsCount(mf: Families, name: string, typ: string, count: int, c: Codec) {
    && ShowsOne(mf, name, typ, c.decimal(count), c)
    && (c.representable(count as real) ==> Get(mf, name) == [Sample(name, map[], Finite(count as real))])
  }

  predicate Hides(mf: Families, name: string) {
    Get(mf, name) == [] && name !in mf.types
  }

  // ── One family ────────

  lemma SectionShown(v: View, help: string -> string, c: Codec, i: nat)
    requires i < |Sections(v, c)|
    ensures var s := Sections(v, c)[i].Named(); Shows(Meant(v, help, c), s.name, s.typ, RowSamples(s, c))
  {
    var sections := Named(Sections(v, c));
    NamesApart(v, c, i);
    SectionSamples(sections, help, c, i);
    SectionType(sections, help, i);
    DocSamples(Document(sections, help), sections[i].name, c);
    DocTypes(Document(sections, help), sections[i].name, c);
  }

  lemma FamilyShown(v: View, help: string -> string, c: Codec, s: FamilySection)
    requires s in CoreSections(v, c) || s in DatabaseSections(v, c) || s in AlertSections(v, c)
    ensures Shows(Meant(v, help, c), NameOf(s.family), s.typ, RowSamples(s.Named(), c))
  {
    assert s in Sections(v, c);
    var i :| 0 <= i < |Sections(v, c)| && Sections(v, c)[i] == s;
    SectionShown(v, help, c, i);
  }

  lemma OneRow(name: string, labels: seq<Label>, number: string, typ: string, c: Codec)
    requires NumberText(number) && c.parse(number).Some?
    ensures RowSamples(Section(name, typ, [Row(labels, number)]), c) ==
            [Sample(name, LabelMap(labels, map[]), NumberIn(number, c))]
  {
    ParseNumberText(number, c);
    var lines := RowLines(name, [Row(labels, number)]);
    assert lines == [Series(name, labels, number)] && SamplesNamed(lines[..0], name, c) == [];
  }

  lemma SingleShown(v: View, help: string -> string, c: Codec, f: Family, typ: string, number: string)
    requires NumberText(number) && c.parse(number).Some?
    requires var s := Single(f, typ, number);
             s in CoreSections(v, c) || s in DatabaseSections(v, c) || s in AlertSections(v, c)
    ensures ShowsOne(Meant(v, help, c), NameOf(f), typ, number, c)
  {
    FamilyShown(v, help, c, Single(f, typ, number));
    OneRow(NameOf(f), [], number, typ, c);
  }

  lemma CountShown(v: View, help: string -> string, c: Codec, f: Family, typ: string, count: int)
    requires ValidCodec(c)
    requires var s := Single(f, typ, c.decimal(count));
             s in CoreSections(v, c) || s in DatabaseSections(v, c) || s in AlertSections(v, c)
    ensures ShowsCount(Meant(v, help, c), NameOf(f), typ, count, c)
  {
    SingleShown(v, help, c, f, typ, c.decimal(count));
  }

  lemma {:induction false} NeverTyped(sections: seq<Section>, help: string -> string, name: string)
    requires forall j :: 0 <= j < |sections| ==> sections[j].name != name
    ensures TypeNamed(Document(sections, help), name) == None
  {
    if sections != [] {
      NeverTyped(sections[..|sections| - 1], help, name);
      TypeNamedAppend(Document(sections[..|sections| - 1], help), SectionLines(Last(sections), help), name);
      OneSectionType(Last(sections), help, name);
    }
  }

  lemma FamilyHidden(v: View, help: string -> string, c: Codec, f: Family)
    requires forall s :: s in Sections(v, c) ==> s.family != f
    ensures Hides(Meant(v, help, c), NameOf(f))
  {
    var all, sections := Sections(v, c), Named(Sections(v, c));
    forall j | 0 <= j < |sections| ensures sections[j].name != NameOf(f) {
      assert all[j] in all;
      NamesDistinct(all[j].family, f);
    }
    NoSamples(sections, help, NameOf(f), c);
    NeverTyped(sections, help, NameOf(f));
    DocSamples(Document(sections, help), NameOf(f), c);
    DocTypes(Document(sections, help), NameOf(f), c);
  }

  // ── The service's own numbers ────────

  lemma ShowsTotals(v: View, help: string -> string, c: Codec)
    requires ValidCodec(c)
    ensures var mf := Meant(v, help, c);
            && ShowsOne(mf, NameOf(Uptime), "gauge", c.fixed(v.uptimeSeconds, 3), c)
            && ShowsCount(mf, NameOf(StoreSize), "gauge", v.storeSize, c)
            && ShowsCount(mf, NameOf(Active), "gauge", v.active, c)
  {
    var core := CoreSections(v, c);
    assert core[1] in core && core[7] in core && core[9] in core;
    SingleShown(v, help, c, Uptime, "gauge", c.fixed(v.uptimeSeconds, 3));
    CountShown(v, help, c, StoreSize, "gauge", v.storeSize);
    CountShown(v, help, c, Active, "gauge", v.active);
  }

  lemma BuildLabels(b: BuildInfo)
    ensures LabelMap([Label("version", b.version), Label("commit", b.commit), Label("go_version", b.goVer)], map[]) ==
            map["version" := b.version, "commit" := b.commit, "go_version" := b.goVer]
  {
    var l1, l2, l3 := Label("version", b.version), Label("commit", b.commit), Label("go_version", b.goVer);
    assert [l1, l2, l3][1..] == [l2, l3] && [l2, l3][1..] == [l3] && [l3][1..] == [];
    assert LabelMap([l3], map["version" := b.version, "commit" := b.commit]) ==
           map["version" := b.version, "commit" := b.commit]["go_version" := b.goVer];
  }

  lemma ShowsBuild(v: View, help: string -> string, c: Codec)
    requires ValidCodec(c)
    ensures var labels := map["version" := v.build.version, "commit" := v.build.commit, "go_version" := v.build.goVer];
            Shows(Meant(v, help, c), NameOf(Build), "gauge",
                  [Sample(NameOf(Build), labels, NumberIn(c.decimal(1), c))])
  {
    var core := CoreSections(v, c);
    assert core[0] in core;
    FamilyShown(v, help, c, core[0]);
    BuildLabels(v.build);
    OneRow(NameOf(Build), core[0].rows[0].labels, c.decimal(1), "gauge", c);
  }

  lemma DatabaseCountShown(v: View, help: string -> string, c: Codec, i: nat, f: Family, count: int)
    requires ValidCodec(c) && i < |DatabaseSections(v, c)|
    requires DatabaseSections(v, c)[i] == Single(f, "counter", c.decimal(count))
    ensures ShowsCount(Meant(v, help, c), NameOf(f), "counter", count, c)
  {
    assert DatabaseSections(v, c)[i] in DatabaseSections(v, c);
    CountShown(v, help, c, f, "counter", count);
  }

  /** The counters of the durable sink, when there is one. */
  lemma ShowsDatabase(v: View, help: string -> string, c: Codec)
    requires ValidCodec(c) && v.database.Some?
    ensures var mf, d := Meant(v, help, c), v.database.value;
            && ShowsCount(mf, NameOf(DbWrites), "counter", d.written, c)
            && ShowsCount(mf, NameOf(DbFailures), "counter", d.failed, c)
            && ShowsCount(mf, NameOf(DbDropped), "counter", d.dropped, c)
  {
    var d := v.database.value;
    DatabaseCountShown(v, help, c, 0, DbWrites, d.written);
    DatabaseCountShown(v, help, c, 1, DbFailures, d.failed);
    DatabaseCountShown(v, help, c, 2, DbDropped, d.dropped);
  }

  lemma AlertCountShown(v: View, help: string -> string, c: Codec, i: nat, f: Family, typ: string, count: int)
    requires ValidCodec(c) && i < |AlertSections(v, c)|
    requires AlertSections(v, c)[i] == Single(f, typ, c.decimal(count))
    ensures ShowsCount(Meant(v, help, c), NameOf(f), typ, count, c)
  {
    assert AlertSections(v, c)[i] in AlertSections(v, c);
    CountShown(v, help, c, f, typ, count);
  }

  /** The counters of the alert sender, when alerting is on. */
  lemma ShowsAlerts(v: View, help: string -> string, c: Codec)
    requires ValidCodec(c) && v.alerts.Some?
    ensures var mf, a := Meant(v, help, c), v.alerts.value;
            && ShowsCount(mf, NameOf(AlertsSent), "counter", a.sent, c)
            && ShowsCount(mf, NameOf(AlertFailures), "counter", a.failed, c)
            && ShowsCount(mf, NameOf(AlertsDropped), "counter", a.dropped, c)
            && ShowsCount(mf, NameOf(AlertsSuppressed), "counter", a.suppressed, c)
            && ShowsCount(mf, NameOf(AlertsOpen), "gauge", a.open, c)
  {
    var a := v.alerts.value;
    AlertCountShown(v, help, c, 0, AlertsSent, "counter", a.sent);
    AlertCountShown(v, help, c, 1, AlertFailures, "counter", a.failed);
    AlertCountShown(v, help, c, 2, AlertsDropped, "counter", a.dropped);
    AlertCountShown(v, help, c, 3, AlertsSuppressed, "counter", a.suppressed);
    AlertCountShown(v, help, c, 4, AlertsOpen, "gauge", a.open);
  }

  lemma OptionalHidden(v: View, help: string -> string, c: Codec, f: Family)
    requires Place(f) >= 10 && (if Place(f) < 13 then v.database.None? else v.alerts.None?)
    ensures Hides(Meant(v, help, c), NameOf(f))
  {
    CoreInPlace(v, c);
    OptionalInPlace(v, c);
    forall s | s in Sections(v, c) ensures s.family != f {
      assert s in CoreSections(v, c) || s in DatabaseSections(v, c) || s in AlertSections(v, c);
    }
    FamilyHidden(v, help, c, f);
  }

  // ── Findings by severity ────────

  function SeverityLines(name: string, shown: seq<string>, number: string -> string): seq<Line> {
    seq(|shown|, i requires 0 <= i < |shown| => Series(name, [Label("severity", shown[i])], number(shown[i])))
  }

  lemma {:induction false} SeveritySamples(name: string, shown: seq<string>, number: string -> string, c: Codec,
                                           severity: string)
    requires Distinct(shown) && forall x :: NumberText(number(x)) && c.parse(number(x)).Some?
    ensures SelectFrom(SamplesNamed(SeverityLines(name, shown, number), name, c), map["severity" := severity]) ==
            if severity in shown then [Sample(name, map["severity" := severity], NumberIn(number(severity), c))] else []
  {
    var lines := SeverityLines(name, shown, number);
    if shown != [] {
      var n := |shown| - 1;
      var before, x := shown[..n], shown[n];
      SeveritySamples(name, before, number, c, severity);
      assert lines[..n] == SeverityLines(name, before, number);
      ParseNumberText(number(x), c);
      assert LabelMap([Label("severity", x)], map[]) == map["severity" := x];
      SelectSeverity(SamplesNamed(lines[..n], name, c), name, x, NumberIn(number(x), c), severity);
      assert shown == before + [x];
    }
  }

  function CountText(v: View, c: Codec): string -> string {
    x => c.decimal(if x in v.recommendations then v.recommendations[x] else 0)
  }

  lemma SelectSeverity(before: seq<Sample>, name: string, x: string, value: Number, severity: string)
    ensures var want: Labels := map["severity" := severity];
            SelectFrom(before + [Sample(name, map["severity" := x], value)], want) ==
            SelectFrom(before, want) + (if x == severity then [Sample(name, want, value)] else [])
  {
    var want: Labels := map["severity" := severity];
    var s := Sample(name, map["severity" := x], value);
    assert LabelOf(s.labels, "severity") == x && "severity" in want;
    KeepAppend(before, [s], (y: Sample) => Matches(y.labels, want));
    assert [s][..0] == [];
  }

  lemma ShowsSeverities(v: View, help: string -> string, c: Codec, severity: string)
    requires ValidView(v) && ValidCodec(c)
    ensures var mf, name, want := Meant(v, help, c), NameOf(Recommendations), map["severity" := severity];
            && name in mf.types && mf.types[name] == "counter"
            && Select(mf, name, want) ==
               if severity in v.recommendations
               then [Sample(name, want, NumberIn(c.decimal(v.recommendations[severity]), c))] else []
  {
    var core := CoreSections(v, c);
    assert core[8] in core;
    FamilyShown(v, help, c, core[8]);
    SeveritySamples(NameOf(Recommendations), v.severities, CountText(v, c), c, severity);
    assert RowLines(NameOf(Recommendations), SeverityRows(v, c)) ==
           SeverityLines(NameOf(Recommendations), v.severities, CountText(v, c));
    assert severity in v.severities <==> severity in Elements(v.severities);
  }

  // ── Durations and times of each target ────────

  lemma TargetShown(v: View, help: string -> string, c: Codec, k: TargetKey, s: FamilySection,
                    number: TargetKey -> string)
    requires ValidView(v) && k in v.scrapes && s in CoreSections(v, c) && s.rows == TargetRows(v.keys, number)
    requires forall x :: NumberText(number(x)) && c.parse(number(x)).Some?
    ensures var name := NameOf(s.family);
            Select(Meant(v, help, c), name, Want(k)) == [Sample(name, Want(k), NumberIn(number(k), c))]
  {
    FamilyShown(v, help, c, s);
    SelectTarget(NameOf(s.family), v.keys, number, c, k);
    assert k in v.keys <==> k in Elements(v.keys);
  }

  lemma ShowsDuration(v: View, help: string -> string, c: Codec, k: TargetKey)
    requires ValidView(v) && ValidCodec(c) && k in v.scrapes
    ensures var name := NameOf(Duration);
            Select(Meant(v, help, c), name, Want(k)) ==
            [Sample(name, Want(k), NumberIn(c.fixed(v.scrapes[k].lastDurationMs, 3), c))]
  {
    var s := CoreSections(v, c)[4];
    assert s in CoreSections(v, c);
    TargetShown(v, help, c, k, s, DurationText(v, c));
  }

  lemma ShowsLastSuccess(v: View, help: string -> string, c: Codec, k: TargetKey)
    requires ValidView(v) && ValidCodec(c) && k in v.scrapes
    ensures var name, last := NameOf(LastSuccess), v.scrapes[k].lastSuccess;
            Select(Meant(v, help, c), name, Want(k)) ==
            [Sample(name, Want(k),
                    NumberIn(c.fixed(if last.None? then 0.0 else (last.value / 1_000_000_000) as real, 0), c))]
  {
    var s := CoreSections(v, c)[5];
    assert s in CoreSections(v, c);
    TargetShown(v, help, c, k, s, LastSuccessText(v, c));
  }

  // ── What a reader of the text finds ────────

  lemma TotalNames()
    ensures NameOf(Build) == "ifa_build_info" && NameOf(Uptime) == "ifa_uptime_seconds"
    ensures NameOf(StoreSize) == "ifa_store_snapshots" && NameOf(Active) == "ifa_active_recommendations"
    ensures NameOf(Recommendations) == "ifa_recommendations_total"
  {
  }

  lemma TimeNames()
    ensures NameOf(Duration) == "ifa_scrape_duration_milliseconds"
    ensures NameOf(LastSuccess) == "ifa_last_successful_" + "scrape_timestamp_seconds"
  {
  }

  lemma DatabaseNames()
    ensures NameOf(DbWrites) == "ifa_database_writes_total" && NameOf(DbFailures) == "ifa_database_write_failures_total"
    ensures NameOf(DbDropped) == "ifa_database_dropped_total"
  {
  }

  lemma AlertNames()
    ensures NameOf(AlertsSent) == "ifa_alerts_sent_total" && NameOf(AlertFailures) == "ifa_alert_failures_total"
    ensures NameOf(AlertsDropped) == "ifa_alerts_dropped_total"
    ensures NameOf(AlertsSuppressed) == "ifa_alerts_suppressed_total" && NameOf(AlertsOpen) == "ifa_alerts_open"
  {
  }

  /** The build, the uptime and the two gauges. */
  lemma ParseReadsTotals(v: View, help: string -> string, c: Codec)
    requires ValidCodec(c) && TidyHelp(help) && ParseText(Exposed(v, help, c), c).Some?
    ensures var mf := ParseText(Exposed(v, help, c), c).value;
            var labels := map["version" := v.build.version, "commit" := v.build.commit, "go_version" := v.build.goVer];
            && Shows(mf, "ifa_build_info", "gauge", [Sample("ifa_build_info", labels, NumberIn(c.decimal(1), c))])
            && ShowsOne(mf, "ifa_uptime_seconds", "gauge", c.fixed(v.uptimeSeconds, 3), c)
            && ShowsCount(mf, "ifa_store_snapshots", "gauge", v.storeSize, c)
            && ShowsCount(mf, "ifa_active_recommendations", "gauge", v.active, c)
  {
    ParseExposed(v, help, c);
    ShowsBuild(v, help, c);
    ShowsTotals(v, help, c);
    TotalNames();
  }

  /** How many findings of a severity, or nothing for one never counted. */
  lemma ParseReadsSeverity(v: View, help: string -> string, c: Codec, severity: string)
    requires ValidView(v) && ValidCodec(c) && TidyHelp(help) && ParseText(Exposed(v, help, c), c).Some?
    ensures var mf, want := ParseText(Exposed(v, help, c), c).value, map["severity" := severity];
            var name := "ifa_recommendations_total";
            && name in mf.types && mf.types[name] == "counter"
            && Select(mf, name, want) ==
               if severity in v.recommendations
               then [Sample(name, want, NumberIn(c.decimal(v.recommendations[severity]), c))] else []
  {
    ParseExposed(v, help, c);
    ShowsSeverities(v, help, c, severity);
    TotalNames();
  }

  /** How long a target's last successful scrape took, to the microsecond, and when it was,
      in whole seconds, zero when there was none. */
  lemma ParseReadsTimes(v: View, help: string -> string, c: Codec, k: TargetKey)
    requires ValidView(v) && ValidCodec(c) && TidyHelp(help) && ParseText(Exposed(v, help, c), c).Some?
    requires k in v.scrapes
    ensures var mf, last := ParseText(Exposed(v, help, c), c).value, v.scrapes[k].lastSuccess;
            var took, at := "ifa_scrape_duration_milliseconds", "ifa_last_successful_" + "scrape_timestamp_seconds";
            && Select(mf, took, Want(k)) ==
               [Sample(took, Want(k), NumberIn(c.fixed(v.scrapes[k].lastDurationMs, 3), c))]
            && Select(mf, at, Want(k)) ==
               [Sample(at, Want(k),
                       NumberIn(c.fixed(if last.None? then 0.0 else (last.value / 1_000_000_000) as real, 0), c))]
  {
    ParseExposed(v, help, c);
    ShowsDuration(v, help, c, k);
    ShowsLastSuccess(v, help, c, k);
    TimeNames();
  }

  /** The durable sink's counters, or none of their families without a sink. */
  lemma ParseReadsDatabase(v: View, help: string -> string, c: Codec)
    requires ValidCodec(c) && TidyHelp(help) && ParseText(Exposed(v, help, c), c).Some?
    ensures var mf := ParseText(Exposed(v, help, c), c).value;
            match v.database
            case None => forall f: Family :: 10 <= Place(f) < 13 ==> Hides(mf, NameOf(f))
            case Some(d) =>
              && ShowsCount(mf, "ifa_database_writes_total", "counter", d.written, c)
              && ShowsCount(mf, "ifa_database_write_failures_total", "counter", d.failed, c)
              && ShowsCount(mf, "ifa_database_dropped_total", "counter", d.dropped, c)
  {
    ParseExposed(v, help, c);
    if v.database.Some? {
      ShowsDatabase(v, help, c);
      DatabaseNames();
    } else {
      forall f: Family | 10 <= Place(f) < 13 ensures Hides(Meant(v, help, c), NameOf(f)) {
        OptionalHidden(v, help, c, f);
      }
    }
  }

  /** The alert sender's counters, or none of their families without alerting. */
  lemma ParseReadsAlerts(v: View, help: string -> string, c: Codec)
    requires ValidCodec(c) && TidyHelp(help) && ParseText(Exposed(v, help, c), c).Some?
    ensures var mf := ParseText(Exposed(v, help, c), c).value;
            match v.alerts
            case None => forall f: Family :: 13 <= Place(f) ==> Hides(mf, NameOf(f))
            case Some(a) =>
              && ShowsCount(mf, "ifa_alerts_sent_total", "counter", a.sent, c)
              && ShowsCount(mf, "ifa_alert_failures_total", "counter", a.failed, c)
              && ShowsCount(mf, "ifa_alerts_dropped_total", "counter", a.dropped, c)
              && ShowsCount(mf, "ifa_alerts_suppressed_total", "counter", a.suppressed, c)
              && ShowsCount(mf, "ifa_alerts_open", "gauge", a.open, c)
  {
    ParseExposed(v, help, c);
    if v.alerts.Some? {
      ShowsAlerts(v, help, c);
      AlertNames();
    } else {
      forall f: Family | 13 <= Place(f) ensures Hides(Meant(v, help, c), NameOf(f)) {
        OptionalHidden(v, help, c, f);
      }
    }
  }
}
