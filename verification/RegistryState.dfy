/** The registry object: the recording methods and Write. */
module RegistryState {
  import opened Basics
  import opened Telemetry
  import opened Text
  import opened Promtext
  import opened Exposition
  import opened Registry

  predicate TargetLess(a: TargetKey, b: TargetKey) {
    if a.workload != b.workload then StrLess(a.workload, b.workload) else StrLess(a.runtime, b.runtime)
  }

  lemma TargetLessTransitive(a: TargetKey, b: TargetKey, c: TargetKey)
    requires TargetLess(a, b) && TargetLess(b, c)
    ensures TargetLess(a, c)
  {
    if a.workload == b.workload && b.workload == c.workload {
      StrLessTransitive(a.runtime, b.runtime, c.runtime);
    } else if a.workload != b.workload && b.workload != c.workload {
      StrLessTransitive(a.workload, b.workload, c.workload);
      StrLessIrreflexive(a.workload);
    }
  }

  lemma TargetOrder(keys: set<TargetKey>)
    ensures StrictOrderOn(keys, TargetLess)
  {
    forall a ensures !TargetLess(a, a) {
      StrLessIrreflexive(a.runtime);
    }
    forall a, b, c | TargetLess(a, b) && TargetLess(b, c) ensures TargetLess(a, c) {
      TargetLessTransitive(a, b, c);
    }
    forall a, b | a != b ensures TargetLess(a, b) || TargetLess(b, a) {
      StrLessTotal(a.workload, b.workload);
      StrLessTotal(a.runtime, b.runtime);
    }
  }

  lemma StringOrder(keys: set<string>)
    ensures StrictOrderOn(keys, StrLess)
  {
    forall a ensures !StrLess(a, a) {
      StrLessIrreflexive(a);
    }
    forall a, b, c | StrLess(a, b) && StrLess(b, c) ensures StrLess(a, c) {
      StrLessTransitive(a, b, c);
    }
    forall a, b | a != b ensures StrLess(a, b) || StrLess(b, a) {
      StrLessTotal(a, b);
    }
  }

  class RegistryObject {
    const build: BuildInfo
    const started: Time
    var scrapes: map<TargetKey, TargetStats>
    var recommendations: map<string, nat>
    var active: nat
    var storeSize: nat
    var database: Option<DatabaseStats>
    var alerts: Option<AlertStats>

    /** Every scrape outcome recorded so far. */
    ghost var events: seq<ScrapeEvent>

    ghost predicate Valid()
      reads this
    {
      scrapes == Tally(events)
    }

    constructor (build: BuildInfo, now: Time)
      ensures Valid() && events == []
    {
      this.build, started := build, now;
      scrapes, recommendations := map[], map[];
      active, storeSize := 0, 0;
      database, alerts := None, None;
      events := [];
    }

    method RecordScrape(workload: string, runtime: string, tookMicros: nat, missing: nat, now: Time)
      requires Valid()
      modifies `scrapes, `events
      ensures Valid() && events == old(events) + [Succeeded(TargetKey(workload, runtime), tookMicros, missing, now)]
    {
      var k := TargetKey(workload, runtime);
      var s := StatsFor(scrapes, k);
      s := s.(scrapes := s.scrapes + 1);
      s := s.(lastSuccess := Some(now));
      s := s.(lastDurationMs := tookMicros as real / 1000.0);
      s := s.(missingMetrics := missing);
      scrapes := scrapes[k := s];
      events := events + [Succeeded(k, tookMicros, missing, now)];
      assert events[..|events| - 1] == old(events);
    }

    method RecordScrapeError(workload: string, runtime: string)
      requires Valid()
      modifies `scrapes, `events
      ensures Valid() && events == old(events) + [ScrapeFailed(TargetKey(workload, runtime))]
    {
      var k := TargetKey(workload, runtime);
      var s := StatsFor(scrapes, k);
      scrapes := scrapes[k := s.(errors := s.errors + 1)];
      events := events + [ScrapeFailed(k)];
      assert events[..|events| - 1] == old(events);
    }

    /** Counts the findings of one analysis by severity. */
    method RecordAnalysis(severities: seq<string>)
      requires Valid()
      modifies `recommendations, `active
      ensures Valid() && active == |severities|
      ensures forall s :: s in recommendations <==> s in old(recommendations) || s in severities
      ensures forall s :: s in recommendations ==>
                recommendations[s] ==
                (if s in old(recommendations) then old(recommendations[s]) else 0) + multiset(severities)[s]
    {
      active := |severities|;
      for i := 0 to |severities|
        invariant active == |severities|
        invariant forall s :: s in recommendations <==> s in old(recommendations) || s in severities[..i]
        invariant forall s :: s in recommendations ==>
            recommendations[s] ==
            (if s in old(recommendations) then old(recommendations[s]) else 0) + multiset(severities[..i])[s]
      {
        var s := severities[i];
        assert severities[..i + 1] == severities[..i] + [s];
        assert s !in recommendations ==> s !in multiset(severities[..i]);
        recommendations := recommendations[s := if s in recommendations then recommendations[s] + 1 else 1];
      }
      assert severities[..|severities|] == severities;
    }

    /** What Fprintf appends, one line at a time. */
    method EmitLines(text: string, lines: seq<Line>) returns (out: string)
      ensures out == text + Print(lines)
    {
      out := text;
      var i := 0;
      assert text + "" == text;
      while i < |lines|
        invariant 0 <= i <= |lines|
        invariant out == text + Print(lines[..i])
      {
        var line := lines[i];
        PrintOneMore(text, lines[..i], line);
        assert lines[..i + 1] == lines[..i] + [line];
        out := out + (PrintLine(line) + "\n");
        i := i + 1;
      }
      assert lines[..|lines|] == lines;
    }

    /** Write renders the registry: the text of a view of exactly these fields, with
        the targets and severities in ascending order. */
    method Write(now: Time, help: string -> string, c: Codec) returns (text: string, ghost v: View)
      requires Valid()
      ensures text == Exposed(v, help, c)
      ensures ValidView(v) && v.scrapes == scrapes && v.recommendations == recommendations
      ensures forall i, j :: 0 <= i < j < |v.keys| ==>
                StrLess(v.keys[i].workload, v.keys[j].workload) ||
                (v.keys[i].workload == v.keys[j].workload && StrLess(v.keys[i].runtime, v.keys[j].runtime))
      ensures StrictlySorted(v.severities, StrLess)
      ensures v.build == build && v.storeSize == storeSize && v.active == active
      ensures v.uptimeSeconds == Seconds(now - started) && v.database == database && v.alerts == alerts
    {
      TargetOrder(scrapes.Keys);
      var keys := SortSet(scrapes.Keys, TargetLess);
      StringOrder(recommendations.Keys);
      var severities := SortSet(recommendations.Keys, StrLess);
      var view := View(build, Seconds(now - started), keys, scrapes, storeSize,
                       severities, recommendations, active, database, alerts);
      SortedDistinct(keys);
      SortedTextDistinct(severities);
      var sections := Named(Sections(view, c));
      text := "";
      for i := 0 to |sections|
        invariant text == Print(Document(sections[..i], help))
      {
        assert sections[..i + 1][..i] == sections[..i];
        PrintAppend(Document(sections[..i], help), SectionLines(sections[i], help));
        text := EmitLines(text, SectionLines(sections[i], help));
      }
      assert sections[..|sections|] == sections;
      v := view;
    }
  }

  lemma SortedDistinct(keys: seq<TargetKey>)
    requires StrictlySorted(keys, TargetLess)
    ensures Distinct(keys)
  {
    TargetOrder(Elements(keys));
    forall i, j | 0 <= i < j < |keys| ensures keys[i] != keys[j] {
      assert TargetLess(keys[i], keys[j]) && keys[i] in Elements(keys);
    }
  }

  lemma SortedTextDistinct(texts: seq<string>)
    requires StrictlySorted(texts, StrLess)
    ensures Distinct(texts)
  {
    forall i, j | 0 <= i < j < |texts| ensures texts[i] != texts[j] {
      StrLessIrreflexive(texts[i]);
    }
  }

  /** From recording to reading: parsing what Write prints after any sequence of
      scrape outcomes finds, under a target's label pair, exactly how often that
      target was scraped, how often it failed, and its last missing-metric count. */
  lemma RecordWriteParse(events: seq<ScrapeEvent>, v: View, help: string -> string, c: Codec, k: TargetKey)
    requires ValidView(v) && v.scrapes == Tally(events)
    requires ValidCodec(c) && TidyHelp(help)
    ensures var parsed := ParseText(Exposed(v, help, c), c);
            var known := exists i :: 0 <= i < |events| && events[i].key == k;
            (parsed.Some? <==> FitsScanner(Document(Named(Sections(v, c)), help))) &&
            (parsed.Some? ==>
            && parsed.value.linesSkipped == 0
            && ReadsBack(parsed.value, "ifa_scrapes_total", k, known, Successes(events, k), c)
            && ReadsBack(parsed.value, "ifa_scrape_errors_total", k, known, Errors(events, k), c)
            && ReadsBack(parsed.value, "ifa_target_missing_metrics", k, known, LastMissing(events, k), c))
  {
    TallyCounts(events, k);
    ParseUndoesWrite(v, help, c, k);
  }
}
