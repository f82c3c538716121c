/** The store feeding the engine: what an undisturbed pair of Latest and History reads
    guarantees to an analysis. */
module StoreAnalysis {
  import opened Basics
  import opened Telemetry
  import opened Rules
  import opened RuleLaws
  import opened EvidenceLaws
  import opened Store
  import opened StoreObject
  import opened Analysis
  import W = Window
  import AlertModel
  import AlertConvergence
  import AlertSafety

  /** The engine's view of a store: History supplies the windows. */
  function Reading(data: Data, t: Thresholds, now: Time): Input {
    Input(Some(key => SeriesOf(data, key)), t, now)
  }

  /** What Latest promises about its result. */
  ghost predicate IsLatest(latest: seq<Snapshot>, data: Data) {
    && StrictlySorted(latest, KeyLess)
    && Elements(latest) == LatestOf(data)
  }

  lemma WindowEndsInLatest(data: Data, max: nat, latest: seq<Snapshot>, t: Thresholds, now: Time, s: Snapshot)
    requires WellKeyed(data, max) && IsLatest(latest, data) && s in latest
    ensures EndsInLatest(Reading(data, t, now).For(s)) && LatestInTail(Reading(data, t, now).For(s))
  {
    assert s in Elements(latest);
    var k :| k in data && data[k] != [] && Last(data[k]) == s;
    assert data[k][|data[k]| - 1].Key() == k;
    EndingIsInTail(Reading(data, t, now).For(s));
  }

  lemma {:induction false} DistinctCount(latest: seq<Snapshot>, s: Snapshot)
    requires StrictlySorted(latest, KeyLess)
    ensures multiset(latest)[s] <= 1
  {
    if latest != [] {
      MultisetSplit(latest);
      var rest := latest[1..];
      DistinctCount(rest, s);
      if s in rest {
        var i :| 0 <= i < |rest| && rest[i] == s;
        assert KeyLess(latest[0], latest[i + 1]);
        StrLessIrreflexive(s.Key());
      }
    }
  }

  lemma LatestHasDistinctKeys(latest: seq<Snapshot>)
    requires StrictlySorted(latest, KeyLess)
    ensures DistinctKeys(multiset(latest))
  {
    forall a, b | a in multiset(latest) && b in multiset(latest) && a.Key() == b.Key()
      ensures a == b && multiset(latest)[a] == 1
    {
      DistinctCount(latest, a);
      var i :| 0 <= i < |latest| && latest[i] == a;
      var j :| 0 <= j < |latest| && latest[j] == b;
      StrLessIrreflexive(a.Key());
    }
  }

  /** After any run of the store, an analysis of it reports each identifier once and
      only findings its own evidence justifies. */
  lemma StoreAnalysed(ops: seq<Op>, r: Retention, latest: seq<Snapshot>, t: Thresholds, now: Time,
                      out: seq<Recommendation>)
    requires IsLatest(latest, Replay(ops, r))
    requires IsAnalysis(out, latest, Reading(Replay(ops, r), t, now))
    ensures forall i, j :: 0 <= i < j < |out| ==> out[i].id != out[j].id
    ensures forall i :: 0 <= i < |out| ==> AllHold(out[i].evidence)
  {
    var data := Replay(ops, r);
    var given := Reading(data, t, now);
    ReplayWellKeyed(ops, r);
    LatestHasDistinctKeys(latest);
    IdentitiesDistinct(out, latest, given);
    forall s | s in latest ensures LatestInTail(given.For(s)) {
      WindowEndsInLatest(data, r.maxPerWorkload, latest, t, now, s);
    }
    forall i | 0 <= i < |out| ensures AllHold(out[i].evidence) {
      AnalysisJustified(out, latest, given, out[i]);
    }
  }

  // ── Reads with Adds in between ────────

  lemma SeriesSorted(ops: seq<Op>, key: string, r: Retention)
    requires ValidRetention(r) && Orderly(ops, key)
    ensures W.Sorted(SeriesOf(Replay(ops, r), key))
  {
    RetainedWindow(ops, key, r);
    var log := Log(ops, key);
    if key in Replay(ops, r) {
      var cutoff := LastAdd(ops, key).value - r.maxAge;
      InOrderInside(log, cutoff);
      InOrderLastN(Inside(log, cutoff), r.maxPerWorkload);
      InOrderIsSorted(Replay(ops, r)[key]);
    }
  }

  /** The API handler runs beside the collector and reads Latest first and each history
      afterwards, so newer samples may have joined it. They do no harm while the snapshot
      read first is retained and no older than the sustain window before the newest. */
  lemma LatestStaysInTail(ops: seq<Op>, r: Retention, s: Snapshot, t: Thresholds, now: Time)
    requires ValidRetention(r) && Orderly(ops, s.Key())
    requires var series := SeriesOf(Replay(ops, r), s.Key());
             s in series && (t.sustainFor > 0 ==> s.timestamp >= W.Cutoff(series, t.sustainFor))
    ensures LatestInTail(Reading(Replay(ops, r), t, now).For(s))
  {
    var series := SeriesOf(Replay(ops, r), s.Key());
    SeriesSorted(ops, s.Key(), r);
    var i :| 0 <= i < |series| && series[i] == s;
    if t.sustainFor > 0 {
      W.SampleInTail(series, t.sustainFor, i);
    }
  }

  function Usage(s: Snapshot, at: Time, pct: real): Snapshot {
    s.(timestamp := at, kvCacheUsagePct := Metric(pct, true))
  }

  lemma LogOne(ops: seq<Op>, snap: Snapshot, now: Time)
    ensures Log(ops + [Add(snap, now)], snap.Key()) == Log(ops, snap.Key()) + [snap]
    ensures LastAdd(ops + [Add(snap, now)], snap.Key()) == Some(now)
  {
    assert (ops + [Add(snap, now)])[..|ops|] == ops;
  }

  lemma NothingDropped(ops: seq<Op>, key: string, r: Retention, now: Time)
    requires ValidRetention(r) && Orderly(ops, key) && LastAdd(ops, key) == Some(now)
    requires |Log(ops, key)| <= r.maxPerWorkload
    requires forall i :: 0 <= i < |Log(ops, key)| ==> Log(ops, key)[i].timestamp >= now - r.maxAge
    requires forall op :: op in ops ==> op.Add?
    ensures SeriesOf(Replay(ops, r), key) == Log(ops, key)
  {
    var log, cutoff := Log(ops, key), now - r.maxAge;
    OnlyAdds(ops, key, r);
    SeriesIsRetained(ops, key, r, now);
    AllRetained(log, cutoff, r.maxPerWorkload);
  }

  lemma SeriesIsRetained(ops: seq<Op>, key: string, r: Retention, now: Time)
    requires ValidRetention(r) && Orderly(ops, key) && LastAdd(ops, key) == Some(now) && key in Replay(ops, r)
    ensures SeriesOf(Replay(ops, r), key) == Retained(Log(ops, key), now - r.maxAge, r.maxPerWorkload)
  {
    StoreAgrees(ops, key, r);
    ReplayKey(ops, key, r);
  }

  lemma AllRetained(log: seq<Snapshot>, cutoff: Time, max: nat)
    requires |log| <= max && forall i :: 0 <= i < |log| ==> log[i].timestamp >= cutoff
    ensures Retained(log, cutoff, max) == log
  {
    KeepAll(log, (s: Snapshot) => s.timestamp >= cutoff);
  }

  lemma {:induction false} OnlyAdds(ops: seq<Op>, key: string, r: Retention)
    requires forall op :: op in ops ==> op.Add?
    ensures LastAdd(ops, key).Some? ==> key in Replay(ops, r)
  {
    if ops != [] {
      assert Last(ops) in ops;
      assert forall op :: op in ops[..|ops| - 1] ==> op in ops;
      OnlyAdds(ops[..|ops| - 1], key, r);
    }
  }

  /** Further behind they do: a workload whose cache was read below the threshold, and
      filled up before its history was read, is reported as near capacity on evidence
      that says otherwise. */
  lemma ReadsApartUnjustified(s: Snapshot, t: Thresholds, r: Retention, now: Time)
    returns (ops: seq<Op>, more: seq<Op>, latest: Snapshot)
    requires t.sustainFor > 0 && ValidRetention(r) && r.maxPerWorkload >= 4 && r.maxAge >= t.sustainFor + 2
    ensures Orderly(ops + more, latest.Key()) && IsLatest([latest], Replay(ops, r))
    ensures var e := Reading(Replay(ops + more, r), t, now).For(latest);
            Fires(KVNearCapacity, e) && !AllHold(Evaluate(KVNearCapacity, e).value.evidence)
  {
    var d, hot := t.sustainFor, t.kvCacheHighPct + 1.0;
    latest := Usage(s, 0, t.kvCacheHighPct - 1.0);
    var h1, h2, h3 := Usage(s, 1, hot), Usage(s, 2, hot), Usage(s, 2 + d, hot);
    ops, more := [Add(latest, 0)], [Add(h1, 1), Add(h2, 2), Add(h3, 2 + d)];
    var key, all := latest.Key(), ops + more;
    FirstReading(latest, r);
    LogOfFour(latest, h1, h2, h3, 2 + d);
    assert all == [Add(latest, 0), Add(h1, 1), Add(h2, 2), Add(h3, 2 + d)];
    var w := [latest, h1, h2, h3];
    NothingDropped(all, key, r, 2 + d);
    HotTail(latest, h1, h2, h3, t, now);
    assert Reading(Replay(all, r), t, now).For(latest) == Eval(latest, w, t, now);
  }

  lemma HotTail(cool: Snapshot, h1: Snapshot, h2: Snapshot, h3: Snapshot, t: Thresholds, now: Time)
    requires t.sustainFor > 0 && cool.kvCacheUsagePct == Metric(t.kvCacheHighPct - 1.0, true)
    requires forall h :: h == h1 || h == h2 || h == h3 ==> h.kvCacheUsagePct == Metric(t.kvCacheHighPct + 1.0, true)
    requires cool.timestamp == 0 && h1.timestamp == 1 && h2.timestamp == 2 && h3.timestamp == 2 + t.sustainFor
    ensures var e := Eval(cool, [cool, h1, h2, h3], t, now);
            Fires(KVNearCapacity, e) && !AllHold(Evaluate(KVNearCapacity, e).value.evidence)
  {
    var w, d := [cool, h1, h2, h3], t.sustainFor;
    W.TailStartIs(w, d, 1);
    W.SustainedFrom(cool, w, d, KVCacheHigh(t));
    assert !Evaluate(KVNearCapacity, Eval(cool, w, t, now)).value.evidence[0].Holds();
  }

  lemma FirstReading(s: Snapshot, r: Retention)
    requires ValidRetention(r) && s.timestamp >= 0 - r.maxAge
    ensures IsLatest([s], Replay([Add(s, 0)], r))
  {
    var data := Replay([Add(s, 0)], r);
    assert [Add(s, 0)] == [] + [Add(s, 0)] && [s] == [] + [s];
    ReplayOne([], Add(s, 0), r);
    assert AfterExpired([s], 0 - r.maxAge) == [s];
    assert data == map[s.Key() := [s]];
    assert data[s.Key()] != [] && Last(data[s.Key()]) == s;
    assert Elements([s]) == {s};
  }

  lemma LogOfFour(a: Snapshot, b: Snapshot, c: Snapshot, d: Snapshot, now: Time)
    requires a.Key() == b.Key() == c.Key() == d.Key()
    requires a.timestamp <= b.timestamp <= c.timestamp <= d.timestamp && now >= 2
    ensures var ops := [Add(a, 0), Add(b, 1), Add(c, 2), Add(d, now)];
            Orderly(ops, a.Key()) && Log(ops, a.Key()) == [a, b, c, d] && LastAdd(ops, a.Key()) == Some(now)
  {
    var ops := [Add(a, 0), Add(b, 1), Add(c, 2), Add(d, now)];
    LogOne([], a, 0);
    LogOne([Add(a, 0)], b, 1);
    LogOne([Add(a, 0), Add(b, 1)], c, 2);
    LogOne([Add(a, 0), Add(b, 1), Add(c, 2)], d, now);
    assert [] + [Add(a, 0)] == [Add(a, 0)];
    assert [Add(a, 0)] + [Add(b, 1)] == [Add(a, 0), Add(b, 1)];
    assert [Add(a, 0), Add(b, 1)] + [Add(c, 2)] == [Add(a, 0), Add(b, 1), Add(c, 2)];
    assert [Add(a, 0), Add(b, 1), Add(c, 2)] + [Add(d, now)] == ops;
    InOrderSnoc([], a);
    InOrderSnoc([a], b);
    InOrderSnoc([a, b], c);
    InOrderSnoc([a, b, c], d);
    assert [] + [a] == [a] && [a] + [b] == [a, b] && [a, b] + [c] == [a, b, c] && [a, b, c] + [d] == [a, b, c, d];
  }

  // ── What the alert sender makes of it ────────

  /** A whole analysis of the store names each finding once. */
  lemma AnalysisCountsForAlerts(ops: seq<Op>, r: Retention, latest: seq<Snapshot>, t: Thresholds, now: Time,
                                out: seq<Recommendation>, c: AlertModel.Config)
    requires IsLatest(latest, Replay(ops, r))
    requires IsAnalysis(out, latest, Reading(Replay(ops, r), t, now))
    ensures AlertConvergence.EligibleCount(c, out) == |AlertModel.EligibleIds(c, out)|
  {
    StoreAnalysed(ops, r, latest, t, now, out);
    AlertSafety.EligibleCountDistinct(c, out);
  }

  /** Handed again to a sender that has converged on it, an analysis enqueues nothing and
      suppresses exactly one finding for each that is open. */
  lemma RepeatedAnalysisSuppressed(ops: seq<Op>, r: Retention, latest: seq<Snapshot>, t: Thresholds, now: Time,
                                   out: seq<Recommendation>, s: AlertModel.State, u: AlertModel.State)
    requires IsLatest(latest, Replay(ops, r))
    requires IsAnalysis(out, latest, Reading(Replay(ops, r), t, now))
    requires AlertModel.Reachable(s) && AlertModel.Reaches(s, u) && AlertModel.Enabled(u, AlertModel.EndNotify)
    requires u.producer.recs == out && AlertConvergence.Steady(s.config, s.open, out)
    requires var b := u.producer.base;
             b.open == s.open && b.accepted == |s.accepted| && b.dropped == s.dropped && b.suppressed == s.suppressed
    ensures u.open == s.open && u.accepted == s.accepted && u.dropped == s.dropped
    ensures u.suppressed == s.suppressed + |s.open|
  {
    AnalysisCountsForAlerts(ops, r, latest, t, now, out, s.config);
    AlertSafety.NotifyReturns(s, u);
    assert |s.open| == |s.open.Keys|;
  }
}
