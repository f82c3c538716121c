/** The sliding-window store (internal/telemetry/store.go): a doubly bounded window
    per workload, proved to agree with the unbounded log of everything added. */
module Store {
  import opened Basics
  import opened Telemetry
  import opened Window

  // ── One step on the retained data ────────

  datatype Retention = Retention(maxPerWorkload: nat, maxAge: Duration)

  predicate ValidRetention(r: Retention) {
    r.maxPerWorkload > 0 && r.maxAge > 0
  }

  /** What is left once the leading samples before the cutoff are dropped. */
  function AfterExpired(series: seq<Snapshot>, cutoff: Time): seq<Snapshot> {
    if series == [] || series[0].timestamp >= cutoff then series else AfterExpired(series[1..], cutoff)
  }

  /** The two trims of Add: by age, then by count. */
  function Trim(series: seq<Snapshot>, cutoff: Time, max: nat): seq<Snapshot> {
    LastN(AfterExpired(series, cutoff), max)
  }

  type Data = map<string, seq<Snapshot>>

  function SeriesOf(data: Data, key: string): seq<Snapshot> {
    if key in data then data[key] else []
  }

  datatype Op = Add(snap: Snapshot, now: Time) | Prune(now: Time)

  /** Prune drops a workload whose newest sample is older than the window. */
  predicate Stale(series: seq<Snapshot>, cutoff: Time) {
    series == [] || Last(series).timestamp < cutoff
  }

  function Step(data: Data, op: Op, r: Retention): Data {
    match op
    case Add(snap, now) =>
      data[snap.Key() := Trim(SeriesOf(data, snap.Key()) + [snap], now - r.maxAge, r.maxPerWorkload)]
    case Prune(now) =>
      map k | k in data && !Stale(data[k], now - r.maxAge) :: data[k]
  }

  function Replay(ops: seq<Op>, r: Retention): Data {
    if ops == [] then map[] else Step(Replay(ops[..|ops| - 1], r), Last(ops), r)
  }

  // ── The unbounded log ────────

  /** Every sample ever added for a key. */
  function Log(ops: seq<Op>, key: string): seq<Snapshot> {
    if ops == [] then []
    else
      var before := Log(ops[..|ops| - 1], key);
      if Last(ops).Add? && Last(ops).snap.Key() == key then before + [Last(ops).snap] else before
  }

  /** The clock reading of the last Add for a key, if any. */
  function LastAdd(ops: seq<Op>, key: string): Option<Time> {
    if ops == [] then None
    else if Last(ops).Add? && Last(ops).snap.Key() == key then Some(Last(ops).now)
    else LastAdd(ops[..|ops| - 1], key)
  }

  /** Timestamps never decrease. */
  predicate InOrder(log: seq<Snapshot>) {
    |log| < 2 || (InOrder(log[..|log| - 1]) && log[|log| - 2].timestamp <= Last(log).timestamp)
  }

  /** Samples of a key arrive in time order and the clock does not run backwards. */
  ghost predicate Orderly(ops: seq<Op>, key: string) {
    && InOrder(Log(ops, key))
    && forall i, j :: 0 <= i <= j < |ops| ==> ops[i].now <= ops[j].now
  }

  /** The samples at or after the cutoff, in order. */
  function Inside(log: seq<Snapshot>, cutoff: Time): seq<Snapshot> {
    Keep(log, (s: Snapshot) => s.timestamp >= cutoff)
  }

  /** What a doubly bounded window keeps of a log. */
  function Retained(log: seq<Snapshot>, cutoff: Time, max: nat): seq<Snapshot> {
    LastN(Inside(log, cutoff), max)
  }

  // ── Trimming step by step is windowing the log ────────

  lemma InsideSnoc(log: seq<Snapshot>, x: Snapshot, cutoff: Time)
    ensures Inside(log + [x], cutoff) ==
            if x.timestamp >= cutoff then Inside(log, cutoff) + [x] else Inside(log, cutoff)
  {
    assert (log + [x])[..|log|] == log;
  }

  lemma InOrderSnoc(log: seq<Snapshot>, x: Snapshot)
    ensures InOrder(log + [x]) <==> InOrder(log) && (log != [] ==> Last(log).timestamp <= x.timestamp)
  {
    assert (log + [x])[..|log|] == log;
  }

  lemma Snoc(log: seq<Snapshot>)
    requires log != []
    ensures log == log[..|log| - 1] + [Last(log)]
  {
  }

  lemma {:induction false} NothingInside(log: seq<Snapshot>, cutoff: Time)
    requires InOrder(log) && log != [] && Last(log).timestamp < cutoff
    ensures Inside(log, cutoff) == []
  {
    var before := log[..|log| - 1];
    if before != [] {
      assert Last(before) == log[|log| - 2];
      NothingInside(before, cutoff);
    }
    Snoc(log);
    InsideSnoc(before, Last(log), cutoff);
  }

  /** Of an ordered log, what is inside the window is a suffix. */
  lemma {:induction false} InsideIsSuffix(log: seq<Snapshot>, cutoff: Time)
    requires InOrder(log)
    ensures |Inside(log, cutoff)| <= |log|
    ensures Inside(log, cutoff) == log[|log| - |Inside(log, cutoff)|..]
    ensures log != [] && Last(log).timestamp < cutoff ==> Inside(log, cutoff) == []
  {
    if log != [] {
      if Last(log).timestamp < cutoff {
        NothingInside(log, cutoff);
      } else {
        InsideIsSuffix(log[..|log| - 1], cutoff);
        SuffixSnoc(log, |log| - 1 - |Inside(log[..|log| - 1], cutoff)|);
      }
    }
  }

  lemma SuffixSnoc(log: seq<Snapshot>, k: nat)
    requires k < |log|
    ensures log[k..] == log[..|log| - 1][k..] + [Last(log)]
  {
  }

  lemma {:induction false} AfterExpiredSnoc(series: seq<Snapshot>, x: Snapshot, cutoff: Time)
    ensures AfterExpired(series + [x], cutoff) ==
            if AfterExpired(series, cutoff) == [] && x.timestamp < cutoff then []
            else AfterExpired(series, cutoff) + [x]
  {
    if series == [] || series[0].timestamp >= cutoff {
      assert series == [] ==> series + [x] == [x];
    } else {
      assert (series + [x])[1..] == series[1..] + [x];
      AfterExpiredSnoc(series[1..], x, cutoff);
    }
  }

  lemma {:induction false} AfterExpiredIsInside(series: seq<Snapshot>, cutoff: Time)
    requires InOrder(series)
    ensures AfterExpired(series, cutoff) == Inside(series, cutoff)
  {
    if series != [] {
      var before, x := series[..|series| - 1], Last(series);
      AfterExpiredIsInside(before, cutoff);
      AfterExpiredSnoc(before, x, cutoff);
      Snoc(series);
      InsideIsSuffix(series, cutoff);
    }
  }

  lemma LastNSnoc(xs: seq<Snapshot>, x: Snapshot, n: nat)
    requires n > 0
    ensures LastN(xs + [x], n) == LastN(xs, n - 1) + [x]
  {
  }

  lemma LastNNested(xs: seq<Snapshot>, m: nat, n: nat)
    requires n <= m
    ensures LastN(LastN(xs, m), n) == LastN(xs, n)
  {
  }

  lemma {:induction false} InOrderLastN(log: seq<Snapshot>, n: nat)
    requires InOrder(log)
    ensures InOrder(LastN(log, n))
  {
    if log != [] && n > 0 {
      var before, x := log[..|log| - 1], Last(log);
      InOrderLastN(before, n - 1);
      Snoc(log);
      LastNSnoc(before, x, n);
      InOrderSnoc(LastN(before, n - 1), x);
    }
  }

  lemma {:induction false} InsideTwice(log: seq<Snapshot>, c1: Time, c2: Time)
    requires c1 <= c2
    ensures Inside(Inside(log, c1), c2) == Inside(log, c2)
  {
    if log != [] {
      InsideTwice(log[..|log| - 1], c1, c2);
      InsideSnoc(Inside(log[..|log| - 1], c1), Last(log), c2);
    }
  }

  /** Bounding by count first loses nothing that bounding by age first would keep. */
  lemma {:induction false} InsideLastN(log: seq<Snapshot>, cutoff: Time, n: nat)
    requires InOrder(log)
    ensures Inside(LastN(log, n), cutoff) == LastN(Inside(log, cutoff), n)
  {
    if log != [] && n > 0 {
      if Last(log).timestamp < cutoff {
        LastNOutside(log, cutoff, n);
      } else {
        InsideLastN(log[..|log| - 1], cutoff, n - 1);
        LastNInside(log, cutoff, n);
      }
    }
  }

  /** A log whose newest sample is outside has nothing inside, however it is bounded. */
  lemma LastNOutside(log: seq<Snapshot>, cutoff: Time, n: nat)
    requires InOrder(log) && log != [] && n > 0 && Last(log).timestamp < cutoff
    ensures Inside(LastN(log, n), cutoff) == [] == Inside(log, cutoff)
  {
    NothingInside(log, cutoff);
    InOrderLastN(log, n);
    NothingInside(LastN(log, n), cutoff);
  }

  /** A newest sample inside is the last of both. */
  lemma LastNInside(log: seq<Snapshot>, cutoff: Time, n: nat)
    requires log != [] && n > 0 && Last(log).timestamp >= cutoff
    requires Inside(LastN(log[..|log| - 1], n - 1), cutoff) == LastN(Inside(log[..|log| - 1], cutoff), n - 1)
    ensures Inside(LastN(log, n), cutoff) == LastN(Inside(log, cutoff), n)
  {
    var before, x := log[..|log| - 1], Last(log);
    Snoc(log);
    LastNSnoc(before, x, n);
    InsideSnoc(before, x, cutoff);
    InsideSnoc(LastN(before, n - 1), x, cutoff);
    LastNSnoc(Inside(before, cutoff), x, n);
  }

  lemma InOrderInside(log: seq<Snapshot>, cutoff: Time)
    requires InOrder(log)
    ensures InOrder(Inside(log, cutoff))
  {
    InsideIsSuffix(log, cutoff);
    InOrderLastN(log, |Inside(log, cutoff)|);
  }

  lemma InOrderRetained(log: seq<Snapshot>, snap: Snapshot, cutoff: Time, max: nat)
    requires InOrder(log + [snap])
    ensures InOrder(Retained(log, cutoff, max) + [snap])
  {
    InOrderSnoc(log, snap);
    InsideIsSuffix(log, cutoff);
    InOrderInside(log, cutoff);
    InOrderLastN(Inside(log, cutoff), max);
    InOrderSnoc(Retained(log, cutoff, max), snap);
  }

  /** Adding to a window retained at an earlier cutoff. */
  lemma AddToWindow(log: seq<Snapshot>, snap: Snapshot, c1: Time, c2: Time, max: nat)
    requires InOrder(log + [snap]) && c1 <= c2 && max > 0
    ensures Trim(Retained(log, c1, max) + [snap], c2, max) == Retained(log + [snap], c2, max)
  {
    var kept, all := Retained(log, c1, max), Inside(log, c2);
    InOrderRetained(log, snap, c1, max);
    AfterExpiredIsInside(kept + [snap], c2);
    InsideSnoc(kept, snap, c2);
    InOrderSnoc(log, snap);
    InOrderInside(log, c1);
    InsideLastN(Inside(log, c1), c2, max);
    InsideTwice(log, c1, c2);
    InsideSnoc(log, snap, c2);
    LastNSnoc(LastN(all, max), snap, max);
    LastNSnoc(all, snap, max);
    LastNNested(all, max, max - 1);
    LastNNested(all, max, max);
  }

  /** After a prune everything logged has expired, so nothing is what the window keeps. */
  lemma NothingRetained(log: seq<Snapshot>, cutoff: Time, max: nat)
    requires InOrder(log)
    requires log != [] ==> Last(log).timestamp < cutoff
    ensures Retained(log, cutoff, max) == []
  {
    InsideIsSuffix(log, cutoff);
  }

  // ── One key at a time ────────

  function KeyStep(series: Option<seq<Snapshot>>, op: Op, key: string, r: Retention): Option<seq<Snapshot>> {
    match op
    case Add(snap, now) =>
      if snap.Key() != key then series
      else
        var before := if series.Some? then series.value else [];
        Some(Trim(before + [snap], now - r.maxAge, r.maxPerWorkload))
    case Prune(now) =>
      if series.Some? && Stale(series.value, now - r.maxAge) then None else series
  }

  function SeriesAfter(ops: seq<Op>, key: string, r: Retention): Option<seq<Snapshot>> {
    if ops == [] then None else KeyStep(SeriesAfter(ops[..|ops| - 1], key, r), Last(ops), key, r)
  }

  /** Workloads never interfere: a key's data is the fold of its own operations. */
  lemma {:induction false} ReplayKey(ops: seq<Op>, key: string, r: Retention)
    ensures SeriesAfter(ops, key, r) ==
            if key in Replay(ops, r) then Some(Replay(ops, r)[key]) else None
  {
    if ops != [] {
      ReplayKey(ops[..|ops| - 1], key, r);
    }
  }

  /** Some Prune found a newest sample of this age outside the window. */
  predicate Expelled(ops: seq<Op>, newest: Time, r: Retention) {
    ops != [] &&
    ((Last(ops).Prune? && newest < Last(ops).now - r.maxAge) || Expelled(ops[..|ops| - 1], newest, r))
  }

  /** What a key's data looks like: the window of its log at the cutoff of its last Add,
      unless it has been pruned since (or it was never added). */
  predicate Matches(series: Option<seq<Snapshot>>, log: seq<Snapshot>, added: Option<Time>, r: Retention) {
    match added
    case None => series == None && log == []
    case Some(at) =>
      && log != []
      && (series.Some? ==> series.value == Retained(log, at - r.maxAge, r.maxPerWorkload))
  }

  ghost predicate Agrees(ops: seq<Op>, key: string, r: Retention) {
    var series, log := SeriesAfter(ops, key, r), Log(ops, key);
    && Matches(series, log, LastAdd(ops, key), r)
    && (series == None && log != [] ==> Expelled(ops, Last(log).timestamp, r))
  }

  ghost predicate ClockBefore(ops: seq<Op>, now: Time) {
    forall i :: 0 <= i < |ops| ==> ops[i].now <= now
  }

  lemma {:induction false} LastAddBefore(ops: seq<Op>, key: string, now: Time)
    requires ClockBefore(ops, now)
    ensures LastAdd(ops, key).Some? ==> LastAdd(ops, key).value <= now
  {
    if ops != [] {
      assert ClockBefore(ops[..|ops| - 1], now);
      LastAddBefore(ops[..|ops| - 1], key, now);
    }
  }

  /** Once expelled, a sample stays outside the window. */
  lemma {:induction false} ExpelledForGood(ops: seq<Op>, newest: Time, r: Retention, now: Time)
    requires Expelled(ops, newest, r) && ClockBefore(ops, now)
    ensures newest < now - r.maxAge
  {
    if !(Last(ops).Prune? && newest < Last(ops).now - r.maxAge) {
      assert ClockBefore(ops[..|ops| - 1], now);
      ExpelledForGood(ops[..|ops| - 1], newest, r, now);
    }
  }

  /** The retained window never drops the newest sample without dropping everything. */
  lemma WindowLast(log: seq<Snapshot>, cutoff: Time, max: nat)
    requires InOrder(log) && log != [] && max > 0
    ensures var w := Retained(log, cutoff, max);
            if w == [] then Last(log).timestamp < cutoff else Last(w) == Last(log)
  {
    InsideIsSuffix(log, cutoff);
  }

  lemma OrderlyPrefix(ops: seq<Op>, key: string)
    requires ops != [] && Orderly(ops, key)
    ensures Orderly(ops[..|ops| - 1], key) && ClockBefore(ops[..|ops| - 1], Last(ops).now)
  {
    var before := Log(ops[..|ops| - 1], key);
    if Log(ops, key) != before {
      InOrderSnoc(before, Last(ops).snap);
    }
  }

  lemma MatchesAfterAdd(series: Option<seq<Snapshot>>, log: seq<Snapshot>, added: Option<Time>, snap: Snapshot,
                        now: Time, r: Retention)
    requires ValidRetention(r) && Matches(series, log, added, r) && InOrder(log + [snap])
    requires added.Some? ==> added.value <= now
    requires series == None && log != [] ==> Last(log).timestamp < now - r.maxAge
    ensures var before := if series.Some? then series.value else [];
            Trim(before + [snap], now - r.maxAge, r.maxPerWorkload) ==
              Retained(log + [snap], now - r.maxAge, r.maxPerWorkload)
  {
    var c2 := now - r.maxAge;
    var c1 := if series.Some? then added.value - r.maxAge else c2;
    if series == None {
      InOrderSnoc(log, snap);
      NothingRetained(log, c2, r.maxPerWorkload);
    }
    AddToWindow(log, snap, c1, c2, r.maxPerWorkload);
  }

  lemma ExpelledByPrune(series: Option<seq<Snapshot>>, log: seq<Snapshot>, added: Option<Time>, now: Time,
                        key: string, r: Retention)
    requires ValidRetention(r) && Matches(series, log, added, r) && InOrder(log)
    requires added.Some? ==> added.value <= now
    requires series.Some? && KeyStep(series, Prune(now), key, r) == None
    ensures Last(log).timestamp < now - r.maxAge
  {
    WindowLast(log, added.value - r.maxAge, r.maxPerWorkload);
  }

  lemma AgreesStep(ops: seq<Op>, key: string, r: Retention)
    requires ValidRetention(r) && ops != [] && ClockBefore(ops[..|ops| - 1], Last(ops).now)
    requires InOrder(Log(ops, key)) && InOrder(Log(ops[..|ops| - 1], key))
    requires Agrees(ops[..|ops| - 1], key, r)
    ensures Agrees(ops, key, r)
  {
    var before, now := ops[..|ops| - 1], Last(ops).now;
    var series, log, added := SeriesAfter(before, key, r), Log(before, key), LastAdd(before, key);
    LastAddBefore(before, key, now);
    if Last(ops).Add? && Last(ops).snap.Key() == key {
      if series == None && log != [] {
        ExpelledForGood(before, Last(log).timestamp, r, now);
      }
      MatchesAfterAdd(series, log, added, Last(ops).snap, now, r);
    } else if series.Some? && SeriesAfter(ops, key, r) == None {
      ExpelledByPrune(series, log, added, now, key, r);
    }
  }

  lemma {:induction false} StoreAgrees(ops: seq<Op>, key: string, r: Retention)
    requires ValidRetention(r) && Orderly(ops, key)
    ensures Agrees(ops, key, r)
  {
    if ops != [] {
      OrderlyPrefix(ops, key);
      StoreAgrees(ops[..|ops| - 1], key, r);
      AgreesStep(ops, key, r);
    }
  }

  // ── Main results ────────

  /** After an orderly history a workload's series, while it has one, is exactly the
      last maxPerWorkload (or fewer) of all its samples ever added that are not older
      than its last Add's cutoff; it has none only if it was never added or a Prune has
      found its newest sample outside the window; and in that case it is empty. */
  lemma RetainedWindow(ops: seq<Op>, key: string, r: Retention)
    requires ValidRetention(r) && Orderly(ops, key)
    ensures var data, log, added := Replay(ops, r), Log(ops, key), LastAdd(ops, key);
            if key in data
            then added.Some? && data[key] == LastN(Inside(log, added.value - r.maxAge), r.maxPerWorkload)
            else log == [] || Expelled(ops, Last(log).timestamp, r)
    ensures var log := Log(ops, key);
            log != [] && Expelled(ops, Last(log).timestamp, r) ==> SeriesOf(Replay(ops, r), key) == []
  {
    if Log(ops, key) != [] && Expelled(ops, Last(Log(ops, key)).timestamp, r) {
      ExpelledIsEmpty(ops, key, r, Last(Log(ops, key)).timestamp);
    }
    StoreAgrees(ops, key, r);
    ReplayKey(ops, key, r);
  }

  /** Outside the window at a cutoff, and nothing newer. */
  lemma {:induction false} ExpelledIsEmpty(ops: seq<Op>, key: string, r: Retention, newest: Time)
    requires ValidRetention(r) && Orderly(ops, key) && Expelled(ops, newest, r)
    requires Log(ops, key) != [] ==> Last(Log(ops, key)).timestamp <= newest
    ensures SeriesAfter(ops, key, r) == None || SeriesAfter(ops, key, r) == Some([])
  {
    var before, now := ops[..|ops| - 1], Last(ops).now;
    OrderlyPrefix(ops, key);
    if Last(ops).Add? && Last(ops).snap.Key() == key {
      ExpelledForGood(before, newest, r, now);
      StoreAgrees(ops, key, r);
      NothingRetained(Log(ops, key), now - r.maxAge, r.maxPerWorkload);
    } else if Last(ops).Prune? && newest < now - r.maxAge {
      StoreAgrees(before, key, r);
      LastAddBefore(before, key, now);
      PrunedWhenOld(SeriesAfter(before, key, r), Log(before, key), LastAdd(before, key), now, key, r);
    } else {
      ExpelledIsEmpty(before, key, r, newest);
    }
  }

  lemma PrunedWhenOld(series: Option<seq<Snapshot>>, log: seq<Snapshot>, added: Option<Time>, now: Time, key: string,
                      r: Retention)
    requires ValidRetention(r) && Matches(series, log, added, r) && InOrder(log)
    requires log != [] ==> Last(log).timestamp < now - r.maxAge
    ensures KeyStep(series, Prune(now), key, r) == None
  {
    if series.Some? {
      WindowLast(log, added.value - r.maxAge, r.maxPerWorkload);
    }
  }

  lemma {:induction false} ExpelledLater(ops: seq<Op>, more: seq<Op>, newest: Time, r: Retention)
    requires Expelled(ops, newest, r)
    ensures Expelled(ops + more, newest, r)
  {
    if more == [] {
      assert ops + more == ops;
    } else {
      assert (ops + more)[..|ops + more| - 1] == ops + more[..|more| - 1];
      ExpelledLater(ops, more[..|more| - 1], newest, r);
    }
  }

  /** Once a Prune has found a workload's newest sample outside the window its series is
      empty, and stays so whatever else happens until a fresher sample arrives. */
  lemma EmptyOncePruned(ops: seq<Op>, more: seq<Op>, key: string, r: Retention)
    requires ValidRetention(r) && Orderly(ops + more, key)
    requires Log(ops, key) != [] && Expelled(ops, Last(Log(ops, key)).timestamp, r)
    requires Log(ops + more, key) != [] && Last(Log(ops + more, key)).timestamp <= Last(Log(ops, key)).timestamp
    ensures SeriesOf(Replay(ops + more, r), key) == []
  {
    var newest := Last(Log(ops, key)).timestamp;
    ExpelledLater(ops, more, newest, r);
    ExpelledIsEmpty(ops + more, key, r, newest);
    ReplayKey(ops + more, key, r);
  }

  lemma {:induction false} InOrderIsSorted(log: seq<Snapshot>)
    requires InOrder(log)
    ensures Sorted(log)
  {
    if |log| >= 2 {
      var before := log[..|log| - 1];
      InOrderIsSorted(before);
      assert Last(before) == log[|log| - 2];
      assert forall i :: 0 <= i < |before| ==> log[i] == before[i];
    }
  }

  lemma RetainedSuffix(log: seq<Snapshot>, cutoff: Time, max: nat) returns (k: nat)
    requires InOrder(log) && Retained(log, cutoff, max) != []
    ensures k < |log| && Retained(log, cutoff, max) == log[k..]
  {
    InsideIsSuffix(log, cutoff);
    k := |log| - |Retained(log, cutoff, max)|;
  }

  /** A rule sustained over the retained series is sustained over the whole log, and
      the other way round, as long as the series still holds a sample strictly older
      than the sustain cutoff (or nothing has been dropped yet). */
  lemma SustainedAgrees(ops: seq<Op>, key: string, r: Retention, d: Duration, pred: Snapshot -> bool)
    requires ValidRetention(r) && Orderly(ops, key)
    requires key in Replay(ops, r) && Replay(ops, r)[key] != []
    requires var series := Replay(ops, r)[key];
             d > 0 && |series| < |Log(ops, key)| ==> series[0].timestamp < Cutoff(series, d)
    ensures var series, log := Replay(ops, r)[key], Log(ops, key);
            && log != [] && Last(series) == Last(log)
            && (Sustained(Last(series), series, d, pred) <==> Sustained(Last(log), log, d, pred))
  {
    var log := Log(ops, key);
    RetainedWindow(ops, key, r);
    var k := RetainedSuffix(log, LastAdd(ops, key).value - r.maxAge, r.maxPerWorkload);
    InOrderIsSorted(log);
    LastOfSuffix(log, k);
    assert |log[k..]| == |log| - k;
    assert k > 0 && d > 0 ==> log[k] == log[k..][0];
    SustainedOnRetained(log, k, d, Last(log), pred);
  }
}
