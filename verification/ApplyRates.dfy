/** applyRates (internal/collector/collector.go): a target's raw counters become rates and
    ratios on its snapshot. */
module ApplyRates {
  import opened Basics
  import opened Telemetry
  import opened Rates

  datatype Counter =
    | GenerationTokens | PromptTokens | Preemptions
    | RequestsFinished | RequestsFailed | RequestsAborted
    | PrefixCacheQueries | PrefixCacheHits
  {
    function Name(): string {
      match this
      case GenerationTokens => "generation_tokens"
      case PromptTokens => "prompt_tokens"
      case Preemptions => "preemptions"
      case RequestsFinished => "requests_finished"
      case RequestsFailed => "requests_failed"
      case RequestsAborted => "requests_aborted"
      case PrefixCacheQueries => "prefix_cache_queries"
      case PrefixCacheHits => "prefix_cache_hits"
    }
  }

  function TrackerKey(target: string, c: Counter): string {
    target + ("|" + c.Name())
  }

  lemma NamesDistinct(c: Counter, d: Counter)
    requires c.Name() == d.Name()
    ensures c == d
  {
  }

  lemma NoBar(c: Counter)
    ensures forall i :: 0 <= i < |c.Name()| ==> c.Name()[i] != '|'
  {
  }

  /** Counter names hold no bar, so the last bar ends the target and no two counters of
      any two targets share a tracker entry. */
  lemma TrackerKeyInjective(target: string, c: Counter, target2: string, d: Counter)
    requires TrackerKey(target, c) == TrackerKey(target2, d)
    ensures target == target2 && c == d
  {
    NoBar(c);
    NoBar(d);
    SplitAtLastBar(target, c.Name(), target2, d.Name());
    NamesDistinct(c, d);
  }

  lemma SplitAtLastBar(a: string, m: string, b: string, n: string)
    requires forall i :: 0 <= i < |m| ==> m[i] != '|'
    requires forall i :: 0 <= i < |n| ==> n[i] != '|'
    requires a + ("|" + m) == b + ("|" + n)
    ensures a == b && m == n
  {
    var whole := a + ("|" + m);
    assert whole[|a|] == '|' && whole[|b|] == '|';
    assert forall i :: |a| < i < |whole| ==> whole[i] == m[i - |a| - 1];
    assert forall i :: |b| < i < |whole| ==> whole[i] == n[i - |b| - 1];
    assert a == whole[..|a|] && b == whole[..|b|];
    assert m == whole[|a| + 1..] && n == whole[|b| + 1..];
  }

  // ── What becomes of the snapshot ────────

  /** The rate of each counter over the last interval, if it has one. */
  type RateOf = Counter -> Option<real>

  function OrKeep(rate: Option<real>, was: Metric): Metric {
    if rate.Some? then Metric(rate.value, true) else was
  }

  /** part as a percentage of whole, when there is a whole. */
  function Percent(part: Option<real>, whole: Option<real>, was: Metric): Metric {
    if part.Some? && whole.Some? && whole.value > 0.0
    then Metric(part.value / whole.value * 100.0, true) else was
  }

  function Sum(a: Option<real>, b: Option<real>): Option<real> {
    if a.Some? && b.Some? then Some(a.value + b.value) else None
  }

  function Applied(snap: Snapshot, rate: RateOf): Snapshot {
    var finished := rate(RequestsFinished);
    snap.(
      tokensPerSecond := OrKeep(rate(GenerationTokens), snap.tokensPerSecond),
      promptTokensPerSec := OrKeep(rate(PromptTokens), snap.promptTokensPerSec),
      preemptionsPerSec := OrKeep(rate(Preemptions), snap.preemptionsPerSec),
      requestRatePerSec := OrKeep(finished, snap.requestRatePerSec),
      errorRatePct := Percent(rate(RequestsFailed), Sum(finished, rate(RequestsFailed)), snap.errorRatePct),
      abortRatePct := Percent(rate(RequestsAborted), finished, snap.abortRatePct),
      prefixCacheHitRatePct := Percent(rate(PrefixCacheHits), rate(PrefixCacheQueries), snap.prefixCacheHitRatePct))
  }

  type Counters = map<Counter, real>

  /** The rate the tracker reports for a counter in this scrape. */
  function RateIn(entries: Entries, target: string, counters: Counters, now: Time): RateOf {
    (c: Counter) =>
      if c in counters then RateBetween(Lookup(entries, TrackerKey(target, c)), Entry(counters[c], now)) else None
  }

  /** What the tracker remembers once some counters of a scrape have gone through it. */
  function Recorded(entries: Entries, target: string, counters: Counters, now: Time, done: seq<Counter>): Entries {
    if done == [] then entries
    else
      var before, c := Recorded(entries, target, counters, now, done[..|done| - 1]), Last(done);
      if c in counters then before[TrackerKey(target, c) := Entry(counters[c], now)] else before
  }

  const ORDER := [
    GenerationTokens, PromptTokens, Preemptions, RequestsFinished,
    RequestsFailed, RequestsAborted, PrefixCacheQueries, PrefixCacheHits]

  /** Recording other counters leaves a counter's own entry alone. */
  lemma {:induction false} OthersUntouched(entries: Entries, target: string, counters: Counters, now: Time,
                                           done: seq<Counter>, key: string)
    requires forall i :: 0 <= i < |done| ==> TrackerKey(target, done[i]) != key
    ensures Lookup(Recorded(entries, target, counters, now, done), key) == Lookup(entries, key)
  {
    if done != [] {
      OthersUntouched(entries, target, counters, now, done[..|done| - 1], key);
    }
  }

  lemma CountersApart(entries: Entries, target: string, counters: Counters, now: Time, done: seq<Counter>, c: Counter)
    requires c !in done
    ensures Lookup(Recorded(entries, target, counters, now, done), TrackerKey(target, c)) ==
            Lookup(entries, TrackerKey(target, c))
  {
    forall i | 0 <= i < |done| ensures TrackerKey(target, done[i]) != TrackerKey(target, c) {
      if TrackerKey(target, done[i]) == TrackerKey(target, c) {
        TrackerKeyInjective(target, done[i], target, c);
      }
    }
    OthersUntouched(entries, target, counters, now, done, TrackerKey(target, c));
  }

  /** Reads one counter through the tracker, if the scrape exposed it. */
  method RateOne(tracker: RateTracker, target: string, counters: Counters, now: Time, ghost before: Entries,
                 ghost done: seq<Counter>, c: Counter)
    returns (rate: Option<real>)
    requires tracker.Valid() && c !in done && tracker.entries == Recorded(before, target, counters, now, done)
    modifies tracker
    ensures tracker.Valid() && rate == RateIn(before, target, counters, now)(c)
    ensures tracker.entries == Recorded(before, target, counters, now, done + [c])
  {
    CountersApart(before, target, counters, now, done, c);
    assert (done + [c])[..|done|] == done;
    rate := None;
    if c in counters {
      rate := tracker.Rate(TrackerKey(target, c), counters[c], now);
    }
  }

  /** Puts every counter through the tracker, in turn. */
  method ReadAll(tracker: RateTracker, target: string, counters: Counters, now: Time)
    returns (rates: map<Counter, Option<real>>)
    requires tracker.Valid()
    modifies tracker
    ensures tracker.Valid()
    ensures forall c: Counter :: c in rates && rates[c] == RateIn(old(tracker.entries), target, counters, now)(c)
    ensures tracker.entries == Recorded(old(tracker.entries), target, counters, now, ORDER)
  {
    ghost var before := tracker.entries;
    rates := map[];
    for i := 0 to |ORDER|
      invariant tracker.Valid() && tracker.entries == Recorded(before, target, counters, now, ORDER[..i])
      invariant forall c :: c in rates <==> c in ORDER[..i]
      invariant forall c :: c in rates ==> rates[c] == RateIn(before, target, counters, now)(c)
    {
      assert ORDER[..i + 1] == ORDER[..i] + [ORDER[i]];
      assert ORDER[i] !in ORDER[..i];
      var rate := RateOne(tracker, target, counters, now, before, ORDER[..i], ORDER[i]);
      rates := rates[ORDER[i] := rate];
    }
    assert ORDER[..|ORDER|] == ORDER;
    EveryCounterRead();
  }

  lemma EveryCounterRead()
    ensures forall c: Counter :: c in ORDER
  {
    forall c: Counter ensures c in ORDER {
      match c
      case GenerationTokens => assert ORDER[0] == c;
      case PromptTokens => assert ORDER[1] == c;
      case Preemptions => assert ORDER[2] == c;
      case RequestsFinished => assert ORDER[3] == c;
      case RequestsFailed => assert ORDER[4] == c;
      case RequestsAborted => assert ORDER[5] == c;
      case PrefixCacheQueries => assert ORDER[6] == c;
      case PrefixCacheHits => assert ORDER[7] == c;
    }
  }

  // ── Which reading becomes which field ────────

  function ReadingOf(counters: Counters, c: Counter): Option<real> {
    if c in counters then Some(counters[c]) else None
  }

  /** The counter was read before under this key, earlier, and has not gone back since. */
  predicate HasBaseline(entries: Entries, key: string, reading: Option<real>, now: Time) {
    reading.Some? && key in entries && now > entries[key].at && reading.value >= entries[key].value
  }

  /** The field is newly measured exactly when there is such a baseline, and then, times the
      elapsed nanoseconds, it is the counter's increase times a thousand million; it keeps
      its value otherwise. */
  predicate FieldReads(m: Metric, was: Metric, entries: Entries, key: string, reading: Option<real>, now: Time) {
    if HasBaseline(entries, key, reading, now)
    then m.ok && m.value * (now - entries[key].at) as real == (reading.value - entries[key].value) * 1000000000.0
    else m == was
  }

  /** The percentage one counter's rate is of another's, or of the sum with another's,
      measured when the rates are there and the whole is positive. */
  predicate FieldShares(m: Metric, was: Metric, part: Metric, whole: Metric) {
    if part.ok && whole.ok && whole.value > 0.0 then m.ok && m.value * whole.value == 100.0 * part.value else m == was
  }

  /** A counter's rate, unmeasured without a baseline. */
  ghost function RateRead(entries: Entries, key: string, reading: Option<real>, now: Time): (m: Metric)
    ensures FieldReads(m, UNMEASURED, entries, key, reading, now)
  {
    if HasBaseline(entries, key, reading, now) then
      var elapsed, increase := (now - entries[key].at) as real, (reading.value - entries[key].value) * 1000000000.0;
      assert increase / elapsed * elapsed == increase;
      Metric(increase / elapsed, true)
    else UNMEASURED
  }

  predicate RatesRead(out: Snapshot, snap: Snapshot, entries: Entries, target: string, counters: Counters, now: Time) {
    && FieldReads(out.tokensPerSecond, snap.tokensPerSecond, entries, target + "|generation_tokens",
                  ReadingOf(counters, GenerationTokens), now)
    && FieldReads(out.promptTokensPerSec, snap.promptTokensPerSec, entries, target + "|prompt_tokens",
                  ReadingOf(counters, PromptTokens), now)
    && FieldReads(out.preemptionsPerSec, snap.preemptionsPerSec, entries, target + "|preemptions",
                  ReadingOf(counters, Preemptions), now)
    && FieldReads(out.requestRatePerSec, snap.requestRatePerSec, entries, target + "|requests_finished",
                  ReadingOf(counters, RequestsFinished), now)
  }

  ghost predicate SharesRead(out: Snapshot, snap: Snapshot, entries: Entries, target: string, counters: Counters,
                             now: Time)
  {
    var finished := RateRead(entries, target + "|requests_finished", ReadingOf(counters, RequestsFinished), now);
    var failed := RateRead(entries, target + "|requests_failed", ReadingOf(counters, RequestsFailed), now);
    var aborted := RateRead(entries, target + "|requests_aborted", ReadingOf(counters, RequestsAborted), now);
    var queries := RateRead(entries, target + "|prefix_cache_queries", ReadingOf(counters, PrefixCacheQueries), now);
    var hits := RateRead(entries, target + "|prefix_cache_hits", ReadingOf(counters, PrefixCacheHits), now);
    && FieldShares(out.errorRatePct, snap.errorRatePct, failed,
                   Metric(finished.value + failed.value, finished.ok && failed.ok))
    && FieldShares(out.abortRatePct, snap.abortRatePct, aborted, finished)
    && FieldShares(out.prefixCacheHitRatePct, snap.prefixCacheHitRatePct, hits, queries)
  }

  /** The seven fields, each from its own counters' entries and readings, and nothing else. */
  ghost predicate FieldsRead(out: Snapshot, snap: Snapshot, entries: Entries, target: string, counters: Counters,
                             now: Time)
  {
    && RatesRead(out, snap, entries, target, counters, now)
    && SharesRead(out, snap, entries, target, counters, now)
    && out == snap.(
         tokensPerSecond := out.tokensPerSecond, promptTokensPerSec := out.promptTokensPerSec,
         preemptionsPerSec := out.preemptionsPerSec, requestRatePerSec := out.requestRatePerSec,
         errorRatePct := out.errorRatePct, abortRatePct := out.abortRatePct,
         prefixCacheHitRatePct := out.prefixCacheHitRatePct)
  }

  /** The tracker's rate is what the field should read. */
  lemma RateIsRead(entries: Entries, target: string, counters: Counters, now: Time, c: Counter)
    ensures var m := RateRead(entries, TrackerKey(target, c), ReadingOf(counters, c), now);
            RateIn(entries, target, counters, now)(c) == if m.ok then Some(m.value) else None
  {
    var key := TrackerKey(target, c);
    if c in counters && key in entries {
      var prev, next := entries[key], Entry(counters[c], now);
      RateExactly(Some(prev), next);
      if RateBetween(Some(prev), next).Some? {
        var m := RateRead(entries, key, ReadingOf(counters, c), now);
        SameRate(RateBetween(Some(prev), next).value, m.value, now - prev.at, next.value - prev.value);
      }
    }
  }

  lemma SameRate(perSecond: real, value: real, elapsed: Duration, increase: real)
    requires elapsed > 0 && perSecond * Seconds(elapsed) == increase
    requires value * elapsed as real == increase * 1000000000.0
    ensures perSecond == value
  {
    var t := elapsed as real;
    assert Seconds(elapsed) * 1000000000.0 == t;
    assert perSecond * t == perSecond * Seconds(elapsed) * 1000000000.0;
    assert (perSecond - value) * t == 0.0;
  }

  lemma PercentShares(part: Metric, whole: Metric, was: Metric)
    ensures FieldShares(Percent(if part.ok then Some(part.value) else None,
                                if whole.ok then Some(whole.value) else None, was),
                        was, part, whole)
  {
    if whole.value > 0.0 {
      assert part.value / whole.value * whole.value == part.value;
      assert part.value / whole.value * 100.0 * whole.value == part.value / whole.value * whole.value * 100.0;
    }
  }

  lemma RateKeysNamed(target: string)
    ensures TrackerKey(target, GenerationTokens) == target + "|generation_tokens"
    ensures TrackerKey(target, PromptTokens) == target + "|prompt_tokens"
    ensures TrackerKey(target, Preemptions) == target + "|preemptions"
    ensures TrackerKey(target, RequestsFinished) == target + "|requests_finished"
  {
    assert "|" + "generation_tokens" == "|generation_tokens";
    assert "|" + "prompt_tokens" == "|prompt_tokens";
    assert "|" + "preemptions" == "|preemptions";
    assert "|" + "requests_finished" == "|requests_finished";
  }

  lemma ShareKeysNamed(target: string)
    ensures TrackerKey(target, RequestsFailed) == target + "|requests_failed"
    ensures TrackerKey(target, RequestsAborted) == target + "|requests_aborted"
    ensures TrackerKey(target, PrefixCacheQueries) == target + "|prefix_cache_queries"
    ensures TrackerKey(target, PrefixCacheHits) == target + "|prefix_cache_hits"
  {
    assert "|" + "requests_failed" == "|requests_failed";
    assert "|" + "requests_aborted" == "|requests_aborted";
    assert "|" + "prefix_cache_queries" == "|prefix_cache_queries";
    assert "|" + "prefix_cache_hits" == "|prefix_cache_hits";
  }

  lemma RateReads(was: Metric, entries: Entries, target: string, counters: Counters, now: Time, c: Counter)
    ensures FieldReads(OrKeep(RateIn(entries, target, counters, now)(c), was), was, entries, TrackerKey(target, c),
                       ReadingOf(counters, c), now)
  {
    RateIsRead(entries, target, counters, now, c);
  }

  lemma RatesAreRead(snap: Snapshot, entries: Entries, target: string, counters: Counters, now: Time)
    ensures RatesRead(Applied(snap, RateIn(entries, target, counters, now)), snap, entries, target, counters, now)
  {
    RateKeysNamed(target);
    RateReads(snap.tokensPerSecond, entries, target, counters, now, GenerationTokens);
    RateReads(snap.promptTokensPerSec, entries, target, counters, now, PromptTokens);
    RateReads(snap.preemptionsPerSec, entries, target, counters, now, Preemptions);
    RateReads(snap.requestRatePerSec, entries, target, counters, now, RequestsFinished);
  }

  lemma SharesAreRead(snap: Snapshot, entries: Entries, target: string, counters: Counters, now: Time)
    ensures SharesRead(Applied(snap, RateIn(entries, target, counters, now)), snap, entries, target, counters, now)
  {
    RateKeysNamed(target);
    ShareKeysNamed(target);
    RateIsRead(entries, target, counters, now, RequestsFinished);
    RateIsRead(entries, target, counters, now, RequestsFailed);
    RateIsRead(entries, target, counters, now, RequestsAborted);
    RateIsRead(entries, target, counters, now, PrefixCacheQueries);
    RateIsRead(entries, target, counters, now, PrefixCacheHits);
    var read := (c: Counter) => RateRead(entries, TrackerKey(target, c), ReadingOf(counters, c), now);
    var finished, failed := read(RequestsFinished), read(RequestsFailed);
    PercentShares(failed, Metric(finished.value + failed.value, finished.ok && failed.ok), snap.errorRatePct);
    PercentShares(read(RequestsAborted), finished, snap.abortRatePct);
    PercentShares(read(PrefixCacheHits), read(PrefixCacheQueries), snap.prefixCacheHitRatePct);
  }

  /** Each field comes from its own counters' readings, under their own names. */
  lemma AppliedReads(snap: Snapshot, entries: Entries, target: string, counters: Counters, now: Time)
    ensures FieldsRead(Applied(snap, RateIn(entries, target, counters, now)), snap, entries, target, counters, now)
  {
    RatesAreRead(snap, entries, target, counters, now);
    SharesAreRead(snap, entries, target, counters, now);
  }

  lemma SameField(m1: Metric, m2: Metric, was: Metric, entries1: Entries, entries2: Entries, key: string,
                  reading: Option<real>, now: Time)
    requires FieldReads(m1, was, entries1, key, reading, now) && FieldReads(m2, was, entries2, key, reading, now)
    requires Lookup(entries1, key) == Lookup(entries2, key)
    ensures m1 == m2
  {
    if HasBaseline(entries1, key, reading, now) {
      var t := (now - entries1[key].at) as real;
      assert (m1.value - m2.value) * t == 0.0;
    }
  }

  predicate SameReadings(entries1: Entries, entries2: Entries, counters1: Counters, counters2: Counters, key: string,
                         c: Counter)
  {
    Lookup(entries1, key) == Lookup(entries2, key) && ReadingOf(counters1, c) == ReadingOf(counters2, c)
  }

  /** A rate does not change when only other counters' readings do. */
  lemma OtherReadingsDoNotShow(out1: Snapshot, out2: Snapshot, snap: Snapshot, entries1: Entries, entries2: Entries,
                               target: string, counters1: Counters, counters2: Counters, now: Time)
    requires RatesRead(out1, snap, entries1, target, counters1, now)
    requires RatesRead(out2, snap, entries2, target, counters2, now)
    ensures SameReadings(entries1, entries2, counters1, counters2, target + "|generation_tokens", GenerationTokens) ==>
              out1.tokensPerSecond == out2.tokensPerSecond
    ensures SameReadings(entries1, entries2, counters1, counters2, target + "|prompt_tokens", PromptTokens) ==>
              out1.promptTokensPerSec == out2.promptTokensPerSec
    ensures SameReadings(entries1, entries2, counters1, counters2, target + "|preemptions", Preemptions) ==>
              out1.preemptionsPerSec == out2.preemptionsPerSec
    ensures SameReadings(entries1, entries2, counters1, counters2, target + "|requests_finished", RequestsFinished) ==>
              out1.requestRatePerSec == out2.requestRatePerSec
  {
    if SameReadings(entries1, entries2, counters1, counters2, target + "|generation_tokens", GenerationTokens) {
      SameField(out1.tokensPerSecond, out2.tokensPerSecond, snap.tokensPerSecond, entries1, entries2,
                target + "|generation_tokens", ReadingOf(counters1, GenerationTokens), now);
    }
    if SameReadings(entries1, entries2, counters1, counters2, target + "|prompt_tokens", PromptTokens) {
      SameField(out1.promptTokensPerSec, out2.promptTokensPerSec, snap.promptTokensPerSec, entries1, entries2,
                target + "|prompt_tokens", ReadingOf(counters1, PromptTokens), now);
    }
    if SameReadings(entries1, entries2, counters1, counters2, target + "|preemptions", Preemptions) {
      SameField(out1.preemptionsPerSec, out2.preemptionsPerSec, snap.preemptionsPerSec, entries1, entries2,
                target + "|preemptions", ReadingOf(counters1, Preemptions), now);
    }
    if SameReadings(entries1, entries2, counters1, counters2, target + "|requests_finished", RequestsFinished) {
      SameField(out1.requestRatePerSec, out2.requestRatePerSec, snap.requestRatePerSec, entries1, entries2,
                target + "|requests_finished", ReadingOf(counters1, RequestsFinished), now);
    }
  }

  /** Afterwards the tracker holds each counter's own reading, and all else it held. */
  lemma RecordedAll(entries: Entries, target: string, counters: Counters, now: Time)
    ensures var after := Recorded(entries, target, counters, now, ORDER);
            && (forall c: Counter :: Lookup(after, TrackerKey(target, c)) ==
                  if c in counters then Some(Entry(counters[c], now)) else Lookup(entries, TrackerKey(target, c)))
            && (forall key :: (forall c: Counter :: key != TrackerKey(target, c)) ==>
                  Lookup(after, key) == Lookup(entries, key))
  {
    EveryCounterRead();
    forall c: Counter
      ensures Lookup(Recorded(entries, target, counters, now, ORDER), TrackerKey(target, c)) ==
              if c in counters then Some(Entry(counters[c], now)) else Lookup(entries, TrackerKey(target, c))
    {
      RecordedEach(entries, target, counters, now, ORDER, c);
    }
    forall key | forall c: Counter :: key != TrackerKey(target, c)
      ensures Lookup(Recorded(entries, target, counters, now, ORDER), key) == Lookup(entries, key)
    {
      OthersUntouched(entries, target, counters, now, ORDER, key);
    }
  }

  method Apply(tracker: RateTracker, snap: Snapshot, target: string, counters: Counters, now: Time)
    returns (out: Snapshot)
    requires tracker.Valid()
    modifies tracker
    ensures tracker.Valid()
    ensures FieldsRead(out, snap, old(tracker.entries), target, counters, now)
    ensures out == Applied(snap, RateIn(old(tracker.entries), target, counters, now))
    ensures tracker.entries == Recorded(old(tracker.entries), target, counters, now, ORDER)
    ensures forall c: Counter :: Lookup(tracker.entries, TrackerKey(target, c)) ==
              if c in counters then Some(Entry(counters[c], now))
              else Lookup(old(tracker.entries), TrackerKey(target, c))
    ensures forall key :: (forall c: Counter :: key != TrackerKey(target, c)) ==>
              Lookup(tracker.entries, key) == Lookup(old(tracker.entries), key)
  {
    AppliedReads(snap, tracker.entries, target, counters, now);
    RecordedAll(tracker.entries, target, counters, now);
    var rates := ReadAll(tracker, target, counters, now);
    out := snap;
    if rates[GenerationTokens].Some? {
      out := out.(tokensPerSecond := Metric(rates[GenerationTokens].value, true));
    }
    if rates[PromptTokens].Some? {
      out := out.(promptTokensPerSec := Metric(rates[PromptTokens].value, true));
    }
    if rates[Preemptions].Some? {
      out := out.(preemptionsPerSec := Metric(rates[Preemptions].value, true));
    }
    var finished := rates[RequestsFinished];
    if finished.Some? {
      out := out.(requestRatePerSec := Metric(finished.value, true));
    }
    out := ApplyRatios(out, finished, rates[RequestsFailed], rates[RequestsAborted],
                       rates[PrefixCacheQueries], rates[PrefixCacheHits]);
  }

  method ApplyRatios(snap: Snapshot, finished: Option<real>, failed: Option<real>, aborted: Option<real>,
                     queries: Option<real>, hits: Option<real>)
    returns (out: Snapshot)
    ensures out == snap.(
      errorRatePct := Percent(failed, Sum(finished, failed), snap.errorRatePct),
      abortRatePct := Percent(aborted, finished, snap.abortRatePct),
      prefixCacheHitRatePct := Percent(hits, queries, snap.prefixCacheHitRatePct))
  {
    out := snap;
    if failed.Some? && finished.Some? {
      var total := finished.value + failed.value;
      if total > 0.0 {
        out := out.(errorRatePct := Metric(failed.value / total * 100.0, true));
      }
    }
    if aborted.Some? && finished.Some? && finished.value > 0.0 {
      out := out.(abortRatePct := Metric(aborted.value / finished.value * 100.0, true));
    }
    if queries.Some? && hits.Some? && queries.value > 0.0 {
      out := out.(prefixCacheHitRatePct := Metric(hits.value / queries.value * 100.0, true));
    }
  }

  // ── What the ratios mean ────────

  lemma ShareOfWhole(part: real, whole: real)
    requires 0.0 <= part && whole > 0.0
    ensures part / whole * 100.0 >= 0.0
    ensures part / whole * 100.0 <= 100.0 <==> part <= whole
  {
    assert part / whole * whole == part;
    if part <= whole {
      assert part / whole <= 1.0;
    }
  }

  lemma NeverNegative(entries: Entries, target: string, counters: Counters, now: Time, c: Counter)
    ensures var rate := RateIn(entries, target, counters, now)(c);
            rate.Some? ==> rate.value >= 0.0
  {
    if c in counters {
      RateExactly(Lookup(entries, TrackerKey(target, c)), Entry(counters[c], now));
    }
  }

  /** Whatever the counters and the tracker hold, an error rate this scrape measures is a
      percentage. */
  lemma ErrorRateIsPercentage(snap: Snapshot, entries: Entries, target: string, counters: Counters, now: Time)
    requires !snap.errorRatePct.ok
    ensures var m := Applied(snap, RateIn(entries, target, counters, now)).errorRatePct;
            m.ok ==> 0.0 <= m.value <= 100.0
  {
    var rate := RateIn(entries, target, counters, now);
    NeverNegative(entries, target, counters, now, RequestsFinished);
    NeverNegative(entries, target, counters, now, RequestsFailed);
    var finished, failed := rate(RequestsFinished), rate(RequestsFailed);
    if finished.Some? && failed.Some? && finished.value + failed.value > 0.0 {
      ShareOfWhole(failed.value, finished.value + failed.value);
    }
  }

  // ── When an abort rate is a percentage ────────

  /** Two rates compared without dividing: increases cross-multiplied with the times they
      took. */
  lemma RatesCompare(f: Entry, f': Entry, a: Entry, a': Entry)
    requires RateBetween(Some(f), f').Some? && RateBetween(Some(a), a').Some?
    ensures RateBetween(Some(a), a').value <= RateBetween(Some(f), f').value <==>
            (a'.value - a.value) * Seconds(f'.at - f.at) <= (f'.value - f.value) * Seconds(a'.at - a.at)
  {
    RateExactly(Some(f), f');
    RateExactly(Some(a), a');
    LaterIsPositive(f'.at - f.at);
    LaterIsPositive(a'.at - a.at);
    CrossMultiply(RateBetween(Some(a), a').value, Seconds(a'.at - a.at),
                  RateBetween(Some(f), f').value, Seconds(f'.at - f.at));
  }

  lemma CrossMultiply(x: real, s: real, y: real, t: real)
    requires s > 0.0 && t > 0.0
    ensures x <= y <==> (x * s) * t <= (y * t) * s
  {
    assert (y * t) * s - (x * s) * t == (y - x) * (s * t);
    if x <= y {
      assert (y - x) * (s * t) >= 0.0;
    } else {
      assert (y - x) * (s * t) < 0.0;
    }
  }

  /** A share of two rates is never negative, and is at most 100 exactly when, over the
      readings, the part's increase times the whole's interval is within the whole's
      increase times the part's interval. The code does not check it. */
  lemma ShareExactly(part: Counter, whole: Counter, was: Metric, entries: Entries, target: string, counters: Counters,
                     now: Time)
    requires !was.ok
    ensures var rate := RateIn(entries, target, counters, now);
            var m := Percent(rate(part), rate(whole), was);
            m.ok ==>
              var w, p := Lookup(entries, TrackerKey(target, whole)), Lookup(entries, TrackerKey(target, part));
              && whole in counters && part in counters && w.Some? && p.Some?
              && now > w.value.at && now > p.value.at
              && m.value >= 0.0
              && (m.value <= 100.0 <==>
                    (counters[part] - p.value.value) * Seconds(now - w.value.at) <=
                    (counters[whole] - w.value.value) * Seconds(now - p.value.at))
  {
    var rate := RateIn(entries, target, counters, now);
    NeverNegative(entries, target, counters, now, whole);
    NeverNegative(entries, target, counters, now, part);
    if rate(whole).Some? && rate(part).Some? && rate(whole).value > 0.0 {
      ShareOfReadings(entries[TrackerKey(target, part)], Entry(counters[part], now),
                      entries[TrackerKey(target, whole)], Entry(counters[whole], now));
    }
  }

  lemma ShareOfReadings(p: Entry, p': Entry, w: Entry, w': Entry)
    requires RateBetween(Some(p), p').Some? && RateBetween(Some(w), w').Some?
    requires RateBetween(Some(w), w').value > 0.0
    ensures w'.at > w.at && p'.at > p.at
    ensures var share := RateBetween(Some(p), p').value / RateBetween(Some(w), w').value * 100.0;
            && share >= 0.0
            && (share <= 100.0 <==>
                  (p'.value - p.value) * Seconds(w'.at - w.at) <= (w'.value - w.value) * Seconds(p'.at - p.at))
  {
    RateExactly(Some(p), p');
    RateExactly(Some(w), w');
    ShareOfWhole(RateBetween(Some(p), p').value, RateBetween(Some(w), w').value);
    RatesCompare(w, w', p, p');
  }

  /** So it is for the abort rate, of finished requests, */
  lemma AbortRateExactly(snap: Snapshot, entries: Entries, target: string, counters: Counters, now: Time)
    requires !snap.abortRatePct.ok
    ensures var m := Applied(snap, RateIn(entries, target, counters, now)).abortRatePct;
            m.ok ==>
              var f, a := Lookup(entries, TrackerKey(target, RequestsFinished)),
                          Lookup(entries, TrackerKey(target, RequestsAborted));
              && RequestsFinished in counters && RequestsAborted in counters && f.Some? && a.Some?
              && now > f.value.at && now > a.value.at
              && m.value >= 0.0
              && (m.value <= 100.0 <==>
                    (counters[RequestsAborted] - a.value.value) * Seconds(now - f.value.at) <=
                    (counters[RequestsFinished] - f.value.value) * Seconds(now - a.value.at))
  {
    ShareExactly(RequestsAborted, RequestsFinished, snap.abortRatePct, entries, target, counters, now);
  }

  /** and for the prefix-cache hit rate, of queries. */
  lemma HitRateExactly(snap: Snapshot, entries: Entries, target: string, counters: Counters, now: Time)
    requires !snap.prefixCacheHitRatePct.ok
    ensures var m := Applied(snap, RateIn(entries, target, counters, now)).prefixCacheHitRatePct;
            m.ok ==>
              var q, h := Lookup(entries, TrackerKey(target, PrefixCacheQueries)),
                          Lookup(entries, TrackerKey(target, PrefixCacheHits));
              && PrefixCacheQueries in counters && PrefixCacheHits in counters && q.Some? && h.Some?
              && m.value >= 0.0
              && (m.value <= 100.0 <==>
                    (counters[PrefixCacheHits] - h.value.value) * Seconds(now - q.value.at) <=
                    (counters[PrefixCacheQueries] - q.value.value) * Seconds(now - h.value.at))
  {
    ShareExactly(PrefixCacheHits, PrefixCacheQueries, snap.prefixCacheHitRatePct, entries, target, counters, now);
  }

  // ── Scrapes of one target ────────

  datatype Scrape = Scrape(counters: Counters, now: Time)

  /** The tracker after these scrapes, starting empty; what Apply leaves each time. */
  function AfterScrapes(scrapes: seq<Scrape>, target: string): Entries {
    if scrapes == [] then map[]
    else
      var last := Last(scrapes);
      Recorded(AfterScrapes(scrapes[..|scrapes| - 1], target), target, last.counters, last.now, ORDER)
  }

  /** The abort rate the next scrape measures. */
  function AbortRateAfter(scrapes: seq<Scrape>, target: string, next: Scrape, snap: Snapshot): Metric {
    Applied(snap, RateIn(AfterScrapes(scrapes, target), target, next.counters, next.now)).abortRatePct
  }

  /** The aborts a scrape exposes are among its finished requests. */
  predicate Consistent(s: Scrape) {
    RequestsAborted in s.counters ==>
      RequestsFinished in s.counters && 0.0 <= s.counters[RequestsAborted] <= s.counters[RequestsFinished]
  }

  /** A scrape leaves each counter it exposes at its own reading, and every other alone. */
  lemma {:induction false} RecordedEach(entries: Entries, target: string, counters: Counters, now: Time,
                                        done: seq<Counter>, c: Counter)
    ensures Lookup(Recorded(entries, target, counters, now, done), TrackerKey(target, c)) ==
            if c in done && c in counters then Some(Entry(counters[c], now)) else Lookup(entries, TrackerKey(target, c))
  {
    if done != [] {
      var before, d := done[..|done| - 1], Last(done);
      RecordedEach(entries, target, counters, now, before, c);
      assert c in done <==> c in before || c == d by {
        assert done == before + [d];
      }
      if c != d && TrackerKey(target, c) == TrackerKey(target, d) {
        TrackerKeyInjective(target, c, target, d);
      }
    }
  }

  lemma AfterScrape(scrapes: seq<Scrape>, target: string, c: Counter)
    requires scrapes != []
    ensures var last, before := Last(scrapes), AfterScrapes(scrapes[..|scrapes| - 1], target);
            Lookup(AfterScrapes(scrapes, target), TrackerKey(target, c)) ==
            if c in last.counters then Some(Entry(last.counters[c], last.now))
            else Lookup(before, TrackerKey(target, c))
  {
    EveryCounterRead();
    var before, last := AfterScrapes(scrapes[..|scrapes| - 1], target), Last(scrapes);
    RecordedEach(before, target, last.counters, last.now, ORDER, c);
  }

  /** When the scrape before exposed both counters, so that both rates cover the same
      interval, a measured abort rate is a percentage exactly when the aborts grew no more
      than the finished requests. */
  lemma SameBaselineExactly(scrapes: seq<Scrape>, target: string, next: Scrape, snap: Snapshot)
    requires !snap.abortRatePct.ok && scrapes != []
    requires RequestsFinished in Last(scrapes).counters && RequestsAborted in Last(scrapes).counters
    ensures var m, last := AbortRateAfter(scrapes, target, next, snap), Last(scrapes).counters;
            m.ok ==>
              && RequestsFinished in next.counters && RequestsAborted in next.counters
              && (0.0 <= m.value <= 100.0 <==>
                    next.counters[RequestsAborted] - last[RequestsAborted] <=
                    next.counters[RequestsFinished] - last[RequestsFinished])
  {
    var last := Last(scrapes);
    AfterScrape(scrapes, target, RequestsFinished);
    AfterScrape(scrapes, target, RequestsAborted);
    SameInterval(snap.abortRatePct, AfterScrapes(scrapes, target), target, next,
                 Entry(last.counters[RequestsFinished], last.now), Entry(last.counters[RequestsAborted], last.now));
  }

  lemma SameInterval(was: Metric, entries: Entries, target: string, next: Scrape, f: Entry, a: Entry)
    requires !was.ok && f.at == a.at
    requires Lookup(entries, TrackerKey(target, RequestsFinished)) == Some(f)
    requires Lookup(entries, TrackerKey(target, RequestsAborted)) == Some(a)
    ensures var rate := RateIn(entries, target, next.counters, next.now);
            var m := Percent(rate(RequestsAborted), rate(RequestsFinished), was);
            m.ok ==>
              && RequestsFinished in next.counters && RequestsAborted in next.counters
              && (0.0 <= m.value <= 100.0 <==>
                    next.counters[RequestsAborted] - a.value <= next.counters[RequestsFinished] - f.value)
  {
    ShareExactly(RequestsAborted, RequestsFinished, was, entries, target, next.counters, next.now);
    LaterIsPositive(next.now - f.at);
    if RequestsFinished in next.counters && RequestsAborted in next.counters && next.now > f.at {
      SameFactor(next.counters[RequestsAborted] - a.value, next.counters[RequestsFinished] - f.value,
        Seconds(next.now - f.at));
    }
  }

  lemma SameFactor(x: real, y: real, t: real)
    requires t > 0.0
    ensures x * t <= y * t <==> x <= y
  {
    assert y * t - x * t == (y - x) * t;
  }

  /** It is not always: a target that never reports more aborts than finished requests
      restarts between two scrapes and passes its old count of finished requests before the
      second, which the tracker takes for growth; it measures 200. */
  lemma AbortRateCanExceed(snap: Snapshot, target: string) returns (scrapes: seq<Scrape>, next: Scrape)
    ensures forall s :: s in scrapes + [next] ==> Consistent(s)
    ensures |scrapes| == 1 && scrapes[0].now < next.now
    ensures AbortRateAfter(scrapes, target, next, snap) == Metric(200.0, true)
  {
    scrapes := [Scrape(map[RequestsFinished := 2.0, RequestsAborted := 0.0], 0)];
    next := Scrape(map[RequestsFinished := 4.0, RequestsAborted := 4.0], SECOND);
    AfterScrape(scrapes, target, RequestsFinished);
    AfterScrape(scrapes, target, RequestsAborted);
    var rate := RateIn(AfterScrapes(scrapes, target), target, next.counters, next.now);
    assert rate(RequestsFinished) == Some(2.0) && rate(RequestsAborted) == Some(4.0);
  }

  // ── Finished requests by reason ────────

  const ABORT := "abort"

  /** The count of requests finished for each reason, one series a reason. */
  type Reasons = map<string, real>

  function Total(reasons: seq<string>, counts: Reasons): real {
    if reasons == [] then 0.0
    else Total(reasons[..|reasons| - 1], counts) + CountFor(Last(reasons), counts)
  }

  function CountFor(reason: string, counts: Reasons): real {
    if reason in counts then counts[reason] else 0.0
  }

  /** The sum adds up over parts, and one reason counts for itself. */
  lemma {:induction false} TotalJoin(xs: seq<string>, ys: seq<string>, counts: Reasons)
    ensures Total(xs + ys, counts) == Total(xs, counts) + Total(ys, counts)
    ensures |xs| == 1 && xs[0] in counts ==> Total(xs, counts) == counts[xs[0]]
  {
    if ys == [] {
      assert xs + ys == xs;
    } else {
      assert (xs + ys)[..|xs + ys| - 1] == xs + ys[..|ys| - 1];
      TotalJoin(xs, ys[..|ys| - 1], counts);
    }
  }

  /** What the adapter reads off the series: their sum, and the aborts among them. */
  function Exposed(reasons: seq<string>, counts: Reasons): Counters {
    if counts == map[] then map[]
    else if ABORT in counts then map[RequestsFinished := Total(reasons, counts), RequestsAborted := counts[ABORT]]
    else map[RequestsFinished := Total(reasons, counts)]
  }

  /** No series goes back or disappears, and new ones start from zero or above. */
  predicate Grows(was: Reasons, counts: Reasons) {
    && (forall r :: r in was ==> r in counts && was[r] <= counts[r])
    && (forall r :: r in counts ==> 0.0 <= counts[r])
  }

  lemma {:induction false} TotalGrows(reasons: seq<string>, was: Reasons, counts: Reasons)
    requires Distinct(reasons) && Grows(was, counts)
    ensures Total(reasons, counts) - Total(reasons, was) >= 0.0
    ensures ABORT in reasons ==>
              Total(reasons, counts) - Total(reasons, was) >= CountFor(ABORT, counts) - CountFor(ABORT, was)
  {
    if reasons != [] {
      var before := reasons[..|reasons| - 1];
      TotalGrows(before, was, counts);
      assert ABORT in reasons <==> ABORT in before || ABORT == Last(reasons) by {
        assert reasons == before + [Last(reasons)];
      }
    }
  }

  datatype History = History(counts: Reasons, now: Time)

  function Scrapes(reasons: seq<string>, history: seq<History>): seq<Scrape> {
    seq(|history|, i requires 0 <= i < |history| => Scrape(Exposed(reasons, history[i].counts), history[i].now))
  }

  ghost predicate Growing(history: seq<History>) {
    forall i, j :: 0 <= i <= j < |history| ==> Grows(history[i].counts, history[j].counts)
  }

  lemma {:induction false} NeverExposed(scrapes: seq<Scrape>, target: string, c: Counter)
    requires forall s :: s in scrapes ==> c !in s.counters
    ensures Lookup(AfterScrapes(scrapes, target), TrackerKey(target, c)) == None
  {
    if scrapes != [] {
      assert Last(scrapes) in scrapes;
      assert forall s :: s in scrapes[..|scrapes| - 1] ==> s in scrapes;
      NeverExposed(scrapes[..|scrapes| - 1], target, c);
      AfterScrape(scrapes, target, c);
    }
  }

  /** As long as no reason's series goes back or disappears, an abort rate is always a
      percentage. */
  lemma GrowingIsPercentage(reasons: seq<string>, history: seq<History>, target: string, snap: Snapshot)
    requires Distinct(reasons) && ABORT in reasons && history != [] && Growing(history) && !snap.abortRatePct.ok
    ensures var n := |history| - 1;
            var m := AbortRateAfter(Scrapes(reasons, history)[..n], target, Scrapes(reasons, history)[n], snap);
            m.ok ==> 0.0 <= m.value <= 100.0
  {
    var n, all := |history| - 1, Scrapes(reasons, history);
    var before, next := all[..n], all[n];
    if n > 0 && ABORT in history[n - 1].counts {
      assert Last(before) == all[n - 1];
      assert Grows(history[n - 1].counts, history[n].counts);
      SameBaselineExactly(before, target, next, snap);
      TotalGrows(reasons, history[n - 1].counts, history[n].counts);
    } else {
      forall s | s in before ensures RequestsAborted !in s.counters {
        var i :| 0 <= i < n && before[i] == s;
        assert Grows(history[i].counts, history[n - 1].counts);
      }
      NeverExposed(before, target, RequestsAborted);
    }
  }

  /** These are the tracker and the abort rate of the code: one more call of Apply. */
  method ScrapeNext(tracker: RateTracker, target: string, ghost scrapes: seq<Scrape>, next: Scrape, snap: Snapshot)
    returns (out: Snapshot)
    requires tracker.Valid() && tracker.entries == AfterScrapes(scrapes, target)
    modifies tracker
    ensures tracker.Valid() && tracker.entries == AfterScrapes(scrapes + [next], target)
    ensures out.abortRatePct == AbortRateAfter(scrapes, target, next, snap)
  {
    out := Apply(tracker, snap, target, next.counters, next.now);
    assert (scrapes + [next])[..|scrapes|] == scrapes;
  }
}
