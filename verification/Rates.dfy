/** Rates from cumulative counters (internal/collector/rate.go): differencing successive
    scrapes, with first observations and resets never reported as a rate. */
module Rates {
  import opened Basics
  import opened Telemetry

  // ── One step ────────

  /** A counter's value and when it was read. */
  datatype Entry = Entry(value: real, at: Time)

  type Entries = map<string, Entry>

  function Lookup(entries: Entries, key: string): Option<Entry> {
    if key in entries then Some(entries[key]) else None
  }

  /** The per-second rate between two readings, when one is meaningful. */
  function RateBetween(prev: Option<Entry>, next: Entry): Option<real> {
    if prev == None then None
    else
      var elapsed := Seconds(next.at - prev.value.at);
      var delta := next.value - prev.value.value;
      if elapsed <= 0.0 || delta < 0.0 then None else Some(delta / elapsed)
  }

  lemma LaterIsPositive(elapsed: Duration)
    ensures Seconds(elapsed) > 0.0 <==> elapsed > 0
  {
    if elapsed > 0 {
      assert elapsed as real / SECOND as real > 0.0;
    } else {
      assert elapsed as real / SECOND as real <= 0.0;
    }
  }

  /** A rate is reported exactly when the counter was seen before, time has moved on and
      the counter has not gone back. It is never negative, and times the elapsed time it
      gives the counter's increase. */
  lemma RateExactly(prev: Option<Entry>, next: Entry)
    ensures var rate := RateBetween(prev, next);
            (rate.Some? <==> prev.Some? && next.at > prev.value.at && next.value >= prev.value.value)
            && (rate.Some? ==>
                 && rate.value >= 0.0
                 && rate.value * Seconds(next.at - prev.value.at) == next.value - prev.value.value)
  {
    if prev.Some? {
      LaterIsPositive(next.at - prev.value.at);
      var elapsed, delta := Seconds(next.at - prev.value.at), next.value - prev.value.value;
      if elapsed > 0.0 && delta >= 0.0 {
        Quotient(delta, elapsed);
      }
    }
  }

  lemma Quotient(a: real, b: real)
    requires a >= 0.0 && b > 0.0
    ensures a / b >= 0.0 && a / b * b == a
  {
  }

  // ── Runs ────────

  /** One call: a reading of some counter. */
  datatype Reading = Reading(key: string, entry: Entry)

  function EntriesAfter(run: seq<Reading>): Entries {
    if run == [] then map[] else EntriesAfter(run[..|run| - 1])[Last(run).key := Last(run).entry]
  }

  /** The readings of one counter, whatever was read in between. */
  function Own(run: seq<Reading>, key: string): seq<Entry> {
    if run == [] then []
    else
      var before := Own(run[..|run| - 1], key);
      if Last(run).key == key then before + [Last(run).entry] else before
  }

  /** What the tracker answers to the calls for one counter during a run. */
  function Answers(run: seq<Reading>, key: string): seq<Option<real>> {
    if run == [] then []
    else
      var before := run[..|run| - 1];
      if Last(run).key == key
      then Answers(before, key) + [RateBetween(Lookup(EntriesAfter(before), key), Last(run).entry)]
      else Answers(before, key)
  }

  /** The rate a counter on its own reports at its i-th reading. */
  function RateAt(own: seq<Entry>, i: nat): Option<real>
    requires i < |own|
  {
    RateBetween(if i == 0 then None else Some(own[i - 1]), own[i])
  }

  lemma {:induction false} LastReading(run: seq<Reading>, key: string)
    ensures Lookup(EntriesAfter(run), key) == if Own(run, key) == [] then None else Some(Last(Own(run, key)))
  {
    if run != [] {
      LastReading(run[..|run| - 1], key);
    }
  }

  /** Counters never interfere: over any run, what is reported for one depends on its own
      readings alone. */
  lemma {:induction false} CountersIndependent(run: seq<Reading>, key: string)
    ensures |Answers(run, key)| == |Own(run, key)|
    ensures forall i :: 0 <= i < |Own(run, key)| ==> Answers(run, key)[i] == RateAt(Own(run, key), i)
  {
    if run != [] {
      var before := run[..|run| - 1];
      CountersIndependent(before, key);
      LastReading(before, key);
      var own := Own(run, key);
      assert forall i :: 0 <= i < |Own(before, key)| ==> own[i] == Own(before, key)[i];
    }
  }

  // ── The tracker ────────

  /** Keeps the last reading of every counter; run is the calls made so far. */
  class RateTracker {
    var entries: Entries
    ghost var run: seq<Reading>

    ghost predicate Valid()
      reads this
    {
      entries == EntriesAfter(run)
    }

    constructor ()
      ensures Valid() && run == []
    {
      entries, run := map[], [];
    }

    /** Re-baselines on every call, whether or not a rate comes out. */
    method Rate(key: string, current: real, now: Time) returns (rate: Option<real>)
      requires Valid()
      modifies this
      ensures Valid() && run == old(run) + [Reading(key, Entry(current, now))]
      ensures entries == old(entries)[key := Entry(current, now)]
      ensures rate == RateBetween(Lookup(old(entries), key), Entry(current, now))
      ensures Answers(run, key) == Answers(old(run), key) + [rate]
    {
      var prev := Lookup(entries, key);
      assert (run + [Reading(key, Entry(current, now))])[..|run|] == run;
      entries, run := entries[key := Entry(current, now)], run + [Reading(key, Entry(current, now))];
      if prev == None {
        return None;
      }
      var elapsed := Seconds(now - prev.value.at);
      if elapsed <= 0.0 {
        return None;
      }
      var delta := current - prev.value.value;
      if delta < 0.0 {
        return None;
      }
      return Some(delta / elapsed);
    }
  }

  // ── Telescoping ────────

  /** What a reported rate says was counted over its interval: the rate times the time. */
  function Counted(prev: Entry, next: Entry): real {
    var rate := RateBetween(Some(prev), next);
    if rate.Some? then rate.value * Seconds(next.at - prev.at) else 0.0
  }

  /** What a reset took away. */
  function Dropped(prev: Entry, next: Entry): real {
    if next.value < prev.value then prev.value - next.value else 0.0
  }

  lemma CountedExactly(prev: Entry, next: Entry)
    requires prev.at < next.at
    ensures Counted(prev, next) == next.value - prev.value + Dropped(prev, next)
  {
    RateExactly(Some(prev), next);
  }

  /** What all rates reported after reading a, up to reading b, say was counted. */
  function Volume(own: seq<Entry>, a: nat, b: nat): real
    requires a <= b < |own|
    decreases b
  {
    if a == b then 0.0 else Volume(own, a, b - 1) + Counted(own[b - 1], own[b])
  }

  /** How much was lost to resets from reading a to reading b. */
  function Lost(own: seq<Entry>, a: nat, b: nat): (lost: real)
    requires a <= b < |own|
    ensures lost >= 0.0
    ensures lost == 0.0 <==> forall i :: a < i <= b ==> own[i].value >= own[i - 1].value
    decreases b
  {
    if a == b then 0.0 else Lost(own, a, b - 1) + Dropped(own[b - 1], own[b])
  }

  ghost predicate StrictlyLater(own: seq<Entry>, a: nat, b: nat)
    requires a <= b < |own|
  {
    forall i :: a < i <= b ==> own[i - 1].at < own[i].at
  }

  /** For strictly increasing scrape times, reported rates times elapsed times add up to
      the counter's net change plus exactly what resets took away. */
  lemma {:induction false} RatesTelescope(own: seq<Entry>, a: nat, b: nat)
    requires a <= b < |own| && StrictlyLater(own, a, b)
    ensures Volume(own, a, b) == own[b].value - own[a].value + Lost(own, a, b)
    decreases b
  {
    if a < b {
      RatesTelescope(own, a, b - 1);
      CountedExactly(own[b - 1], own[b]);
    }
  }

  /** So over a stretch they add up to last minus first exactly when it is free of resets,
      which is when every reading in it after the first reports a rate. */
  lemma TelescopesExactly(own: seq<Entry>, a: nat, b: nat)
    requires a <= b < |own| && StrictlyLater(own, a, b)
    ensures Volume(own, a, b) == own[b].value - own[a].value <==>
            forall i :: a < i <= b ==> RateAt(own, i).Some?
  {
    RatesTelescope(own, a, b);
    forall i | a < i <= b ensures RateAt(own, i).Some? <==> own[i].value >= own[i - 1].value {
      RateExactly(Some(own[i - 1]), own[i]);
    }
  }

  /** The first reading of a counter and one across a reset report no rate. */
  lemma NoRateWithoutBaseline(own: seq<Entry>, i: nat)
    requires i < |own|
    requires i == 0 || own[i].value < own[i - 1].value || own[i].at <= own[i - 1].at
    ensures RateAt(own, i) == None
  {
    if i > 0 {
      RateExactly(Some(own[i - 1]), own[i]);
    }
  }
}
