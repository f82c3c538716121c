/** The evaluation window (recommender.go): the tail of a workload's history, what it
    means for a condition to be sustained over it, and trends across it. */
module Window {
  import opened Basics
  import opened Telemetry

  predicate Sorted(w: seq<Snapshot>) {
    forall i, j :: 0 <= i <= j < |w| ==> w[i].timestamp <= w[j].timestamp
  }

  function Span(w: seq<Snapshot>): Duration {
    if |w| < 2 then 0 else Last(w).timestamp - w[0].timestamp
  }

  function NotBefore(w: seq<Snapshot>, cutoff: Time): nat -> bool {
    (i: nat) => i < |w| && w[i].timestamp >= cutoff
  }

  function Cutoff(w: seq<Snapshot>, d: Duration): Time
    requires w != []
  {
    Last(w).timestamp - d
  }

  /** The first sample at or after the cutoff. */
  function FirstInside(w: seq<Snapshot>, d: Duration): nat
    requires w != []
  {
    FirstIndex(|w|, 0, NotBefore(w, Cutoff(w, d)))
  }

  /** Where the tail starts: one sample before the first one inside, if there is one. */
  function TailStart(w: seq<Snapshot>, d: Duration): (k: nat)
    requires w != [] && d > 0
    ensures k < |w|
    ensures k > 0 ==> w[k].timestamp < Cutoff(w, d)
  {
    assert NotBefore(w, Cutoff(w, d))(|w| - 1);
    var start := FirstInside(w, d);
    assert start > 0 ==> !NotBefore(w, Cutoff(w, d))(start - 1);
    if start > 0 then start - 1 else start
  }

  /** The tail covering the last d, together with the sample before it, if any. */
  function Recent(w: seq<Snapshot>, d: Duration): seq<Snapshot> {
    if w == [] || d <= 0 then w else w[TailStart(w, d)..]
  }

  /** recent, with sort.Search's binary search. */
  method FindRecent(w: seq<Snapshot>, d: Duration) returns (r: seq<Snapshot>)
    requires Sorted(w)
    ensures r == Recent(w, d)
  {
    if |w| == 0 || d <= 0 {
      return w;
    }
    var cutoff := Last(w).timestamp - d;
    var start := Search(|w|, NotBefore(w, cutoff));
    assert start == FirstInside(w, d);
    if start > 0 {
      start := start - 1;
    }
    return w[start..];
  }

  function Sustained(latest: Snapshot, w: seq<Snapshot>, d: Duration, pred: Snapshot -> bool): bool {
    if d <= 0 then w != [] && pred(latest)
    else
      var r := Recent(w, d);
      Span(r) >= d && forall i :: 0 <= i < |r| ==> pred(r[i])
  }

  // ── The tail ────────

  /** The tail holds every sample at or after last - d, and at most one earlier one,
      the sample just before them. */
  lemma RecentShape(w: seq<Snapshot>, d: Duration)
    requires Sorted(w) && w != [] && d > 0
    ensures var k := TailStart(w, d);
            && Recent(w, d) == w[k..]
            && (forall i :: 0 <= i < k ==> w[i].timestamp < Cutoff(w, d))
            && (forall i :: k < i < |w| ==> w[i].timestamp >= Cutoff(w, d))
            && (k > 0 ==> w[k].timestamp < Cutoff(w, d))
  {
    var k, start, cutoff := TailStart(w, d), FirstInside(w, d), Cutoff(w, d);
    assert NotBefore(w, cutoff)(|w| - 1);
    assert NotBefore(w, cutoff)(start);
  }

  /** Where the tail starts is determined by the timestamps around it. */
  lemma TailStartIs(w: seq<Snapshot>, d: Duration, k: nat)
    requires Sorted(w) && k < |w| && d > 0
    requires k > 0 ==> w[k].timestamp < Cutoff(w, d)
    requires forall i :: k < i < |w| ==> w[i].timestamp >= Cutoff(w, d)
    ensures TailStart(w, d) == k
  {
    RecentShape(w, d);
  }

  lemma TailSpan(w: seq<Snapshot>, d: Duration)
    requires w != [] && d > 0
    ensures |Recent(w, d)| == |w| - TailStart(w, d)
    ensures Last(Recent(w, d)) == Last(w)
    ensures Span(Recent(w, d)) == Last(w).timestamp - w[TailStart(w, d)].timestamp
    ensures forall i :: 0 <= i < |Recent(w, d)| ==> Recent(w, d)[i] == w[TailStart(w, d) + i]
  {
  }

  /** The tail spans at least d exactly when the whole history does. */
  lemma RecentCovers(w: seq<Snapshot>, d: Duration)
    requires Sorted(w) && w != [] && d > 0
    ensures Span(Recent(w, d)) >= d <==> Span(w) >= d
  {
    TailSpan(w, d);
  }

  /** Over a tail, sustained means: the history spans d, and every sample from the
      tail's start on satisfies the condition. */
  lemma SustainedFrom(latest: Snapshot, w: seq<Snapshot>, d: Duration, pred: Snapshot -> bool)
    requires Sorted(w) && w != [] && d > 0
    ensures Sustained(latest, w, d, pred) <==>
            Span(w) >= d && forall i :: TailStart(w, d) <= i < |w| ==> pred(w[i])
  {
    RecentCovers(w, d);
    SuffixHolds(w, TailStart(w, d), pred);
  }

  lemma SuffixHolds(w: seq<Snapshot>, k: nat, pred: Snapshot -> bool)
    requires k <= |w|
    ensures (forall i :: 0 <= i < |w[k..]| ==> pred(w[k..][i])) <==> (forall i :: k <= i < |w| ==> pred(w[i]))
  {
    var r := w[k..];
    forall i | k <= i < |w| ensures w[i] == r[i - k] {
    }
    forall i | 0 <= i < |r| ensures r[i] == w[k + i] {
    }
  }

  lemma TailsNested(w: seq<Snapshot>, long: Duration, short: Duration)
    requires Sorted(w) && w != [] && long >= short > 0
    ensures TailStart(w, long) <= TailStart(w, short)
  {
    RecentShape(w, short);
  }

  /** What has been sustained for longer has been sustained for less. */
  lemma SustainedForLess(latest: Snapshot, w: seq<Snapshot>, long: Duration, short: Duration, pred: Snapshot -> bool)
    requires Sorted(w) && w != [] && Last(w) == latest && long >= short
    requires Sustained(latest, w, long, pred)
    ensures Sustained(latest, w, short, pred)
  {
    if short > 0 {
      SustainedFrom(latest, w, long, pred);
      SustainedFrom(latest, w, short, pred);
      TailsNested(w, long, short);
    } else {
      SustainedNow(latest, w, long, pred);
    }
  }

  /** Sustaining both conditions is sustaining each. */
  lemma SustainedBoth(latest: Snapshot, w: seq<Snapshot>, d: Duration, p: Snapshot -> bool, q: Snapshot -> bool)
    ensures Sustained(latest, w, d, s => p(s) && q(s)) <==> Sustained(latest, w, d, p) && Sustained(latest, w, d, q)
  {
  }

  /** A sustained condition holds now. */
  lemma SustainedNow(latest: Snapshot, w: seq<Snapshot>, d: Duration, pred: Snapshot -> bool)
    requires w != [] && Last(w) == latest && Sustained(latest, w, d, pred)
    ensures pred(latest)
  {
    if d > 0 {
      TailSpan(w, d);
      var r := Recent(w, d);
      assert r[|r| - 1] == Last(w);
    }
  }

  /** A condition sustained is sure to hold of the newest snapshot, whatever the condition,
      exactly when no tail is asked for, the tail is too short to sustain anything, or the
      snapshot is one of the tail. */
  lemma SustainedHoldsNowExactly(latest: Snapshot, w: seq<Snapshot>, d: Duration)
    ensures (forall pred: Snapshot -> bool :: Sustained(latest, w, d, pred) ==> pred(latest)) <==>
            d <= 0 || Span(Recent(w, d)) < d || latest in Recent(w, d)
  {
    if d > 0 && latest !in Recent(w, d) {
      var inTail := (s: Snapshot) => s in Recent(w, d);
      assert Sustained(latest, w, d, inTail) <==> Span(Recent(w, d)) >= d;
      assert !inTail(latest);
    }
  }

  lemma LastInTail(w: seq<Snapshot>, d: Duration)
    requires w != []
    ensures Last(w) in Recent(w, d)
  {
    if d > 0 {
      TailSpan(w, d);
    }
  }

  /** A sample no older than d before the newest is in the tail. */
  lemma SampleInTail(w: seq<Snapshot>, d: Duration, i: nat)
    requires Sorted(w) && i < |w| && d > 0 && w[i].timestamp >= Cutoff(w, d)
    ensures w[i] in Recent(w, d)
  {
    var k := TailStart(w, d);
    RecentShape(w, d);
    assert w[k..][i - k] == w[i];
  }

  // ── A retained suffix against the whole log ────────

  lemma LastOfSuffix(log: seq<Snapshot>, k: nat)
    requires k < |log|
    ensures Last(log[k..]) == Last(log)
  {
  }

  lemma RetainedTailStart(log: seq<Snapshot>, k: nat, d: Duration)
    requires Sorted(log) && k < |log| && d > 0 && log[k].timestamp < Cutoff(log, d)
    ensures k <= TailStart(log, d) && TailStart(log[k..], d) == TailStart(log, d) - k
  {
    var series, i := log[k..], TailStart(log, d);
    LastOfSuffix(log, k);
    RecentShape(log, d);
    TailStartIs(series, d, i - k);
  }

  /** A retained suffix has the same tail as the whole log exactly when it is the
      whole log or still holds a sample strictly older than the cutoff. */
  lemma RetainedTailExactly(log: seq<Snapshot>, k: nat, d: Duration)
    requires Sorted(log) && k < |log| && d > 0
    ensures Recent(log[k..], d) == Recent(log, d) <==> k == 0 || log[k].timestamp < Cutoff(log, d)
  {
    var series, i := log[k..], TailStart(log, d);
    LastOfSuffix(log, k);
    if k == 0 {
      assert series == log;
    } else if log[k].timestamp < Cutoff(log, d) {
      RetainedTailStart(log, k, d);
      assert series[i - k..] == log[i..];
    } else {
      assert i < k;
      TailSpan(series, d);
      TailSpan(log, d);
    }
  }

  /** So a rule sustained over what the store retained is sustained over everything
      ever observed, and the other way round. */
  lemma SustainedOnRetained(log: seq<Snapshot>, k: nat, d: Duration, latest: Snapshot, pred: Snapshot -> bool)
    requires Sorted(log) && k < |log|
    requires d > 0 && k > 0 ==> log[k].timestamp < Cutoff(log, d)
    ensures Sustained(latest, log[k..], d, pred) <==> Sustained(latest, log, d, pred)
  {
    if d > 0 {
      RetainedTailExactly(log, k, d);
    }
  }

  /** A retained sample exactly on the cutoff is not enough: the log's tail reaches
      one sample further back, which may break the condition. */
  lemma OnTheCutoffIsNotEnough(good: Snapshot, bad: Snapshot, d: Duration, pred: Snapshot -> bool)
    returns (log: seq<Snapshot>)
    requires d > 0
    requires forall t :: pred(good.(timestamp := t)) && !pred(bad.(timestamp := t))
    ensures Sorted(log) && |log| == 3 && log[1].timestamp == Cutoff(log, d)
    ensures Sustained(Last(log), log[1..], d, pred) && !Sustained(Last(log), log, d, pred)
  {
    var old0, new1, new2 := bad.(timestamp := -1), good.(timestamp := 0), good.(timestamp := d);
    log := [old0, new1, new2];
    TailStartIs([new1, new2], d, 0);
    TailStartIs(log, d, 0);
    SustainedFrom(new2, [new1, new2], d, pred);
    SustainedFrom(new2, log, d, pred);
    assert log[1..] == [new1, new2];
    assert !pred(log[0]);
  }

  // ── Trends ────────

  const TREND_WINDOW := 3
  const MIN_SAMPLES := 6

  predicate AllMeasured(w: seq<Snapshot>, pick: Snapshot -> Metric) {
    forall i :: 0 <= i < |w| ==> pick(w[i]).ok
  }

  function SumOf(w: seq<Snapshot>, pick: Snapshot -> Metric): real {
    if w == [] then 0.0 else SumOf(w[..|w| - 1], pick) + pick(Last(w)).value
  }

  /** The mean, when there is a sample and every sample is measured. */
  function Mean(w: seq<Snapshot>, pick: Snapshot -> Metric): Option<real> {
    if w == [] || !AllMeasured(w, pick) then None else Some(SumOf(w, pick) / |w| as real)
  }

  method ComputeMean(w: seq<Snapshot>, pick: Snapshot -> Metric) returns (m: Option<real>)
    ensures m == Mean(w, pick)
  {
    var sum, n := 0.0, 0;
    for i := 0 to |w|
      invariant 0 <= n <= i
      invariant n == i <==> AllMeasured(w[..i], pick)
      invariant n == i ==> sum == SumOf(w[..i], pick)
    {
      assert w[..i + 1][..i] == w[..i] && w[..i + 1][i] == w[i];
      assert AllMeasured(w[..i + 1], pick) <==> AllMeasured(w[..i], pick) && pick(w[i]).ok by {
        assert forall j :: 0 <= j < i ==> w[..i + 1][j] == w[..i][j];
      }
      if pick(w[i]).ok {
        sum, n := sum + pick(w[i]).value, n + 1;
      }
    }
    assert w[..|w|] == w;
    m := if n != |w| || n == 0 then None else Some(sum / n as real);
  }

  function TrendOver(w: seq<Snapshot>, pick: Snapshot -> Metric): Option<real> {
    if |w| < MIN_SAMPLES then None
    else
      var third := |w| / 3;
      var early, late := Mean(w[..third], pick), Mean(w[|w| - third..], pick);
      if early.Some? && late.Some? then Some(late.value - early.value) else None
  }

  function Trend(w: seq<Snapshot>, sustainFor: Duration, pick: Snapshot -> Metric): Option<real> {
    TrendOver(Recent(w, sustainFor * TREND_WINDOW), pick)
  }

  /** The two segments compared are disjoint and equally long, two samples or more. */
  lemma TrendSegments(w: seq<Snapshot>, pick: Snapshot -> Metric)
    requires TrendOver(w, pick).Some?
    ensures var third := |w| / 3;
            && third >= 2
            && third <= |w| - third
            && |w[..third]| == |w[|w| - third..]| == third
            && AllMeasured(w[..third], pick) && AllMeasured(w[|w| - third..], pick)
  {
  }

  function Shift(pick: Snapshot -> Metric, c: real): Snapshot -> Metric {
    s => Metric(pick(s).value + c, pick(s).ok)
  }

  lemma {:induction false} SumShift(w: seq<Snapshot>, pick: Snapshot -> Metric, c: real)
    ensures SumOf(w, Shift(pick, c)) == SumOf(w, pick) + c * |w| as real
  {
    if w != [] {
      SumShift(w[..|w| - 1], pick, c);
      assert c * |w| as real == c * (|w| - 1) as real + c;
    }
  }

  lemma MeanShift(w: seq<Snapshot>, pick: Snapshot -> Metric, c: real)
    ensures Mean(w, Shift(pick, c)).Some? <==> Mean(w, pick).Some?
    ensures Mean(w, pick).Some? ==> Mean(w, Shift(pick, c)).value == Mean(w, pick).value + c
  {
    assert AllMeasured(w, Shift(pick, c)) <==> AllMeasured(w, pick) by {
      assert forall i :: 0 <= i < |w| ==> Shift(pick, c)(w[i]).ok == pick(w[i]).ok;
    }
    if w != [] {
      SumShift(w, pick, c);
      var n := |w| as real;
      assert (SumOf(w, pick) + c * n) / n == SumOf(w, pick) / n + c;
    }
  }

  /** A trend measures change only: adding a constant to every value leaves it. */
  lemma TrendShift(w: seq<Snapshot>, sustainFor: Duration, pick: Snapshot -> Metric, c: real)
    ensures Trend(w, sustainFor, Shift(pick, c)) == Trend(w, sustainFor, pick)
  {
    var r := Recent(w, sustainFor * TREND_WINDOW);
    var third := |r| / 3;
    MeanShift(r[..third], pick, c);
    MeanShift(r[|r| - third..], pick, c);
  }

  lemma {:induction false} SumBounds(w: seq<Snapshot>, pick: Snapshot -> Metric, low: real, high: real)
    requires forall i :: 0 <= i < |w| ==> low <= pick(w[i]).value <= high
    ensures low * |w| as real <= SumOf(w, pick) <= high * |w| as real
  {
    if w != [] {
      SumBounds(w[..|w| - 1], pick, low, high);
      assert low * |w| as real == low * (|w| - 1) as real + low;
      assert high * |w| as real == high * (|w| - 1) as real + high;
    }
  }

  lemma MeanBounds(w: seq<Snapshot>, pick: Snapshot -> Metric, low: real, high: real)
    requires Mean(w, pick).Some?
    requires forall i :: 0 <= i < |w| ==> low <= pick(w[i]).value <= high
    ensures low <= Mean(w, pick).value <= high
  {
    SumBounds(w, pick, low, high);
    QuotientBounds(SumOf(w, pick), |w| as real, low, high);
  }

  lemma QuotientBounds(s: real, n: real, low: real, high: real)
    requires n > 0.0 && low * n <= s <= high * n
    ensures low <= s / n <= high
  {
    var t := s / n;
    assert t * n == s;
    assert (t - low) * n >= 0.0 && (high - t) * n >= 0.0;
    NonNegativeFactor(t - low, n);
    NonNegativeFactor(high - t, n);
  }

  lemma NonNegativeFactor(a: real, n: real)
    requires n > 0.0 && a * n >= 0.0
    ensures a >= 0.0
  {
  }

  /** No measured value exceeds an earlier one; what is not measured does not count. */
  predicate NonIncreasing(w: seq<Snapshot>, pick: Snapshot -> Metric) {
    forall i, j :: 0 <= i <= j < |w| && pick(w[i]).ok && pick(w[j]).ok ==> pick(w[i]).value >= pick(w[j]).value
  }

  lemma TrendOverNonIncreasing(w: seq<Snapshot>, pick: Snapshot -> Metric)
    requires NonIncreasing(w, pick) && TrendOver(w, pick).Some?
    ensures TrendOver(w, pick).value <= 0.0
  {
    var third := |w| / 3;
    var early, late := w[..third], w[|w| - third..];
    var first, split, low := pick(w[0]).value, pick(w[third - 1]).value, pick(Last(w)).value;
    MeanBounds(early, pick, split, first);
    MeanBounds(late, pick, low, split);
  }

  lemma RecentNonIncreasing(w: seq<Snapshot>, d: Duration, pick: Snapshot -> Metric)
    requires NonIncreasing(w, pick)
    ensures NonIncreasing(Recent(w, d), pick)
  {
    if w != [] && d > 0 {
      TailSpan(w, d);
    }
  }

  /** A flat or draining metric never trends upwards, whatever its level. */
  lemma TrendNonIncreasing(w: seq<Snapshot>, sustainFor: Duration, pick: Snapshot -> Metric)
    requires NonIncreasing(w, pick)
    ensures Trend(w, sustainFor, pick).Some? ==> Trend(w, sustainFor, pick).value <= 0.0
  {
    var r := Recent(w, sustainFor * TREND_WINDOW);
    RecentNonIncreasing(w, sustainFor * TREND_WINDOW, pick);
    if TrendOver(r, pick).Some? {
      TrendOverNonIncreasing(r, pick);
    }
  }

  // ── What a trend is ────────

  /** A trend is asked of the last three sustain windows. */
  lemma TrendOverThreeWindows(w: seq<Snapshot>, sustainFor: Duration, pick: Snapshot -> Metric)
    ensures Trend(w, sustainFor, pick) == TrendOver(Recent(w, 3 * sustainFor), pick)
  {
    assert sustainFor * TREND_WINDOW == 3 * sustainFor;
  }

  /** It needs six samples, the third at each end measured throughout; times the length of a
      third, it is what the last third adds up to beyond the first. */
  lemma TrendExactly(r: seq<Snapshot>, pick: Snapshot -> Metric)
    ensures var k := |r| / 3;
            var trend := TrendOver(r, pick);
            && (trend.Some? <==> |r| >= 6 && AllMeasured(r[..k], pick) && AllMeasured(r[|r| - k..], pick))
            && (trend.Some? ==> trend.value * k as real == SumOf(r[|r| - k..], pick) - SumOf(r[..k], pick))
  {
    if |r| >= 6 {
      var k := |r| / 3;
      var early, late := r[..k], r[|r| - k..];
      assert |early| == k && |late| == k;
      DifferenceOfMeans(SumOf(early, pick), SumOf(late, pick), k);
    }
  }

  lemma DifferenceOfMeans(a: real, b: real, k: nat)
    requires k > 0
    ensures (b / k as real - a / k as real) * k as real == b - a
  {
    var n := k as real;
    assert b / n * n == b && a / n * n == a;
  }

  lemma MeanOfConstant(w: seq<Snapshot>, pick: Snapshot -> Metric, level: real)
    requires w != [] && forall i :: 0 <= i < |w| ==> pick(w[i]) == Metric(level, true)
    ensures Mean(w, pick) == Some(level)
  {
    MeanBounds(w, pick, level, level);
  }

  /** A metric that stands at one level for the first third and at another for the last has
      moved by the difference between the two. */
  lemma StepTrend(w: seq<Snapshot>, pick: Snapshot -> Metric, before: real, after: real)
    requires |w| >= 6
    requires forall i :: 0 <= i < |w| / 3 ==> pick(w[i]) == Metric(before, true)
    requires forall i :: |w| - |w| / 3 <= i < |w| ==> pick(w[i]) == Metric(after, true)
    ensures TrendOver(w, pick) == Some(after - before)
  {
    var k := |w| / 3;
    var late := w[|w| - k..];
    assert forall i :: 0 <= i < k ==> late[i] == w[|w| - k + i];
    MeanOfConstant(w[..k], pick, before);
    MeanOfConstant(late, pick, after);
  }
}
