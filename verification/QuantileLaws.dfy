/** What interpolated quantiles guarantee on any cumulative distribution. */
module QuantileLaws {
  import opened Basics
  import opened Telemetry
  import opened Quantile
  import W = Window

  predicate Proper(q: real) {
    0.0 < q < 1.0
  }

  function LowerEdge(bs: seq<Bucket>, i: nat): real
    requires i < |bs|
  {
    if i > 0 && bs[i - 1].le.Finite? then bs[i - 1].le.r else 0.0
  }

  function CountBelow(bs: seq<Bucket>, i: nat): real
    requires i < |bs|
  {
    if i > 0 then bs[i - 1].count else 0.0
  }

  /** A rank some bucket reaches. */
  predicate InRange(bs: seq<Bucket>, rank: real) {
    bs != [] && 0.0 < rank <= Last(bs).count
  }

  lemma RankInside(q: real, total: real)
    requires Proper(q) && total > 0.0
    ensures 0.0 < q * total < total
  {
    assert (1.0 - q) * total > 0.0;
  }

  lemma RankInRange(bs: seq<Bucket>, q: real)
    requires Proper(q) && bs != [] && Last(bs).count > 0.0
    ensures InRange(bs, RankOf(bs, q))
  {
    RankInside(q, Last(bs).count);
  }

  /** Once there is an observation, the search always lands on a bucket whose own
      population is positive: neither fallback of the source can be reached. */
  lemma FallbacksUnreachable(bs: seq<Bucket>, rank: real)
    requires Cumulative(bs) && InRange(bs, rank)
    ensures var idx := FoundAt(bs, rank);
            && idx < |bs|
            && CountBelow(bs, idx) < rank <= bs[idx].count
            && bs[idx].count - CountBelow(bs, idx) > 0.0
  {
    var idx := FoundAt(bs, rank);
    assert Reaches(bs, rank)(|bs| - 1);
    assert idx > 0 ==> !Reaches(bs, rank)(idx - 1);
  }

  ghost predicate HasFinite(bs: seq<Bucket>) {
    exists i :: 0 <= i < |bs| && bs[i].le.Finite?
  }

  lemma {:induction false} LastFiniteExists(bs: seq<Bucket>)
    ensures LastFinite(bs).Some? <==> HasFinite(bs)
    ensures Ascending(bs) && LastFinite(bs).Some? ==>
              forall i :: 0 <= i < |bs| && bs[i].le.Finite? ==> bs[i].le.r <= LastFinite(bs).value
  {
    if bs != [] {
      var before := bs[..|bs| - 1];
      LastFiniteExists(before);
      if Last(bs).le.Finite? {
        assert bs[|bs| - 1].le.Finite?;
      } else {
        assert forall i :: 0 <= i < |before| ==> before[i] == bs[i];
      }
    }
  }

  /** A histogram either yields every quantile or none: it must have observations and
      at least one finite boundary. */
  lemma DefinedTogether(bs: seq<Bucket>, q: real)
    requires Cumulative(bs) && Proper(q)
    ensures QuantileOf(bs, q).Some? <==> bs != [] && Last(bs).count > 0.0 && HasFinite(bs)
  {
    LastFiniteExists(bs);
    if bs != [] && Last(bs).count > 0.0 {
      RankInRange(bs, q);
      FallbacksUnreachable(bs, RankOf(bs, q));
    }
  }

  lemma InterpolateWithin(lower: real, upper: real, part: real, span: real)
    requires lower <= upper && 0.0 < part <= span
    ensures lower <= Interpolate(lower, upper, part, span) <= upper
    ensures lower < upper ==> lower < Interpolate(lower, upper, part, span)
  {
    var t := part / span;
    assert 0.0 < t <= 1.0 by {
      assert t * span == part;
    }
    assert 0.0 <= (upper - lower) * t <= (upper - lower) * 1.0;
  }

  lemma InterpolateMonotone(lower: real, upper: real, p1: real, p2: real, span: real)
    requires lower <= upper && p1 <= p2 && span > 0.0
    ensures Interpolate(lower, upper, p1, span) <= Interpolate(lower, upper, p2, span)
  {
    assert p1 / span <= p2 / span by {
      assert (p1 / span) * span == p1 && (p2 / span) * span == p2;
    }
    var width := upper - lower;
    assert width * (p1 / span) <= width * (p2 / span);
  }

  /** The first bucket does not reach below its implied lower edge of zero, or holds
      nothing: what interpolation needs to respect order. */
  predicate FirstEdgeOk(bs: seq<Bucket>) {
    bs == [] || !(bs[0].le.Finite? && bs[0].le.r < 0.0 && bs[0].count > 0.0)
  }

  /** The estimate lies in the bucket the search found, lower edge excluded. */
  lemma EstimateInBucket(bs: seq<Bucket>, rank: real)
    requires Cumulative(bs) && FirstEdgeOk(bs) && InRange(bs, rank)
    ensures var idx := FoundAt(bs, rank);
            && idx < |bs|
            && bs[idx].count - CountBelow(bs, idx) > 0.0
            && (bs[idx].le.Finite? ==>
                  && Estimate(bs, rank) == Some(Interpolate(LowerEdge(bs, idx), bs[idx].le.r,
                                                            rank - CountBelow(bs, idx),
                                                            bs[idx].count - CountBelow(bs, idx)))
                  && LowerEdge(bs, idx) <= bs[idx].le.r
                  && LowerEdge(bs, idx) <= Estimate(bs, rank).value <= bs[idx].le.r
                  && (LowerEdge(bs, idx) < bs[idx].le.r ==> LowerEdge(bs, idx) < Estimate(bs, rank).value))
            && (bs[idx].le.PosInf? ==> idx == |bs| - 1 && Estimate(bs, rank) == LastFinite(bs))
  {
    FallbacksUnreachable(bs, rank);
    var idx := FoundAt(bs, rank);
    if bs[idx].le.Finite? {
      assert idx > 0 ==> EdgeLess(bs[idx - 1].le, bs[idx].le);
      InterpolateWithin(LowerEdge(bs, idx), bs[idx].le.r, rank - CountBelow(bs, idx),
                        bs[idx].count - CountBelow(bs, idx));
    } else {
      assert idx < |bs| - 1 ==> EdgeLess(bs[idx].le, bs[|bs| - 1].le);
    }
  }

  ghost predicate MonotoneInQ(bs: seq<Bucket>) {
    forall p, q :: Proper(p) && Proper(q) && p <= q && QuantileOf(bs, p).Some? && QuantileOf(bs, q).Some? ==>
      QuantileOf(bs, p).value <= QuantileOf(bs, q).value
  }

  lemma EstimateOrder(bs: seq<Bucket>, low: real, high: real)
    requires Cumulative(bs) && FirstEdgeOk(bs) && InRange(bs, low) && InRange(bs, high) && low <= high
    requires Estimate(bs, low).Some? && Estimate(bs, high).Some?
    ensures Estimate(bs, low).value <= Estimate(bs, high).value
  {
    EstimateInBucket(bs, low);
    EstimateInBucket(bs, high);
    LastFiniteExists(bs);
    var i, j := FoundAt(bs, low), FoundAt(bs, high);
    FallbacksUnreachable(bs, high);
    assert Reaches(bs, low)(j);
    if bs[j].le.Finite? {
      if i == j {
        InterpolateMonotone(LowerEdge(bs, i), bs[i].le.r, low - CountBelow(bs, i),
                            high - CountBelow(bs, i), bs[i].count - CountBelow(bs, i));
      } else {
        EdgesBetween(bs, i, j);
      }
    }
  }

  lemma QuantileOrder(bs: seq<Bucket>, p: real, q: real)
    requires Cumulative(bs) && FirstEdgeOk(bs) && Proper(p) && Proper(q) && p <= q
    requires QuantileOf(bs, p).Some? && QuantileOf(bs, q).Some?
    ensures QuantileOf(bs, p).value <= QuantileOf(bs, q).value
  {
    RankInRange(bs, p);
    RankInRange(bs, q);
    RankMonotone(bs, p, q);
    EstimateOrder(bs, RankOf(bs, p), RankOf(bs, q));
  }

  lemma RankMonotone(bs: seq<Bucket>, p: real, q: real)
    requires bs != [] && Last(bs).count > 0.0 && p <= q
    ensures RankOf(bs, p) <= RankOf(bs, q)
  {
    assert (q - p) * Last(bs).count >= 0.0;
  }

  lemma EdgesBetween(bs: seq<Bucket>, i: nat, j: nat)
    requires Cumulative(bs) && i < j < |bs| && bs[j].le.Finite?
    ensures bs[i].le.Finite? && bs[i].le.r <= LowerEdge(bs, j)
  {
    assert EdgeLess(bs[i].le, bs[j].le) && EdgeLess(bs[j - 1].le, bs[j].le);
    if i < j - 1 {
      assert EdgeLess(bs[i].le, bs[j - 1].le);
    }
  }

  lemma LandsInFirst(bs: seq<Bucket>, q: real)
    requires Cumulative(bs) && !FirstEdgeOk(bs) && Proper(q)
    requires RankOf(bs, q) <= bs[0].count
    ensures QuantileOf(bs, q) == Some(Interpolate(0.0, bs[0].le.r, RankOf(bs, q), bs[0].count))
  {
    assert Reaches(bs, RankOf(bs, q))(0);
    assert FoundAt(bs, RankOf(bs, q)) == 0;
    assert Last(bs).count >= bs[0].count;
    assert RankOf(bs, q) - 0.0 == RankOf(bs, q) && bs[0].count - 0.0 == bs[0].count;
  }

  lemma InterpolateBackwards(upper: real, part: real, span: real)
    requires upper < 0.0 && part > 0.0 && span > 0.0
    ensures Interpolate(0.0, upper, part, span) < Interpolate(0.0, upper, part / 2.0, span)
  {
    var t := part / span;
    assert t > 0.0 by {
      assert t * span == part;
    }
    assert (part / 2.0) / span == t / 2.0;
    assert upper * t < upper * (t / 2.0);
  }

  /** A quantile small enough to land in a populated first bucket. */
  lemma SmallQuantile(total: real, count: real) returns (q: real)
    requires total >= count > 0.0
    ensures Proper(q) && Proper(q / 2.0) && q * total <= count
  {
    q := count / (2.0 * total);
    assert q * (2.0 * total) == count;
    assert q * total == count / 2.0;
    assert q > 0.0;
    assert q < 1.0;
  }

  /** A first bucket that ends below zero makes its own estimates run backwards. */
  lemma BackwardsBelowZero(bs: seq<Bucket>)
    requires Cumulative(bs) && !FirstEdgeOk(bs)
    ensures !MonotoneInQ(bs)
  {
    var total, count := Last(bs).count, bs[0].count;
    var q := SmallQuantile(total, count);
    var p := q / 2.0;
    assert RankOf(bs, p) == RankOf(bs, q) / 2.0;
    assert RankOf(bs, q) > 0.0;
    LandsInFirst(bs, q);
    LandsInFirst(bs, p);
    InterpolateBackwards(bs[0].le.r, RankOf(bs, q), count);
    assert QuantileOf(bs, q).value < QuantileOf(bs, p).value;
  }

  /** Estimates are ordered like their quantiles exactly when the first bucket does
      not hold observations below zero. */
  lemma MonotoneExactly(bs: seq<Bucket>)
    requires Cumulative(bs)
    ensures MonotoneInQ(bs) <==> FirstEdgeOk(bs)
  {
    if FirstEdgeOk(bs) {
      forall p, q | Proper(p) && Proper(q) && p <= q && QuantileOf(bs, p).Some? && QuantileOf(bs, q).Some?
        ensures QuantileOf(bs, p).value <= QuantileOf(bs, q).value
      {
        QuantileOrder(bs, p, q);
      }
    } else {
      BackwardsBelowZero(bs);
    }
  }

  // ── What the estimate is, in the buckets' own numbers ────────

  /** The rank falls in bucket i: past everything below, within its count. */
  predicate FallsIn(bs: seq<Bucket>, rank: real, i: nat) {
    i < |bs| && CountBelow(bs, i) < rank <= bs[i].count
  }

  /** A proper quantile of anything counted is the estimate at the q-th part of the count. */
  lemma QuantileAtShare(bs: seq<Bucket>, q: real, rank: real)
    requires bs != [] ==> rank == q * bs[|bs| - 1].count
    ensures QuantileOf(bs, q) ==
            if 0.0 < q < 1.0 && bs != [] && bs[|bs| - 1].count > 0.0 then Estimate(bs, rank) else None
  {
    assert bs != [] ==> RankOf(bs, q) == rank;
  }

  lemma FallsWhereFound(bs: seq<Bucket>, rank: real, i: nat)
    requires Cumulative(bs) && FallsIn(bs, rank, i)
    ensures Estimate(bs, rank) == EstimateAt(bs, i, rank)
  {
    assert Reaches(bs, rank)(i);
    assert forall j :: 0 <= j < i ==> bs[j].count <= bs[i - 1].count;
    assert FoundAt(bs, rank) == i;
  }

  lemma LinearPart(lower: real, upper: real, part: real, span: real)
    requires span > 0.0
    ensures (Interpolate(lower, upper, part, span) - lower) * span == (upper - lower) * part
  {
    var t := part / span;
    assert t * span == part;
    assert (upper - lower) * t * span == (upper - lower) * (t * span);
  }

  /** Within a bucket with a finite boundary the estimate moves linearly with the rank: its
      way above the lower edge is to the bucket's width as the rank's way above the count
      below is to the bucket's population. */
  lemma LinearInBucket(bs: seq<Bucket>, rank: real, i: nat)
    requires Cumulative(bs) && FallsIn(bs, rank, i) && bs[i].le.Finite?
    ensures Estimate(bs, rank).Some?
    ensures (Estimate(bs, rank).value - LowerEdge(bs, i)) * (bs[i].count - CountBelow(bs, i))
            == (bs[i].le.r - LowerEdge(bs, i)) * (rank - CountBelow(bs, i))
  {
    FallsWhereFound(bs, rank, i);
    LinearPart(LowerEdge(bs, i), bs[i].le.r, rank - CountBelow(bs, i), bs[i].count - CountBelow(bs, i));
  }

  lemma LastFiniteBelowOpen(bs: seq<Bucket>)
    requires Ascending(bs) && bs != [] && Last(bs).le.PosInf?
    requires forall i :: 0 <= i < |bs| ==> bs[i].le.Finite? || bs[i].le.PosInf?
    ensures LastFinite(bs) == if |bs| == 1 then None else Some(bs[|bs| - 2].le.r)
  {
    var before := bs[..|bs| - 1];
    assert LastFinite(bs) == LastFinite(before);
    if before != [] {
      assert EdgeLess(bs[|bs| - 2].le, bs[|bs| - 1].le) && Last(before) == bs[|bs| - 2];
    }
  }

  lemma OpenIsLast(bs: seq<Bucket>, i: nat)
    requires Ascending(bs) && i < |bs| && bs[i].le.PosInf?
    ensures i == |bs| - 1
  {
    assert i < |bs| - 1 ==> EdgeLess(bs[i].le, bs[|bs| - 1].le);
  }

  /** In the open bucket it is the largest finite boundary, if there is one. */
  lemma LargestInOpenBucket(bs: seq<Bucket>, rank: real, i: nat)
    requires Cumulative(bs) && FallsIn(bs, rank, i) && bs[i].le.PosInf?
    ensures i == |bs| - 1
    ensures Estimate(bs, rank) == if i == 0 then None else Some(bs[i - 1].le.r)
  {
    OpenIsLast(bs, i);
    FallsWhereFound(bs, rank, i);
    LastFiniteBelowOpen(bs);
  }

  lemma AtUpperEdge(est: real, lower: real, upper: real, rank: real, below: real, count: real)
    requires (est - lower) * (count - below) == (upper - lower) * (rank - below)
    requires rank == count && below < count
    ensures est == upper
  {
    assert (est - upper) * (count - below) == 0.0;
  }

  /** Where the rank is exactly a bucket's cumulative count, the estimate is exactly the
      bucket's boundary. */
  lemma BoundaryAtCount(bs: seq<Bucket>, rank: real, i: nat)
    requires Cumulative(bs) && FallsIn(bs, rank, i) && bs[i].le.Finite?
    requires rank == bs[i].count
    ensures Estimate(bs, rank) == Some(bs[i].le.r)
  {
    LinearInBucket(bs, rank, i);
    AtUpperEdge(Estimate(bs, rank).value, LowerEdge(bs, i), bs[i].le.r, rank, CountBelow(bs, i), bs[i].count);
  }

  // ── Continuity ────────

  function Distance(a: real, b: real): real {
    if a < b then b - a else a - b
  }

  /** A step that is to d as a width is to a population is below eps once d is small. */
  lemma SmallStep(step: real, population: real, width: real, d: real, eps: real)
    requires population > 0.0 && width >= 0.0 && 0.0 <= d
    requires step * population == width * d
    requires d * (width + 1.0) < eps * population
    ensures step < eps
  {
    assert width * d <= d * (width + 1.0);
    assert (eps - step) * population > 0.0;
    W.NonNegativeFactor(eps - step, population);
  }

  /** How near a rank must be to a bucket's count, inside the bucket, for the estimate to be
      within eps of its boundary. */
  function Tolerance(population: real, width: real, eps: real): (d: real)
    requires population > 0.0 && width >= 0.0 && eps > 0.0
    ensures d > 0.0 && d * (width + 1.0) == eps * population
  {
    assert eps * population > 0.0;
    var d := eps * population / (width + 1.0);
    assert d * (width + 1.0) == eps * population;
    W.NonNegativeFactor(d, width + 1.0);
    d
  }

  lemma ProductNonNegative(a: real, b: real)
    requires a >= 0.0 && b >= 0.0
    ensures a * b >= 0.0
  {
  }

  /** Dividing out the population keeps the distance on the line's side. */
  lemma ScaledDistance(a: real, b: real, n: real, width: real, part: real)
    requires n > 0.0 && part >= 0.0 && (a - b) * n == width * part
    ensures Distance(a, b) * n == Distance(width, 0.0) * part
  {
    if width >= 0.0 {
      ProductNonNegative(width, part);
      W.NonNegativeFactor(a - b, n);
    } else {
      assert (b - a) * n == (-width) * part;
      ProductNonNegative(-width, part);
      W.NonNegativeFactor(b - a, n);
    }
  }

  lemma Scaled(a: real, b: real, f: real)
    requires a < b && f > 0.0
    ensures a * f < b * f
  {
  }

  lemma Close(a: real, b: real, n: real, width: real, part: real, eps: real)
    requires n > 0.0 && part >= 0.0 && eps > 0.0 && (a - b) * n == width * part
    requires part < Tolerance(n, Distance(width, 0.0), eps)
    ensures Distance(a, b) < eps
  {
    var w := Distance(width, 0.0);
    ScaledDistance(a, b, n, width, part);
    Scaled(part, Tolerance(n, w, eps), w + 1.0);
    SmallStep(Distance(a, b), n, w, part, eps);
  }

  lemma InterpolateNearUpper(lower: real, upper: real, part: real, span: real, eps: real)
    requires 0.0 < part <= span && eps > 0.0 && span - part < Tolerance(span, Distance(upper - lower, 0.0), eps)
    ensures Distance(Interpolate(lower, upper, part, span), upper) < eps
  {
    var est := Interpolate(lower, upper, part, span);
    LinearPart(lower, upper, part, span);
    assert (upper - est) * span == (upper - lower) * span - (est - lower) * span;
    assert (upper - lower) * span - (upper - lower) * part == (upper - lower) * (span - part);
    Close(upper, est, span, upper - lower, span - part, eps);
  }

  lemma InterpolateNearLower(lower: real, upper: real, part: real, span: real, eps: real)
    requires 0.0 < part <= span && eps > 0.0 && part < Tolerance(span, Distance(upper - lower, 0.0), eps)
    ensures Distance(Interpolate(lower, upper, part, span), lower) < eps
  {
    LinearPart(lower, upper, part, span);
    Close(Interpolate(lower, upper, part, span), lower, span, upper - lower, part, eps);
  }

  function ToleranceAt(bs: seq<Bucket>, i: nat, eps: real): (d: real)
    requires i < |bs| && bs[i].le.Finite? && CountBelow(bs, i) < bs[i].count && eps > 0.0
    ensures d > 0.0
  {
    Tolerance(bs[i].count - CountBelow(bs, i), Distance(bs[i].le.r - LowerEdge(bs, i), 0.0), eps)
  }

  lemma NearUpper(bs: seq<Bucket>, rank: real, i: nat, eps: real)
    requires Cumulative(bs) && FallsIn(bs, rank, i) && bs[i].le.Finite? && eps > 0.0
    requires bs[i].count - rank < ToleranceAt(bs, i, eps)
    ensures Estimate(bs, rank).Some? && Distance(Estimate(bs, rank).value, bs[i].le.r) < eps
  {
    FallsWhereFound(bs, rank, i);
    InterpolateNearUpper(LowerEdge(bs, i), bs[i].le.r, rank - CountBelow(bs, i), bs[i].count - CountBelow(bs, i), eps);
  }

  lemma NearLower(bs: seq<Bucket>, rank: real, i: nat, eps: real)
    requires Cumulative(bs) && FallsIn(bs, rank, i) && bs[i].le.Finite? && eps > 0.0
    requires rank - CountBelow(bs, i) < ToleranceAt(bs, i, eps)
    ensures Estimate(bs, rank).Some? && Distance(Estimate(bs, rank).value, LowerEdge(bs, i)) < eps
  {
    FallsWhereFound(bs, rank, i);
    InterpolateNearLower(LowerEdge(bs, i), bs[i].le.r, rank - CountBelow(bs, i), bs[i].count - CountBelow(bs, i), eps);
  }

  function Least(a: real, b: real): real {
    if a < b then a else b
  }

  /** Estimates have no jump where two populated buckets with finite boundaries meet: near
      enough to the first one's count, they are as near as wanted to its boundary. */
  lemma ContinuousAtBoundary(bs: seq<Bucket>, i: nat, eps: real) returns (d: real)
    requires Cumulative(bs) && i + 1 < |bs| && bs[i + 1].le.Finite? && eps > 0.0
    requires CountBelow(bs, i) < bs[i].count < bs[i + 1].count
    ensures d > 0.0 && bs[i].le.Finite?
    ensures forall rank :: Distance(rank, bs[i].count) < d ==>
              Estimate(bs, rank).Some? && Distance(Estimate(bs, rank).value, bs[i].le.r) < eps
  {
    assert EdgeLess(bs[i].le, bs[i + 1].le);
    var edge, count := bs[i].le.r, bs[i].count;
    d := Least(Least(count - CountBelow(bs, i), bs[i + 1].count - count),
               Least(ToleranceAt(bs, i, eps), ToleranceAt(bs, i + 1, eps)));
    forall rank | Distance(rank, count) < d
      ensures Estimate(bs, rank).Some? && Distance(Estimate(bs, rank).value, bs[i].le.r) < eps
    {
      if rank <= count {
        NearUpper(bs, rank, i, eps);
      } else {
        NearLower(bs, rank, i + 1, eps);
      }
    }
  }
}
