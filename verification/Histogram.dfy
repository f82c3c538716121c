/** The demo server's histogram (internal/demo/server.go) as a producer of cumulative
    buckets, and the proof that quantiles scraped from it are faithful: the estimate
    lies in the bucket of the observation it stands for. */
module Histogram {
  import opened Basics
  import opened Telemetry
  import opened Quantile
  import opened QuantileLaws

  // ── Buckets of observations ────────

  /** What observe accepts: anything but NaN and negative values. */
  predicate Observable(v: Number) {
    v.PosInf? || (v.Finite? && v.r >= 0.0)
  }

  ghost predicate AscendingBounds(bounds: seq<real>) {
    forall i, j :: 0 <= i < j < |bounds| ==> bounds[i] < bounds[j]
  }

  predicate AtMost(v: Number, b: real) {
    v.Finite? && v.r <= b
  }

  function Fits(bounds: seq<real>, v: Number): nat -> bool {
    (i: nat) => i < |bounds| && AtMost(v, bounds[i])
  }

  /** sort.SearchFloat64s: the first boundary at or above v, or one past the last. */
  function BucketIndex(bounds: seq<real>, v: Number): (i: nat)
    ensures i <= |bounds|
  {
    FirstIndex(|bounds|, 0, Fits(bounds, v))
  }

  lemma BucketIndexUpTo(bounds: seq<real>, v: Number, i: nat)
    requires AscendingBounds(bounds) && i < |bounds|
    ensures BucketIndex(bounds, v) <= i <==> AtMost(v, bounds[i])
  {
    var k := BucketIndex(bounds, v);
    if k <= i {
      assert Fits(bounds, v)(k);
    } else {
      assert !Fits(bounds, v)(i);
    }
  }

  /** How many observations fall in one of the buckets 0..i. */
  function CountUpTo(bounds: seq<real>, obs: seq<Number>, i: nat): nat {
    if obs == [] then 0
    else CountUpTo(bounds, obs[..|obs| - 1], i) + (if BucketIndex(bounds, Last(obs)) <= i then 1 else 0)
  }

  function CountIn(bounds: seq<real>, obs: seq<Number>, i: nat): nat {
    if obs == [] then 0
    else CountIn(bounds, obs[..|obs| - 1], i) + (if BucketIndex(bounds, Last(obs)) == i then 1 else 0)
  }

  lemma {:induction false} CountStep(bounds: seq<real>, obs: seq<Number>, i: nat)
    ensures CountUpTo(bounds, obs, i + 1) == CountUpTo(bounds, obs, i) + CountIn(bounds, obs, i + 1)
    ensures CountUpTo(bounds, obs, 0) == CountIn(bounds, obs, 0)
  {
    if obs != [] {
      CountStep(bounds, obs[..|obs| - 1], i);
    }
  }

  lemma {:induction false} CountMonotone(bounds: seq<real>, obs: seq<Number>, i: nat, j: nat)
    requires i <= j
    ensures CountUpTo(bounds, obs, i) <= CountUpTo(bounds, obs, j) <= |obs|
  {
    if obs != [] {
      CountMonotone(bounds, obs[..|obs| - 1], i, j);
    }
  }

  lemma {:induction false} CountAll(bounds: seq<real>, obs: seq<Number>, i: nat)
    requires i >= |bounds|
    ensures CountUpTo(bounds, obs, i) == |obs|
  {
    if obs != [] {
      CountAll(bounds, obs[..|obs| - 1], i);
    }
  }

  lemma {:induction false} CountJoin(bounds: seq<real>, xs: seq<Number>, ys: seq<Number>, i: nat)
    ensures CountUpTo(bounds, xs + ys, i) == CountUpTo(bounds, xs, i) + CountUpTo(bounds, ys, i)
  {
    if ys == [] {
      assert xs + ys == xs;
    } else {
      assert (xs + ys)[..|xs + ys| - 1] == xs + ys[..|ys| - 1];
      CountJoin(bounds, xs, ys[..|ys| - 1], i);
    }
  }

  lemma {:induction false} CountPermuted(bounds: seq<real>, xs: seq<Number>, ys: seq<Number>, i: nat)
    requires multiset(xs) == multiset(ys)
    ensures CountUpTo(bounds, xs, i) == CountUpTo(bounds, ys, i)
  {
    if xs == [] {
      PermutedEmpty(ys);
    } else {
      var j := PermutedLast(xs, ys);
      CountPermuted(bounds, xs[..|xs| - 1], ys[..j] + ys[j + 1..], i);
      CountJoin(bounds, ys[..j], ys[j + 1..], i);
      CountJoin(bounds, ys[..j] + [ys[j]], ys[j + 1..], i);
      CountJoin(bounds, ys[..j], [ys[j]], i);
      SplitAround(ys, j);
      assert [ys[j]][..0] == [];
    }
  }

  /** That is how many do not exceed its boundary. */
  lemma {:induction false} CountsAtMost(bounds: seq<real>, obs: seq<Number>, i: nat)
    requires AscendingBounds(bounds) && i < |bounds|
    ensures CountUpTo(bounds, obs, i) == |Keep(obs, (v: Number) => v.Finite? && v.r <= bounds[i])|
  {
    if obs != [] {
      CountsAtMost(bounds, obs[..|obs| - 1], i);
      BucketIndexUpTo(bounds, Last(obs), i);
    }
  }

  // ── Scraped buckets of one engine, and of several ────────

  function EdgeAt(bounds: seq<real>, i: nat): Number {
    if i < |bounds| then Finite(bounds[i]) else PosInf
  }

  /** The cumulative distribution of some observations. */
  function CumulativeOf(bounds: seq<real>, obs: seq<Number>): seq<Bucket> {
    seq(|bounds| + 1, i requires 0 <= i < |bounds| + 1 =>
      Bucket(EdgeAt(bounds, i), CountUpTo(bounds, obs, i) as real))
  }

  /** The raw buckets a scrape of several engines with equal bounds contains. */
  function PooledRaw(bounds: seq<real>, engines: seq<seq<Number>>): seq<Bucket> {
    if engines == [] then []
    else PooledRaw(bounds, engines[..|engines| - 1]) + CumulativeOf(bounds, Last(engines))
  }

  function Pooled(engines: seq<seq<Number>>): seq<Number> {
    if engines == [] then [] else Pooled(engines[..|engines| - 1]) + Last(engines)
  }

  lemma {:induction false} SumAtJoin(xs: seq<Bucket>, ys: seq<Bucket>, le: Number)
    ensures SumAt(xs + ys, le) == SumAt(xs, le) + SumAt(ys, le)
  {
    if ys == [] {
      assert xs + ys == xs;
    } else {
      assert (xs + ys)[..|xs + ys| - 1] == xs + ys[..|ys| - 1];
      SumAtJoin(xs, ys[..|ys| - 1], le);
    }
  }

  /** A boundary occurs once among an engine's own buckets. */
  lemma {:induction false} SumAtPrefix(bs: seq<Bucket>, i: nat, n: nat)
    requires n <= |bs| && i < |bs| && Ascending(bs)
    ensures SumAt(bs[..n], bs[i].le) == if i < n then bs[i].count else 0.0
  {
    if n > 0 {
      assert bs[..n][..n - 1] == bs[..n - 1];
      SumAtPrefix(bs, i, n - 1);
      if i < n - 1 {
        assert EdgeLess(bs[i].le, bs[n - 1].le);
      } else if n - 1 < i {
        assert EdgeLess(bs[n - 1].le, bs[i].le);
      }
    }
  }

  lemma CumulativeAscending(bounds: seq<real>, obs: seq<Number>)
    requires AscendingBounds(bounds)
    ensures Ascending(CumulativeOf(bounds, obs)) && Cumulative(CumulativeOf(bounds, obs))
  {
    var bs := CumulativeOf(bounds, obs);
    forall i, j | 0 <= i <= j < |bs| ensures bs[i].count <= bs[j].count {
      CountMonotone(bounds, obs, i, j);
    }
  }

  lemma {:induction false} PooledSum(bounds: seq<real>, engines: seq<seq<Number>>, i: nat)
    requires AscendingBounds(bounds) && i <= |bounds|
    ensures SumAt(PooledRaw(bounds, engines), EdgeAt(bounds, i)) == CountUpTo(bounds, Pooled(engines), i) as real
  {
    if engines != [] {
      var before, last := engines[..|engines| - 1], Last(engines);
      PooledSum(bounds, before, i);
      var bs := CumulativeOf(bounds, last);
      SumAtJoin(PooledRaw(bounds, before), bs, EdgeAt(bounds, i));
      CumulativeAscending(bounds, last);
      assert bs[..|bs|] == bs;
      SumAtPrefix(bs, i, |bs|);
      CountJoin(bounds, Pooled(before), last, i);
    }
  }

  lemma EdgesOfCumulative(bounds: seq<real>, xs: seq<Number>, ys: seq<Number>)
    ensures Edges(CumulativeOf(bounds, xs)) == Edges(CumulativeOf(bounds, ys))
  {
    var bs, cs := CumulativeOf(bounds, xs), CumulativeOf(bounds, ys);
    forall le | le in Edges(bs) ensures le in Edges(cs) {
      var i :| 0 <= i < |bs| && bs[i].le == le;
      assert cs[i] in cs && cs[i].le == le;
    }
    forall le | le in Edges(cs) ensures le in Edges(bs) {
      var i :| 0 <= i < |cs| && cs[i].le == le;
      assert bs[i] in bs && bs[i].le == le;
    }
  }

  lemma EdgesJoin(xs: seq<Bucket>, ys: seq<Bucket>)
    ensures Edges(xs + ys) == Edges(xs) + Edges(ys)
  {
    assert forall b :: b in xs + ys <==> b in xs || b in ys;
  }

  lemma {:induction false} PooledEdges(bounds: seq<real>, engines: seq<seq<Number>>, obs: seq<Number>)
    requires engines != []
    ensures Edges(PooledRaw(bounds, engines)) == Edges(CumulativeOf(bounds, obs))
  {
    var before, last := engines[..|engines| - 1], Last(engines);
    EdgesJoin(PooledRaw(bounds, before), CumulativeOf(bounds, last));
    EdgesOfCumulative(bounds, last, obs);
    if before != [] {
      PooledEdges(bounds, before, obs);
    }
  }

  /** Aggregating the engines' buckets yields the cumulative distribution of all
      their observations together. */
  lemma PooledDistribution(bounds: seq<real>, engines: seq<seq<Number>>, bs: seq<Bucket>)
    requires AscendingBounds(bounds) && engines != []
    requires IsDistribution(PooledRaw(bounds, engines), bs)
    ensures bs == CumulativeOf(bounds, Pooled(engines))
  {
    var raw, obs := PooledRaw(bounds, engines), Pooled(engines);
    var all := CumulativeOf(bounds, obs);
    CumulativeAscending(bounds, obs);
    PooledEdges(bounds, engines, obs);
    forall i | 0 <= i < |all| ensures RunningMax(raw, all, i) {
      forall j | 0 <= j <= i ensures SumAt(raw, all[j].le) == all[j].count <= all[i].count {
        PooledSum(bounds, engines, j);
      }
    }
    assert IsDistribution(raw, all);
    assert NaN !in Edges(all);
    DistributionUnique(raw, raw, bs, all);
  }

  // ── The observation a quantile stands for ────────

  /** The observations in ascending order. */
  ghost predicate SortedObservations(obs: seq<Number>, sorted: seq<Number>) {
    && multiset(sorted) == multiset(obs)
    && forall i, j :: 0 <= i < j < |sorted| ==> !EdgeLess(sorted[j], sorted[i])
  }

  lemma BucketIndexMonotone(bounds: seq<real>, v: Number, w: Number)
    requires AscendingBounds(bounds) && Observable(v) && Observable(w) && !EdgeLess(w, v)
    ensures BucketIndex(bounds, v) <= BucketIndex(bounds, w)
  {
    var k := BucketIndex(bounds, w);
    if k < |bounds| {
      BucketIndexUpTo(bounds, w, k);
      BucketIndexUpTo(bounds, v, k);
    }
  }

  /** In a sorted sequence, the k-th element is in bucket 0..i exactly when at least k
      elements are. */
  lemma {:induction false} RankInBucket(bounds: seq<real>, sorted: seq<Number>, k: nat, i: nat)
    requires AscendingBounds(bounds) && 0 < k <= |sorted|
    requires forall v :: v in sorted ==> Observable(v)
    requires forall a, b :: 0 <= a < b < |sorted| ==> !EdgeLess(sorted[b], sorted[a])
    ensures BucketIndex(bounds, sorted[k - 1]) <= i <==> CountUpTo(bounds, sorted, i) >= k
  {
    var n := |sorted| - 1;
    CountMonotone(bounds, sorted[..n], i, i);
    if k <= n {
      RankInBucket(bounds, sorted[..n], k, i);
      BucketIndexMonotone(bounds, sorted[k - 1], sorted[n]);
    } else if BucketIndex(bounds, sorted[n]) <= i {
      forall a | 0 <= a < n ensures BucketIndex(bounds, sorted[..n][a]) <= i {
        BucketIndexMonotone(bounds, sorted[a], sorted[n]);
      }
      CountEvery(bounds, sorted[..n], i);
    }
  }

  lemma {:induction false} CountEvery(bounds: seq<real>, obs: seq<Number>, i: nat)
    requires forall a :: 0 <= a < |obs| ==> BucketIndex(bounds, obs[a]) <= i
    ensures CountUpTo(bounds, obs, i) == |obs|
  {
    if obs != [] {
      CountEvery(bounds, obs[..|obs| - 1], i);
    }
  }

  lemma SortedSame(obs: seq<Number>, sorted: seq<Number>)
    requires SortedObservations(obs, sorted) && forall v :: v in obs ==> Observable(v)
    ensures |sorted| == |obs| && forall v :: v in sorted ==> Observable(v)
  {
    assert |multiset(sorted)| == |sorted| && |multiset(obs)| == |obs|;
    assert forall v :: v in sorted ==> v in multiset(obs);
  }

  /** The population of the bucket the search finds straddles the rank. */
  lemma FoundCounts(bounds: seq<real>, obs: seq<Number>, rank: real)
    requires AscendingBounds(bounds) && 0.0 < rank <= |obs| as real
    ensures var idx := FoundAt(CumulativeOf(bounds, obs), rank);
            && idx <= |bounds|
            && rank <= CountUpTo(bounds, obs, idx) as real
            && (idx > 0 ==> (CountUpTo(bounds, obs, idx - 1) as real) < rank)
    ensures InRange(CumulativeOf(bounds, obs), rank)
  {
    var bs := CumulativeOf(bounds, obs);
    CumulativeAscending(bounds, obs);
    CountAll(bounds, obs, |bounds|);
    FallbacksUnreachable(bs, rank);
  }

  /** The k-th smallest observation, for k the rank rounded up, falls in the bucket
      the search finds. */
  lemma RankBucket(bounds: seq<real>, obs: seq<Number>, rank: real, sorted: seq<Number>, k: nat)
    requires AscendingBounds(bounds) && 0.0 < rank <= |obs| as real
    requires forall v :: v in obs ==> Observable(v)
    requires SortedObservations(obs, sorted)
    requires k as real - 1.0 < rank <= k as real
    ensures 0 < k <= |sorted|
    ensures FoundAt(CumulativeOf(bounds, obs), rank) == BucketIndex(bounds, sorted[k - 1])
  {
    SortedSame(obs, sorted);
    FoundCounts(bounds, obs, rank);
    var idx := FoundAt(CumulativeOf(bounds, obs), rank);
    CountPermuted(bounds, sorted, obs, idx);
    RankInBucket(bounds, sorted, k, idx);
    if idx > 0 {
      CountPermuted(bounds, sorted, obs, idx - 1);
      RankInBucket(bounds, sorted, k, idx - 1);
    }
  }

  /** Where the estimate itself lies. */
  lemma EstimateBucket(bounds: seq<real>, obs: seq<Number>, rank: real)
    requires AscendingBounds(bounds) && bounds != [] && 0.0 < rank <= |obs| as real
    requires forall v :: v in obs ==> Observable(v)
    ensures var bs := CumulativeOf(bounds, obs);
            var idx := FoundAt(bs, rank);
            && Estimate(bs, rank).Some?
            && if idx < |bounds| then BucketIndex(bounds, Finite(Estimate(bs, rank).value)) == idx
               else Estimate(bs, rank).value == Last(bounds)
  {
    var bs := CumulativeOf(bounds, obs);
    var idx := FoundAt(bs, rank);
    CumulativeAscending(bounds, obs);
    CountAll(bounds, obs, |bounds|);
    FirstEdge(bounds, obs);
    EstimateInBucket(bs, rank);
    if idx < |bounds| {
      var r := Estimate(bs, rank).value;
      BucketIndexUpTo(bounds, Finite(r), idx);
      if idx > 0 {
        BucketIndexUpTo(bounds, Finite(r), idx - 1);
      }
    } else {
      assert bs[..|bs| - 1][|bounds| - 1] == Bucket(Finite(Last(bounds)), bs[|bounds| - 1].count);
    }
  }

  /** The estimate r stands for the observation x: the same bucket, or, above every
      finite boundary, the largest one. */
  ghost predicate Faithful(bounds: seq<real>, r: real, x: Number) {
    if BucketIndex(bounds, x) < |bounds|
    then BucketIndex(bounds, Finite(r)) == BucketIndex(bounds, x)
    else bounds != [] && r == Last(bounds) && EdgeLess(Finite(r), x)
  }

  /** In the boundaries' own numbers: no boundary lies between the estimate and an
      observation below the last of them. */
  lemma FaithfulExactly(bounds: seq<real>, r: real, x: real)
    requires AscendingBounds(bounds) && bounds != []
    ensures Faithful(bounds, r, Finite(x)) <==>
            if x <= bounds[|bounds| - 1] then forall i :: 0 <= i < |bounds| ==> (r <= bounds[i] <==> x <= bounds[i])
            else r == bounds[|bounds| - 1]
  {
    var p, q, last := BucketIndex(bounds, Finite(r)), BucketIndex(bounds, Finite(x)), |bounds| - 1;
    forall i | 0 <= i < |bounds|
      ensures p <= i <==> r <= bounds[i]
      ensures q <= i <==> x <= bounds[i]
    {
      BucketIndexUpTo(bounds, Finite(r), i);
      BucketIndexUpTo(bounds, Finite(x), i);
    }
    if x <= bounds[last] && p != q {
      var i := if p < q then p else q;
      assert i < |bounds| && (p <= i <==> r <= bounds[i]) && (q <= i <==> x <= bounds[i]);
    }
  }

  lemma EstimateFaithful(bounds: seq<real>, obs: seq<Number>, rank: real, sorted: seq<Number>, k: nat)
    requires AscendingBounds(bounds) && bounds != [] && 0.0 < rank <= |obs| as real
    requires forall v :: v in obs ==> Observable(v)
    requires SortedObservations(obs, sorted)
    requires k as real - 1.0 < rank <= k as real
    ensures 0 < k <= |sorted| && Estimate(CumulativeOf(bounds, obs), rank).Some?
    ensures Faithful(bounds, Estimate(CumulativeOf(bounds, obs), rank).value, sorted[k - 1])
  {
    RankBucket(bounds, obs, rank, sorted, k);
    EstimateBucket(bounds, obs, rank);
    SortedSame(obs, sorted);
    assert sorted[k - 1] in sorted;
    BucketIndexUpTo(bounds, sorted[k - 1], |bounds| - 1);
  }

  /** The rank of q among n observations. */
  function RankAmong(q: real, n: nat): real {
    q * n as real
  }

  lemma CumulativeQuantile(bounds: seq<real>, obs: seq<Number>, q: real)
    requires Proper(q) && obs != []
    ensures 0.0 < RankAmong(q, |obs|) <= |obs| as real
    ensures QuantileOf(CumulativeOf(bounds, obs), q) == Estimate(CumulativeOf(bounds, obs), RankAmong(q, |obs|))
  {
    var bs := CumulativeOf(bounds, obs);
    CumulativeTotal(bounds, obs);
    RankAmongInside(q, |obs|);
    RankOfTotal(bs, q, |obs|);
    QuantileAtRank(bs, q, RankAmong(q, |obs|));
  }

  lemma RankAmongInside(q: real, n: nat)
    requires Proper(q) && n > 0
    ensures 0.0 < RankAmong(q, n) <= n as real
  {
    RankInside(q, n as real);
  }

  lemma CumulativeTotal(bounds: seq<real>, obs: seq<Number>)
    ensures Last(CumulativeOf(bounds, obs)).count == |obs| as real
  {
    CountAll(bounds, obs, |bounds|);
  }

  lemma RankOfTotal(bs: seq<Bucket>, q: real, n: nat)
    requires bs != [] && Last(bs).count == n as real
    ensures RankOf(bs, q) == RankAmong(q, n)
  {
  }

  lemma QuantileAtRank(bs: seq<Bucket>, q: real, rank: real)
    requires Proper(q) && bs != [] && Last(bs).count > 0.0 && RankOf(bs, q) == rank
    ensures QuantileOf(bs, q) == Estimate(bs, rank)
  {
  }

  /** Quantiles of scraped histograms are faithful. Whatever the observations of any
      number of engines with equal ascending bounds, the estimate for q lies in the
      bucket of the ceil(q n)-th smallest observation; and when that observation
      exceeds every finite boundary, the estimate is the largest one, strictly below
      it. */
  lemma QuantileFaithful(bounds: seq<real>, engines: seq<seq<Number>>, bs: seq<Bucket>,
                         q: real, sorted: seq<Number>, k: nat)
    requires AscendingBounds(bounds) && bounds != [] && Proper(q)
    requires Pooled(engines) != [] && forall v :: v in Pooled(engines) ==> Observable(v)
    requires IsDistribution(PooledRaw(bounds, engines), bs)
    requires SortedObservations(Pooled(engines), sorted)
    requires k as real - 1.0 < RankAmong(q, |Pooled(engines)|) <= k as real
    ensures 0 < k <= |sorted| && QuantileOf(bs, q).Some?
    ensures Faithful(bounds, QuantileOf(bs, q).value, sorted[k - 1])
  {
    var obs := Pooled(engines);
    PooledDistribution(bounds, engines, bs);
    CumulativeQuantile(bounds, obs, q);
    EstimateFaithful(bounds, obs, RankAmong(q, |obs|), sorted, k);
  }

  /** Non-negative observations leave nothing in a first bucket that ends below zero. */
  lemma {:induction false} FirstEdge(bounds: seq<real>, obs: seq<Number>)
    requires AscendingBounds(bounds) && bounds != []
    requires forall v :: v in obs ==> Observable(v)
    ensures bounds[0] < 0.0 ==> CountUpTo(bounds, obs, 0) == 0
    ensures FirstEdgeOk(CumulativeOf(bounds, obs))
  {
    if obs != [] {
      FirstEdge(bounds, obs[..|obs| - 1]);
      assert Last(obs) in obs;
      BucketIndexUpTo(bounds, Last(obs), 0);
    }
  }
}
