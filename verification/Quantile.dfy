/** Histogram quantiles from scraped buckets (promtext/parse.go): aggregation of the
    _bucket series into one cumulative distribution, and linear interpolation. */
module Quantile {
  import opened Basics
  import opened Telemetry
  import opened Text
  import opened Promtext

  datatype Bucket = Bucket(le: Number, count: real)

  /** The order of boundaries; NaN boundaries never get this far. */
  predicate EdgeLess(a: Number, b: Number) {
    match a
    case NegInf => b.Finite? || b.PosInf?
    case Finite(x) => b.PosInf? || (b.Finite? && x < b.r)
    case _ => false
  }

  lemma EdgeOrder(edges: set<Number>)
    requires NaN !in edges
    ensures StrictOrderOn(edges, EdgeLess)
  {
  }

  // ── From samples to raw buckets ────────

  /** A sample counts when its le label parses to a number and neither is NaN. */
  function BucketOf(s: Sample, c: Codec): Option<Bucket> {
    if "le" !in s.labels then None
    else
      match ParseValue(s.labels["le"], c)
      case None => None
      case Some(le) =>
        if le == NaN || s.value == NaN then None
        else Some(Bucket(le, if s.value.Finite? then s.value.r else 0.0))
  }

  /** Counts are finite numbers and no boundary is minus infinity. */
  predicate FiniteCounts(samples: seq<Sample>, c: Codec) {
    forall i :: 0 <= i < |samples| && BucketOf(samples[i], c).Some? ==>
      samples[i].value.Finite? && BucketOf(samples[i], c).value.le != NegInf
  }

  function RawBuckets(samples: seq<Sample>, c: Codec): seq<Bucket> {
    if samples == [] then []
    else
      var before := RawBuckets(samples[..|samples| - 1], c);
      match BucketOf(Last(samples), c)
      case None => before
      case Some(b) => before + [b]
  }

  lemma {:induction false} RawEdges(samples: seq<Sample>, c: Codec)
    ensures forall b :: b in RawBuckets(samples, c) ==> b.le != NaN
    ensures FiniteCounts(samples, c) ==> forall b :: b in RawBuckets(samples, c) ==> b.le != NegInf
  {
    if samples != [] {
      RawEdges(samples[..|samples| - 1], c);
      assert samples[|samples| - 1] == Last(samples);
    }
  }

  function Edges(raw: seq<Bucket>): set<Number> {
    set b | b in raw :: b.le
  }

  /** Counts that share a boundary are summed. */
  function SumAt(raw: seq<Bucket>, le: Number): real {
    if raw == [] then 0.0
    else SumAt(raw[..|raw| - 1], le) + (if Last(raw).le == le then Last(raw).count else 0.0)
  }

  // ── The cumulative distribution ────────

  ghost predicate Ascending(bs: seq<Bucket>) {
    forall i, j :: 0 <= i < j < |bs| ==> EdgeLess(bs[i].le, bs[j].le)
  }

  /** Each count is the largest sum at its own or an earlier boundary. */
  ghost predicate RunningMax(raw: seq<Bucket>, bs: seq<Bucket>, i: nat)
    requires i < |bs|
  {
    && (forall j :: 0 <= j <= i ==> SumAt(raw, bs[j].le) <= bs[i].count)
    && (exists j :: 0 <= j <= i && SumAt(raw, bs[j].le) == bs[i].count)
  }

  /** What `buckets` promises: every boundary once, strictly increasing, with the
      running maximum of the per-boundary sums. */
  ghost predicate IsDistribution(raw: seq<Bucket>, bs: seq<Bucket>) {
    && Ascending(bs)
    && Edges(bs) == Edges(raw)
    && forall i :: 0 <= i < |bs| ==> RunningMax(raw, bs, i)
  }

  /** byLE holds the summed counts of these buckets by boundary. */
  ghost predicate SumsOf(byLE: map<Number, real>, raw: seq<Bucket>) {
    byLE.Keys == Edges(raw) && forall le :: le in byLE ==> byLE[le] == SumAt(raw, le)
  }

  lemma SumsAdd(byLE: map<Number, real>, raw: seq<Bucket>, b: Bucket)
    requires SumsOf(byLE, raw)
    ensures SumsOf(byLE[b.le := (if b.le in byLE then byLE[b.le] else 0.0) + b.count], raw + [b])
  {
    AddEdge(raw, b);
  }

  /** The accumulation loop: counts per boundary. */
  method SumByEdge(samples: seq<Sample>, c: Codec) returns (byLE: map<Number, real>)
    ensures SumsOf(byLE, RawBuckets(samples, c))
  {
    byLE := map[];
    for i := 0 to |samples|
      invariant SumsOf(byLE, RawBuckets(samples[..i], c))
    {
      assert samples[..i + 1][..i] == samples[..i];
      match BucketOf(samples[i], c) {
        case None =>
        case Some(b) =>
          SumsAdd(byLE, RawBuckets(samples[..i], c), b);
          byLE := byLE[b.le := (if b.le in byLE then byLE[b.le] else 0.0) + b.count];
      }
    }
    assert samples[..|samples|] == samples;
  }

  /** The largest of the first i + 1 elements. */
  function MaxUpTo(xs: seq<real>, i: nat): real
    requires i < |xs|
  {
    if i == 0 || MaxUpTo(xs, i - 1) < xs[i] then xs[i] else MaxUpTo(xs, i - 1)
  }

  lemma {:induction false} MaxUpToIsMax(xs: seq<real>, i: nat)
    requires i < |xs|
    ensures forall j :: 0 <= j <= i ==> xs[j] <= MaxUpTo(xs, i)
    ensures exists j :: 0 <= j <= i && xs[j] == MaxUpTo(xs, i)
  {
    if i == 0 {
      assert xs[0] == MaxUpTo(xs, 0);
    } else {
      MaxUpToIsMax(xs, i - 1);
      assert xs[i] == MaxUpTo(xs, i) || MaxUpTo(xs, i - 1) == MaxUpTo(xs, i);
    }
  }

  /** The in-place clamp: each entry becomes the running maximum. */
  method Clamp(a: array<real>)
    modifies a
    ensures forall i :: 0 <= i < a.Length ==> a[i] == MaxUpTo(old(a[..]), i)
  {
    var i := 1;
    ghost var xs := a[..];
    while i < a.Length
      invariant 1 <= i
      invariant forall k :: 0 <= k < i && k < a.Length ==> a[k] == MaxUpTo(xs, k)
      invariant forall k :: i <= k < a.Length ==> a[k] == xs[k]
    {
      if a[i] < a[i - 1] {
        a[i] := a[i - 1];
      }
      i := i + 1;
    }
  }

  /** Running maxima of the sums, in boundary order. */
  method Cumulate(edges: seq<Number>, sums: seq<real>) returns (out: seq<Bucket>)
    requires |edges| == |sums|
    ensures |out| == |sums|
    ensures forall i :: 0 <= i < |out| ==> out[i] == Bucket(edges[i], MaxUpTo(sums, i))
  {
    var counts := new real[|sums|](i requires 0 <= i < |sums| => sums[i]);
    assert counts[..] == sums;
    Clamp(counts);
    var clamped := counts[..];
    out := seq(|edges|, i requires 0 <= i < |edges| && |edges| <= |clamped| => Bucket(edges[i], clamped[i]));
  }

  method Buckets(mf: Families, family: string, want: Labels, c: Codec) returns (out: seq<Bucket>, ok: bool)
    ensures var raw := RawBuckets(Select(mf, family + "_bucket", want), c);
            ok == (raw != []) && (ok ==> IsDistribution(raw, out))
  {
    var samples := SelectSamples(mf, family + "_bucket", want);
    ghost var raw := RawBuckets(samples, c);
    RawEdges(samples, c);
    var byLE := SumByEdge(samples, c);
    if |byLE| == 0 {
      NoEdges(raw);
      return [], false;
    }
    EdgeOrder(byLE.Keys);
    var edges := SortSet(byLE.Keys, EdgeLess);
    var sums := seq(|edges|, i requires 0 <= i < |edges| => if edges[i] in byLE then byLE[edges[i]] else 0.0);
    out := Cumulate(edges, sums);
    assert forall i :: 0 <= i < |edges| ==> edges[i] in Elements(edges);
    Distribution(raw, edges, sums, out);
    return out, true;
  }

  lemma NoEdges(raw: seq<Bucket>)
    ensures Edges(raw) == {} <==> raw == []
  {
    assert raw != [] ==> raw[0].le in Edges(raw);
  }

  lemma AddEdge(raw: seq<Bucket>, b: Bucket)
    ensures Edges(raw + [b]) == Edges(raw) + {b.le}
    ensures forall le :: SumAt(raw + [b], le) == SumAt(raw, le) + (if b.le == le then b.count else 0.0)
    ensures b.le !in Edges(raw) ==> SumAt(raw, b.le) == 0.0
  {
    assert (raw + [b])[..|raw|] == raw;
    forall le ensures le in Edges(raw + [b]) <==> le in Edges(raw) || le == b.le {
      assert b in raw + [b];
    }
    if b.le !in Edges(raw) {
      SumAbsent(raw, b.le);
    }
  }

  lemma {:induction false} SumAbsent(raw: seq<Bucket>, le: Number)
    requires le !in Edges(raw)
    ensures SumAt(raw, le) == 0.0
  {
    if raw != [] {
      assert Last(raw) in raw && Edges(raw[..|raw| - 1]) <= Edges(raw);
      SumAbsent(raw[..|raw| - 1], le);
    }
  }

  lemma Distribution(raw: seq<Bucket>, edges: seq<Number>, sums: seq<real>, bs: seq<Bucket>)
    requires StrictlySorted(edges, EdgeLess) && Elements(edges) == Edges(raw)
    requires |bs| == |edges| == |sums|
    requires forall i :: 0 <= i < |bs| ==> bs[i] == Bucket(edges[i], MaxUpTo(sums, i))
    requires forall i :: 0 <= i < |sums| ==> sums[i] == SumAt(raw, edges[i])
    ensures IsDistribution(raw, bs)
  {
    forall le ensures le in Edges(bs) <==> le in Elements(edges) {
      if le in Elements(edges) {
        var i :| 0 <= i < |edges| && edges[i] == le;
        assert bs[i] in bs;
      }
    }
    forall i | 0 <= i < |bs| ensures RunningMax(raw, bs, i) {
      MaxUpToIsMax(sums, i);
      var j :| 0 <= j <= i && sums[j] == MaxUpTo(sums, i);
      assert SumAt(raw, bs[j].le) == bs[i].count;
    }
  }

  // ── Payload order does not matter ────────

  lemma {:induction false} SumAtPermuted(xs: seq<Bucket>, ys: seq<Bucket>, le: Number)
    requires multiset(xs) == multiset(ys)
    ensures SumAt(xs, le) == SumAt(ys, le)
  {
    if xs == [] {
      PermutedEmpty(ys);
    } else {
      var j := PermutedLast(xs, ys);
      SumAtPermuted(xs[..|xs| - 1], ys[..j] + ys[j + 1..], le);
      SumAtRemove(ys, j, le);
    }
  }

  lemma {:induction false} SumAtRemove(ys: seq<Bucket>, j: nat, le: Number)
    requires j < |ys|
    ensures SumAt(ys, le) == SumAt(ys[..j] + ys[j + 1..], le) + (if ys[j].le == le then ys[j].count else 0.0)
  {
    var n := |ys| - 1;
    if j == n {
      assert ys[..j] + ys[j + 1..] == ys[..n];
    } else {
      var shorter := ys[..n];
      SumAtRemove(shorter, j, le);
      var rest := ys[..j] + ys[j + 1..];
      assert rest[..|rest| - 1] == shorter[..j] + shorter[j + 1..] && Last(rest) == Last(ys);
    }
  }

  lemma EdgesPermuted(xs: seq<Bucket>, ys: seq<Bucket>)
    requires multiset(xs) == multiset(ys)
    ensures Edges(xs) == Edges(ys)
  {
    assert forall b :: b in xs <==> b in multiset(xs);
    assert forall b :: b in ys <==> b in multiset(ys);
  }

  function EdgesIn(bs: seq<Bucket>): seq<Number> {
    seq(|bs|, i requires 0 <= i < |bs| => bs[i].le)
  }

  /** The distribution depends on the multiset of samples only. */
  lemma DistributionUnique(xs: seq<Bucket>, ys: seq<Bucket>, as': seq<Bucket>, bs: seq<Bucket>)
    requires multiset(xs) == multiset(ys) && NaN !in Edges(xs)
    requires IsDistribution(xs, as') && IsDistribution(ys, bs)
    ensures as' == bs
  {
    EdgesPermuted(xs, ys);
    ElementsOfEdges(as');
    ElementsOfEdges(bs);
    EdgeOrder(Edges(xs));
    SortedUnique(EdgesIn(as'), EdgesIn(bs), EdgeLess);
    assert |as'| == |EdgesIn(as')| == |bs|;
    forall i | 0 <= i < |as'| ensures as'[i] == bs[i] {
      assert forall j :: 0 <= j < |as'| ==> EdgesIn(as')[j] == as'[j].le && EdgesIn(bs)[j] == bs[j].le;
      assert RunningMax(xs, as', i) && RunningMax(ys, bs, i);
      forall j | 0 <= j <= i ensures SumAt(xs, as'[j].le) == SumAt(ys, bs[j].le) {
        SumAtPermuted(xs, ys, as'[j].le);
      }
    }
  }

  lemma ElementsOfEdges(bs: seq<Bucket>)
    ensures Elements(EdgesIn(bs)) == Edges(bs)
  {
    forall le ensures le in Elements(EdgesIn(bs)) <==> le in Edges(bs) {
      if le in Edges(bs) {
        var i :| 0 <= i < |bs| && bs[i].le == le;
        assert EdgesIn(bs)[i] == le;
      }
    }
  }

  // ── Quantiles ────────

  /** The index of the first bucket whose cumulative count reaches the rank. */
  function Reaches(bs: seq<Bucket>, rank: real): nat -> bool {
    (i: nat) => i < |bs| && bs[i].count >= rank
  }

  /** The largest finite boundary. */
  function LastFinite(bs: seq<Bucket>): Option<real> {
    if bs == [] then None
    else if Last(bs).le.Finite? then Some(Last(bs).le.r)
    else LastFinite(bs[..|bs| - 1])
  }

  function Interpolate(lower: real, upper: real, part: real, span: real): real
    requires span > 0.0
  {
    lower + (upper - lower) * (part / span)
  }

  /** The estimate once the bucket is known. */
  function EstimateAt(bs: seq<Bucket>, idx: nat, rank: real): Option<real>
    requires idx < |bs|
  {
    match bs[idx].le
    case Finite(upper) =>
      var lower := if idx > 0 && bs[idx - 1].le.Finite? then bs[idx - 1].le.r else 0.0;
      var below := if idx > 0 then bs[idx - 1].count else 0.0;
      var span := bs[idx].count - below;
      if span <= 0.0 then Some(upper) else Some(Interpolate(lower, upper, rank - below, span))
    case _ => LastFinite(bs)
  }

  /** The last bucket holds the full count. */
  function RankOf(bs: seq<Bucket>, q: real): real
    requires bs != []
  {
    q * Last(bs).count
  }

  function FoundAt(bs: seq<Bucket>, rank: real): nat {
    FirstIndex(|bs|, 0, Reaches(bs, rank))
  }

  function Estimate(bs: seq<Bucket>, rank: real): Option<real>
    requires bs != []
  {
    var found := FoundAt(bs, rank);
    EstimateAt(bs, if found == |bs| then |bs| - 1 else found, rank)
  }

  function QuantileOf(bs: seq<Bucket>, q: real): Option<real> {
    if q <= 0.0 || q >= 1.0 || bs == [] || Last(bs).count <= 0.0 then None
    else Estimate(bs, RankOf(bs, q))
  }

  /** What aggregation establishes, whatever the samples. */
  ghost predicate Cumulative(bs: seq<Bucket>) {
    && Ascending(bs)
    && (forall i :: 0 <= i < |bs| ==> bs[i].le.Finite? || bs[i].le.PosInf?)
    && (forall i, j :: 0 <= i <= j < |bs| ==> bs[i].count <= bs[j].count)
  }

  lemma DistributionCumulative(raw: seq<Bucket>, bs: seq<Bucket>)
    requires IsDistribution(raw, bs)
    requires forall b :: b in raw ==> b.le != NaN && b.le != NegInf
    ensures Cumulative(bs)
  {
    forall i | 0 <= i < |bs| ensures bs[i].le.Finite? || bs[i].le.PosInf? {
      assert bs[i].le in Edges(bs);
    }
    forall i, j | 0 <= i <= j < |bs| ensures bs[i].count <= bs[j].count {
      assert RunningMax(raw, bs, i) && RunningMax(raw, bs, j);
      var k :| 0 <= k <= i && SumAt(raw, bs[k].le) == bs[i].count;
      assert 0 <= k <= j;
    }
  }

  /** The search and interpolation, on buckets already aggregated. */
  method QuantileFrom(bs: seq<Bucket>, q: real) returns (r: Option<real>)
    requires Cumulative(bs)
    ensures r == QuantileOf(bs, q)
  {
    if q <= 0.0 || q >= 1.0 || |bs| == 0 {
      return None;
    }
    if Last(bs).count <= 0.0 {
      return None;
    }
    var rank := RankOf(bs, q);
    var idx := Search(|bs|, Reaches(bs, rank));
    if idx == |bs| {
      idx := |bs| - 1;
    }
    r := EstimateAt(bs, idx, rank);
  }

  method EstimateQuantile(mf: Families, family: string, q: real, want: Labels, c: Codec)
    returns (r: Option<real>, ghost bs: seq<Bucket>)
    requires FiniteCounts(Select(mf, family + "_bucket", want), c)
    ensures var raw := RawBuckets(Select(mf, family + "_bucket", want), c);
            if raw == [] then r == None else IsDistribution(raw, bs) && r == QuantileOf(bs, q)
  {
    ghost var raw := RawBuckets(Select(mf, family + "_bucket", want), c);
    RawEdges(Select(mf, family + "_bucket", want), c);
    var out, present := Buckets(mf, family, want, c);
    bs := out;
    if !present {
      return None, bs;
    }
    DistributionCumulative(raw, bs);
    r := QuantileFrom(out, q);
  }
}
