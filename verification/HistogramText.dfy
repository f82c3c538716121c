/** The histogram object of the demo server: observe, render, and the round trip from
    observations through the printed payload to a quantile. */
module HistogramText {
  import opened Basics
  import opened Telemetry
  import opened Text
  import opened Promtext
  import opened PromtextLaws
  import opened Exposition
  import opened Quantile
  import opened QuantileLaws
  import opened Histogram

  // ── What render prints ────────

  function LeText(bounds: seq<real>, i: nat, c: Codec): string {
    if i < |bounds| then c.shortest(bounds[i]) else "+Inf"
  }

  function BucketLine(name: string, labels: seq<Label>, bounds: seq<real>, i: nat, cum: nat, c: Codec): Line {
    Series(name + "_bucket", labels + [Label("le", LeText(bounds, i, c))], c.fixed(cum as real, 1))
  }

  function BucketLines(name: string, labels: seq<Label>, bounds: seq<real>, obs: seq<Number>, n: nat,
                       c: Codec): seq<Line> {
    seq(n, i requires 0 <= i < n => BucketLine(name, labels, bounds, i, CountUpTo(bounds, obs, i), c))
  }

  lemma BucketLinesMore(name: string, labels: seq<Label>, bounds: seq<real>, obs: seq<Number>, n: nat, c: Codec)
    ensures BucketLines(name, labels, bounds, obs, n + 1, c) ==
            BucketLines(name, labels, bounds, obs, n, c)
            + [BucketLine(name, labels, bounds, n, CountUpTo(bounds, obs, n), c)]
  {
  }

  function SumAll(obs: seq<Number>): Number {
    if obs == [] then Finite(0.0) else Plus(SumAll(obs[..|obs| - 1]), Last(obs))
  }

  function SumText(sum: Number, c: Codec): string {
    match sum
    case Finite(r) => c.fixed(r, 4)
    case PosInf => "+Inf"
    case NegInf => "-Inf"
    case NaN => "NaN"
  }

  function Totals(name: string, labels: seq<Label>, obs: seq<Number>, c: Codec): seq<Line> {
    [Series(name + "_count", labels, c.fixed(|obs| as real, 1)),
     Series(name + "_sum", labels, SumText(SumAll(obs), c))]
  }

  /** The cumulative bucket, count and sum series of some observations. */
  function Rendered(name: string, labels: seq<Label>, bounds: seq<real>, obs: seq<Number>, c: Codec): seq<Line> {
    [TypeOf(name, "histogram")] + BucketLines(name, labels, bounds, obs, |bounds| + 1, c) + Totals(name, labels, obs, c)
  }

  // ── The object ────────

  class HistogramObject {
    const bounds: seq<real>
    /** Per bucket, not cumulative. */
    const counts: array<nat>
    var sum: Number
    var count: nat
    /** Everything observed so far. */
    ghost var observed: seq<Number>

    ghost predicate Valid()
      reads this, counts
    {
      && AscendingBounds(bounds)
      && counts.Length == |bounds| + 1
      && (forall i :: 0 <= i < counts.Length ==> counts[i] == CountIn(bounds, observed, i))
      && count == |observed|
      && sum == SumAll(observed)
      && (forall v :: v in observed ==> Observable(v))
    }

    constructor (bounds: seq<real>)
      requires AscendingBounds(bounds)
      ensures Valid() && observed == [] && fresh(counts) && this.bounds == bounds
    {
      this.bounds := bounds;
      counts := new nat[|bounds| + 1](i => 0);
      sum, count := Finite(0.0), 0;
      observed := [];
    }

    method Observe(v: Number)
      requires Valid()
      modifies this, counts
      ensures Valid()
      ensures observed ==
              if v.PosInf? || (v.Finite? && v.r >= 0.0) then old(observed) + [v] else old(observed)
    {
      if v == NaN || v == NegInf || (v.Finite? && v.r < 0.0) {
        return;
      }
      var idx := Search(|bounds|, Fits(bounds, v));
      counts[idx] := counts[idx] + 1;
      sum := Plus(sum, v);
      count := count + 1;
      observed := observed + [v];
      assert observed[..|observed| - 1] == old(observed);
    }

    /** The running count of the loop turns per-bucket counts into cumulative ones. */
    method Render(text: string, name: string, labels: seq<Label>, c: Codec) returns (out: string)
      requires Valid()
      ensures out == text + Print(Rendered(name, labels, bounds, observed, c))
    {
      ghost var head := [TypeOf(name, "histogram")];
      out := EmitLine(text, text, [], TypeOf(name, "histogram"));
      assert [] + head == head + BucketLines(name, labels, bounds, observed, 0, c);
      var cum := 0;
      for i := 0 to |bounds|
        invariant out == text + Print(head + BucketLines(name, labels, bounds, observed, i, c))
        invariant cum == if i == 0 then 0 else CountUpTo(bounds, observed, i - 1)
      {
        CountStep(bounds, observed, if i == 0 then 0 else i - 1);
        cum := cum + counts[i];
        out := EmitBucket(text, out, head, name, labels, i, cum, c);
      }
      CountStep(bounds, observed, if |bounds| == 0 then 0 else |bounds| - 1);
      cum := cum + counts[counts.Length - 1];
      out := EmitBucket(text, out, head, name, labels, |bounds|, cum, c);
      ghost var lines := head + BucketLines(name, labels, bounds, observed, |bounds| + 1, c);
      var l1 := Series(name + "_count", labels, c.fixed(count as real, 1));
      out := EmitLine(text, out, lines, l1);
      var l2 := Series(name + "_sum", labels, SumText(sum, c));
      out := EmitLine(text, out, lines + [l1], l2);
      assert lines + [l1] + [l2] == Rendered(name, labels, bounds, observed, c);
    }

    method EmitBucket(ghost text: string, out: string, ghost head: seq<Line>, name: string, labels: seq<Label>,
                      i: nat, cum: nat, c: Codec) returns (more: string)
      requires i <= |bounds| && cum == CountUpTo(bounds, observed, i)
      requires out == text + Print(head + BucketLines(name, labels, bounds, observed, i, c))
      ensures more == text + Print(head + BucketLines(name, labels, bounds, observed, i + 1, c))
    {
      ghost var lines := BucketLines(name, labels, bounds, observed, i, c);
      var l := BucketLine(name, labels, bounds, i, cum, c);
      more := EmitLine(text, out, head + lines, l);
      BucketLinesMore(name, labels, bounds, observed, i, c);
      assert head + lines + [l] == head + (lines + [l]);
    }
  }

  method EmitLine(ghost text: string, out: string, ghost lines: seq<Line>, l: Line) returns (more: string)
    requires out == text + Print(lines)
    ensures more == text + Print(lines + [l])
  {
    PrintOneMore(text, lines, l);
    more := out + (PrintLine(l) + "\n");
  }

  // ── From observations to text to buckets ────────

  datatype EngineScrape = EngineScrape(labels: seq<Label>, obs: seq<Number>)

  function Payload(name: string, bounds: seq<real>, engines: seq<EngineScrape>, c: Codec): seq<Line> {
    if engines == [] then []
    else
      var e := Last(engines);
      Payload(name, bounds, engines[..|engines| - 1], c) + Rendered(name, e.labels, bounds, e.obs, c)
  }

  function Observations(engines: seq<EngineScrape>): seq<seq<Number>> {
    seq(|engines|, i requires 0 <= i < |engines| => engines[i].obs)
  }

  /** Engine labels the selector accepts, none of them le. */
  ghost predicate Selects(want: Labels, labels: seq<Label>) {
    && "le" !in want
    && Matches(LabelMap(labels, map[]), want)
    && forall l :: l in labels ==> ValidMetricName(l.key)
  }

  /** Boundaries and counts a float64 holds exactly. */
  ghost predicate Exact(bounds: seq<real>, engines: seq<EngineScrape>, c: Codec) {
    && (forall b :: b in bounds ==> c.representable(b))
    && (forall e, i: nat :: e in engines ==> c.representable(CountUpTo(bounds, e.obs, i) as real))
  }

  lemma {:induction false} LabelMapAppend(ls: seq<Label>, l: Label, labels: Labels)
    ensures LabelMap(ls + [l], labels) == LabelMap(ls, labels)[l.key := l.value]
  {
    if ls == [] {
      assert [] + [l] == [l] && [l][1..] == [];
    } else {
      assert (ls + [l])[1..] == ls[1..] + [l];
      LabelMapAppend(ls[1..], l, labels[ls[0].key := ls[0].value]);
    }
  }

  /** One bucket line, read back. */
  lemma BucketLineRead(name: string, labels: seq<Label>, bounds: seq<real>, obs: seq<Number>, i: nat, want: Labels,
                       c: Codec)
    requires ValidCodec(c) && Selects(want, labels) && i <= |bounds|
    requires forall b :: b in bounds ==> c.representable(b)
    requires c.representable(CountUpTo(bounds, obs, i) as real)
    ensures var l := BucketLine(name, labels, bounds, i, CountUpTo(bounds, obs, i), c);
            && ParseValue(l.number, c) == Some(Finite(CountUpTo(bounds, obs, i) as real))
            && var s := Sample(name + "_bucket", LabelMap(l.labels, map[]), Finite(CountUpTo(bounds, obs, i) as real));
            && Matches(s.labels, want)
            && BucketOf(s, c) == Some(CumulativeOf(bounds, obs)[i])
  {
    var cum := CountUpTo(bounds, obs, i) as real;
    ParseNumberText(c.fixed(cum, 1), c);
    assert cum.Floor as real == cum;
    LabelMapAppend(labels, Label("le", LeText(bounds, i, c)), map[]);
    if i < |bounds| {
      ParseNumberText(c.shortest(bounds[i]), c);
      assert bounds[i] in bounds;
    }
  }

  /** The samples of the first n bucket lines are selected and read as those buckets. */
  lemma {:induction false} BucketLinesRead(name: string, labels: seq<Label>, bounds: seq<real>, obs: seq<Number>,
                                           n: nat, want: Labels, c: Codec)
    requires ValidCodec(c) && Selects(want, labels) && n <= |bounds| + 1
    requires forall b :: b in bounds ==> c.representable(b)
    requires forall i: nat :: c.representable(CountUpTo(bounds, obs, i) as real)
    ensures var samples :=
            SelectFrom(SamplesNamed(BucketLines(name, labels, bounds, obs, n, c), name + "_bucket", c), want);
            RawBuckets(samples, c) == CumulativeOf(bounds, obs)[..n] && FiniteCounts(samples, c)
  {
    if n > 0 {
      var lines := BucketLines(name, labels, bounds, obs, n, c);
      BucketLinesRead(name, labels, bounds, obs, n - 1, want, c);
      assert lines[..n - 1] == BucketLines(name, labels, bounds, obs, n - 1, c);
      BucketLineRead(name, labels, bounds, obs, n - 1, want, c);
      var s := Sample(name + "_bucket", LabelMap(lines[n - 1].labels, map[]),
        Finite(CountUpTo(bounds, obs, n - 1) as real));
      var before := SamplesNamed(lines[..n - 1], name + "_bucket", c);
      assert SamplesNamed(lines, name + "_bucket", c) == before + [s];
      SelectOneMore(before, s, want, c);
      CumulativeNext(bounds, obs, n);
    }
  }

  lemma CumulativeNext(bounds: seq<real>, obs: seq<Number>, n: nat)
    requires 0 < n <= |bounds| + 1
    ensures CumulativeOf(bounds, obs)[..n] == CumulativeOf(bounds, obs)[..n - 1] + [CumulativeOf(bounds, obs)[n - 1]]
  {
  }

  lemma SelectOneMore(before: seq<Sample>, s: Sample, want: Labels, c: Codec)
    requires Matches(s.labels, want) && BucketOf(s, c).Some?
    requires s.value.Finite? && BucketOf(s, c).value.le != NegInf
    ensures SelectFrom(before + [s], want) == SelectFrom(before, want) + [s]
    ensures RawBuckets(SelectFrom(before + [s], want), c) ==
            RawBuckets(SelectFrom(before, want), c) + [BucketOf(s, c).value]
    ensures FiniteCounts(SelectFrom(before, want), c) ==> FiniteCounts(SelectFrom(before + [s], want), c)
  {
    KeepAppend(before, [s], (x: Sample) => Matches(x.labels, want));
    var kept := SelectFrom(before, want);
    assert (kept + [s])[..|kept|] == kept;
  }

  lemma {:induction false} RawJoin(xs: seq<Sample>, ys: seq<Sample>, c: Codec)
    ensures RawBuckets(xs + ys, c) == RawBuckets(xs, c) + RawBuckets(ys, c)
    ensures FiniteCounts(xs, c) && FiniteCounts(ys, c) ==> FiniteCounts(xs + ys, c)
  {
    if ys == [] {
      assert xs + ys == xs;
    } else {
      assert (xs + ys)[..|xs + ys| - 1] == xs + ys[..|ys| - 1];
      RawJoin(xs, ys[..|ys| - 1], c);
    }
  }

  /** The bucket samples of one rendered histogram are those of its bucket lines. */
  lemma RenderedBuckets(name: string, labels: seq<Label>, bounds: seq<real>, obs: seq<Number>, c: Codec)
    ensures SamplesNamed(Rendered(name, labels, bounds, obs, c), name + "_bucket", c) ==
            SamplesNamed(BucketLines(name, labels, bounds, obs, |bounds| + 1, c), name + "_bucket", c)
  {
    var head, lines := [TypeOf(name, "histogram")], BucketLines(name, labels, bounds, obs, |bounds| + 1, c);
    var totals := Totals(name, labels, obs, c);
    SamplesNamedAppend(head + lines, totals, name + "_bucket", c);
    SamplesNamedAppend(head, lines, name + "_bucket", c);
    SamplesOfOthers(head, name + "_bucket", c);
    assert |name + "_bucket"| > |name + "_count"| && |name + "_bucket"| > |name + "_sum"|;
    SamplesOfOthers(totals, name + "_bucket", c);
  }

  lemma BucketsNotNamed(name: string, labels: seq<Label>, bounds: seq<real>, obs: seq<Number>, n: nat, other: string,
                        c: Codec)
    requires other != name + "_bucket"
    ensures SamplesNamed(BucketLines(name, labels, bounds, obs, n, c), other, c) == []
  {
    SamplesOfOthers(BucketLines(name, labels, bounds, obs, n, c), other, c);
  }

  lemma OneSeries(name: string, labels: seq<Label>, number: string, other: string, c: Codec)
    ensures SamplesNamed([Series(name, labels, number)], other, c) ==
            if name == other && ParseValue(number, c).Some?
            then [Sample(name, LabelMap(labels, map[]), ParseValue(number, c).value)] else []
  {
    var lines := [Series(name, labels, number)];
    assert SamplesNamed(lines[..0], other, c) == [];
  }

  lemma TotalSamples(name: string, labels: seq<Label>, bounds: seq<real>, obs: seq<Number>, other: string, c: Codec)
    requires other == name + "_count" || other == name + "_sum"
    ensures SamplesNamed(Rendered(name, labels, bounds, obs, c), other, c) ==
            SamplesNamed([Series(name + "_count", labels, c.fixed(|obs| as real, 1))], other, c) +
            SamplesNamed([Series(name + "_sum", labels, SumText(SumAll(obs), c))], other, c)
  {
    var head, lines := [TypeOf(name, "histogram")], BucketLines(name, labels, bounds, obs, |bounds| + 1, c);
    var count := [Series(name + "_count", labels, c.fixed(|obs| as real, 1))];
    var sum := [Series(name + "_sum", labels, SumText(SumAll(obs), c))];
    assert Totals(name, labels, obs, c) == count + sum;
    SamplesNamedAppend(head + lines, count + sum, other, c);
    SamplesNamedAppend(head, lines, other, c);
    SamplesNamedAppend(count, sum, other, c);
    SamplesOfOthers(head, other, c);
    assert |name + "_bucket"| > |other|;
    BucketsNotNamed(name, labels, bounds, obs, |bounds| + 1, other, c);
  }

  lemma SumReads(sum: Number, c: Codec)
    requires ValidCodec(c)
    ensures ParseValue(SumText(sum, c), c) ==
            if sum.Finite? then c.parse(c.fixed(sum.r, 4)) else Some(sum)
  {
    if sum.Finite? {
      ParseNumberText(c.fixed(sum.r, 4), c);
    } else {
      assert "+Inf"[0] == '+' && "-Inf"[0] == '-' && "NaN"[0] == 'N' && "Inf"[0] == 'I' && "inf"[0] == 'i';
    }
  }

  /** The count and the sum of a rendered histogram are those of all it observed, under the
      engine's own labels. */
  lemma TotalsRead(name: string, labels: seq<Label>, bounds: seq<real>, obs: seq<Number>, c: Codec)
    requires ValidCodec(c)
    ensures var doc := Rendered(name, labels, bounds, obs, c);
            && SamplesNamed(doc, name + "_count", c) ==
               [Sample(name + "_count", LabelMap(labels, map[]), c.parse(c.fixed(|obs| as real, 1)).value)]
            && SamplesNamed(doc, name + "_sum", c) ==
               [Sample(name + "_sum", LabelMap(labels, map[]),
                       if SumAll(obs).Finite? then c.parse(c.fixed(SumAll(obs).r, 4)).value else SumAll(obs))]
  {
    SumReads(SumAll(obs), c);
    var count, sum := c.fixed(|obs| as real, 1), SumText(SumAll(obs), c);
    SumPrintable(SumAll(obs), c);
    ParseNumberText(count, c);
    assert |name + "_count"| != |name + "_sum"|;
    TotalSamples(name, labels, bounds, obs, name + "_count", c);
    OneSeries(name + "_count", labels, count, name + "_count", c);
    OneSeries(name + "_sum", labels, sum, name + "_count", c);
    TotalSamples(name, labels, bounds, obs, name + "_sum", c);
    OneSeries(name + "_count", labels, count, name + "_sum", c);
    OneSeries(name + "_sum", labels, sum, name + "_sum", c);
  }

  lemma PlusNothing(x: Number)
    ensures Plus(x, Finite(0.0)) == x && Plus(Finite(0.0), x) == x
  {
  }

  /** An observation counts for itself, */
  lemma SumAllOne(v: Number)
    ensures SumAll([v]) == v
  {
    assert [v][..0] == [];
    PlusNothing(v);
  }

  /** and the sum adds up over parts. */
  lemma {:induction false} SumAllJoin(xs: seq<Number>, ys: seq<Number>)
    ensures SumAll(xs + ys) == Plus(SumAll(xs), SumAll(ys))
  {
    if ys == [] {
      assert xs + ys == xs;
      PlusNothing(SumAll(xs));
    } else {
      var before, y := ys[..|ys| - 1], Last(ys);
      assert (xs + ys)[..|xs + ys| - 1] == xs + before && Last(xs + ys) == y;
      SumAllJoin(xs, before);
      PlusAssociative(SumAll(xs), SumAll(before), y);
    }
  }

  /** What a selector reads from some printed lines. */
  function Read(lines: seq<Line>, name: string, want: Labels, c: Codec): seq<Sample> {
    SelectFrom(SamplesNamed(lines, name + "_bucket", c), want)
  }

  lemma ReadJoin(xs: seq<Line>, ys: seq<Line>, name: string, want: Labels, c: Codec)
    ensures Read(xs + ys, name, want, c) == Read(xs, name, want, c) + Read(ys, name, want, c)
  {
    SamplesNamedAppend(xs, ys, name + "_bucket", c);
    KeepAppend(SamplesNamed(xs, name + "_bucket", c), SamplesNamed(ys, name + "_bucket", c),
               (s: Sample) => Matches(s.labels, want));
  }

  lemma EngineBuckets(name: string, bounds: seq<real>, e: EngineScrape, want: Labels, c: Codec)
    requires ValidCodec(c) && Selects(want, e.labels)
    requires forall b :: b in bounds ==> c.representable(b)
    requires forall i: nat :: c.representable(CountUpTo(bounds, e.obs, i) as real)
    ensures var samples := Read(Rendered(name, e.labels, bounds, e.obs, c), name, want, c);
            RawBuckets(samples, c) == CumulativeOf(bounds, e.obs) && FiniteCounts(samples, c)
  {
    RenderedBuckets(name, e.labels, bounds, e.obs, c);
    BucketLinesRead(name, e.labels, bounds, e.obs, |bounds| + 1, want, c);
    var all := CumulativeOf(bounds, e.obs);
    assert all[..|bounds| + 1] == all;
  }

  /** A scrape of several engines reads as exactly their pooled raw buckets. */
  lemma {:induction false} PayloadBuckets(name: string, bounds: seq<real>, engines: seq<EngineScrape>, want: Labels,
                                          c: Codec)
    requires ValidCodec(c) && Exact(bounds, engines, c)
    requires forall e :: e in engines ==> Selects(want, e.labels)
    ensures var samples := Read(Payload(name, bounds, engines, c), name, want, c);
            RawBuckets(samples, c) == PooledRaw(bounds, Observations(engines)) && FiniteCounts(samples, c)
  {
    if engines != [] {
      var before, e := engines[..|engines| - 1], Last(engines);
      assert e in engines;
      PayloadBuckets(name, bounds, before, want, c);
      EngineBuckets(name, bounds, e, want, c);
      var lines := Rendered(name, e.labels, bounds, e.obs, c);
      ReadJoin(Payload(name, bounds, before, c), lines, name, want, c);
      RawJoin(Read(Payload(name, bounds, before, c), name, want, c), Read(lines, name, want, c), c);
      PooledLast(bounds, engines);
    }
  }

  lemma PooledLast(bounds: seq<real>, engines: seq<EngineScrape>)
    requires engines != []
    ensures PooledRaw(bounds, Observations(engines)) ==
            PooledRaw(bounds, Observations(engines[..|engines| - 1])) + CumulativeOf(bounds, Last(engines).obs)
  {
    assert Observations(engines)[..|engines| - 1] == Observations(engines[..|engines| - 1]);
  }

  lemma BucketNameValid(name: string)
    requires ValidMetricName(name)
    ensures ValidMetricName(name + "_bucket") && ValidMetricName(name + "_count") && ValidMetricName(name + "_sum")
  {
  }

  lemma BucketLinePrintable(name: string, labels: seq<Label>, bounds: seq<real>, i: nat, cum: nat, c: Codec)
    requires ValidCodec(c) && ValidMetricName(name) && i <= |bounds|
    requires forall l :: l in labels ==> ValidMetricName(l.key)
    ensures Printable(BucketLine(name, labels, bounds, i, cum, c), c)
  {
    BucketNameValid(name);
    ParseNumberText(c.fixed(cum as real, 1), c);
    assert ValidMetricName("le");
  }

  lemma RenderedPrintable(name: string, labels: seq<Label>, bounds: seq<real>, obs: seq<Number>, c: Codec)
    requires ValidCodec(c) && ValidMetricName(name)
    requires forall l :: l in labels ==> ValidMetricName(l.key)
    ensures forall l :: l in Rendered(name, labels, bounds, obs, c) ==> Printable(l, c)
  {
    BucketNameValid(name);
    NameHasNoStops(name);
    assert ToLower("histogram") == "histogram";
    ParseNumberText(c.fixed(|obs| as real, 1), c);
    SumPrintable(SumAll(obs), c);
    forall l | l in BucketLines(name, labels, bounds, obs, |bounds| + 1, c) ensures Printable(l, c) {
      var i :| 0 <= i < |bounds| + 1 && l == BucketLine(name, labels, bounds, i, CountUpTo(bounds, obs, i), c);
      BucketLinePrintable(name, labels, bounds, i, CountUpTo(bounds, obs, i), c);
    }
  }

  lemma SumPrintable(sum: Number, c: Codec)
    requires ValidCodec(c)
    ensures var t := SumText(sum, c); Tidy(t) && NoSpaces(t) && '{' !in t && ParseValue(t, c).Some?
  {
    if sum.Finite? {
      ParseNumberText(c.fixed(sum.r, 4), c);
    }
  }

  lemma {:induction false} PayloadPrintable(name: string, bounds: seq<real>, engines: seq<EngineScrape>, want: Labels,
                                            c: Codec)
    requires ValidCodec(c) && ValidMetricName(name)
    requires forall e :: e in engines ==> Selects(want, e.labels)
    ensures forall l :: l in Payload(name, bounds, engines, c) ==> Printable(l, c)
  {
    if engines != [] {
      var e := Last(engines);
      assert e in engines;
      PayloadPrintable(name, bounds, engines[..|engines| - 1], want, c);
      RenderedPrintable(name, e.labels, bounds, e.obs, c);
    }
  }

  /** Observations in ascending order, the k-th of them the one of rank q. */
  ghost predicate Ranked(obs: seq<Number>, q: real, sorted: seq<Number>, k: nat) {
    && obs != [] && (forall v :: v in obs ==> Observable(v)) && SortedObservations(obs, sorted)
    && k as real - 1.0 < RankAmong(q, |obs|) <= k as real
  }

  /** End to end: parse the printed payload of any number of engines, aggregate its
      buckets, estimate a quantile — the estimate is faithful to the observation of
      that rank among all engines' observations together. */
  lemma ScrapedQuantileFaithful(name: string, bounds: seq<real>, engines: seq<EngineScrape>, want: Labels, c: Codec,
                                bs: seq<Bucket>, q: real, sorted: seq<Number>, k: nat)
    requires ValidCodec(c) && Exact(bounds, engines, c)
    requires AscendingBounds(bounds) && bounds != [] && Proper(q)
    requires forall e :: e in engines ==> Selects(want, e.labels)
    requires ValidMetricName(name)
    ensures var parsed := ParseText(Print(Payload(name, bounds, engines, c)), c);
            && (parsed.Some? <==> FitsScanner(Payload(name, bounds, engines, c)))
            && (parsed.Some? && IsDistribution(RawBuckets(Select(parsed.value, name + "_bucket", want), c), bs)
                && Ranked(Pooled(Observations(engines)), q, sorted, k) ==>
                  && 0 < k <= |sorted|
                  && QuantileOf(bs, q).Some?
                  && Faithful(bounds, QuantileOf(bs, q).value, sorted[k - 1]))
  {
    var doc := Payload(name, bounds, engines, c);
    PayloadPrintable(name, bounds, engines, want, c);
    ParsePrint(doc, c);
    DocSamples(doc, name + "_bucket", c);
    PayloadBuckets(name, bounds, engines, want, c);
    if FitsScanner(doc) && IsDistribution(PooledRaw(bounds, Observations(engines)), bs)
       && Ranked(Pooled(Observations(engines)), q, sorted, k) {
      QuantileFaithful(bounds, Observations(engines), bs, q, sorted, k);
    }
  }
}
