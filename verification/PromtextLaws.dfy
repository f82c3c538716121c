/** Parsing is line-wise: joining payloads merges their parses, malformed lines are
    only counted, and sums add up. */
module PromtextLaws {
  import opened Basics
  import opened Telemetry
  import opened Text
  import opened Promtext

  /** Samples concatenated per name, later types winning, skipped counts added. */
  function Merge(a: Families, b: Families): Families {
    Families(
      map n | n in a.samples.Keys + b.samples.Keys :: Get(a, n) + Get(b, n),
      a.types + b.types,
      a.linesSkipped + b.linesSkipped)
  }

  lemma {:induction false} LinesJoin(a: string, b: string)
    ensures Lines(a + ("\n" + b)) == Lines(a) + Lines(b)
    decreases |a|
  {
    var k := IndexOf(a, NEWLINE);
    if k == |a| {
      LinesStep(a, b);
    } else {
      var line, rest := a[..k], a[k + 1..];
      assert a == line + ("\n" + rest);
      assert a + ("\n" + b) == line + ("\n" + (rest + ("\n" + b)));
      LinesStep(line, rest + ("\n" + b));
      LinesJoin(rest, b);
    }
  }

  lemma MergeEmpty(a: Families)
    ensures Merge(a, EMPTY) == a
  {
    forall n | n in a.samples ensures Get(a, n) + Get(EMPTY, n) == a.samples[n] {
    }
    assert Merge(a, EMPTY).samples == a.samples;
    assert Merge(a, EMPTY).types == a.types;
  }

  lemma AbsorbSampleMerge(a: Families, b: Families, s: Sample)
    ensures Merge(a, b).samples[s.name := Get(Merge(a, b), s.name) + [s]] ==
            Merge(a, b.(samples := b.samples[s.name := Get(b, s.name) + [s]])).samples
  {
    assert Get(a, s.name) + Get(b, s.name) + [s] == Get(a, s.name) + (Get(b, s.name) + [s]);
    assert Get(Merge(a, b), s.name) == Get(a, s.name) + Get(b, s.name);
  }

  lemma EffectMerge(a: Families, b: Families, e: Effect)
    ensures ApplyEffect(Merge(a, b), e) == Merge(a, ApplyEffect(b, e))
  {
    match e
    case Declares(family, typ) =>
      assert (a.types + b.types)[family := typ] == a.types + b.types[family := typ];
    case Adds(s) =>
      AbsorbSampleMerge(a, b, s);
    case _ =>
  }

  lemma {:induction false} FoldJoin(xs: seq<string>, ys: seq<string>, c: Codec)
    ensures FoldLines(xs + ys, c) == Merge(FoldLines(xs, c), FoldLines(ys, c))
  {
    if ys == [] {
      assert xs + ys == xs;
      MergeEmpty(FoldLines(xs, c));
    } else {
      assert (xs + ys)[..|xs + ys| - 1] == xs + ys[..|ys| - 1];
      FoldJoin(xs, ys[..|ys| - 1], c);
      EffectMerge(FoldLines(xs, c), FoldLines(ys[..|ys| - 1], c), Classify(Last(ys), c));
    }
  }

  lemma FitJoin(xs: seq<string>, ys: seq<string>)
    ensures LinesFit(xs + ys) <==> LinesFit(xs) && LinesFit(ys)
  {
    assert forall i :: 0 <= i < |xs| ==> (xs + ys)[i] == xs[i];
    assert forall i :: 0 <= i < |ys| ==> (xs + ys)[|xs| + i] == ys[i];
  }

  function Join(a: string, b: string): string {
    a + ("\n" + b)
  }

  function MergeParses(a: Option<Families>, b: Option<Families>): Option<Families> {
    if a.Some? && b.Some? then Some(Merge(a.value, b.value)) else None
  }

  /** Parsing two payloads joined by a newline merges their separate parses, and
      fails exactly when one of them fails. */
  lemma ParseJoin(a: string, b: string, c: Codec)
    ensures ParseText(Join(a, b), c) == MergeParses(ParseText(a, c), ParseText(b, c))
  {
    LinesJoin(a, b);
    FoldJoin(Lines(a), Lines(b), c);
    FitJoin(Lines(a), Lines(b));
  }

  /** A line that is neither blank, nor a comment, nor a sample. */
  predicate Malformed(line: string, c: Codec) {
    '\n' !in line && |line| <= MAX_LINE && Classify(line, c) == Malforms
  }

  /** A single line is parsed exactly when it is shorter than the scanner's buffer of a mebibyte. */
  lemma LineFitsExactly(line: string, c: Codec)
    requires '\n' !in line
    ensures ParseText(line, c).Some? <==> |line| < 1_048_576
  {
    IndexOfAt(line, NEWLINE, |line|);
    assert Lines(line) == [line] && (LinesFit([line]) <==> |[line][0]| <= MAX_LINE);
  }

  function CountOne(r: Option<Families>): Option<Families> {
    match r
    case None => None
    case Some(mf) => Some(mf.(linesSkipped := mf.linesSkipped + 1))
  }

  const SKIPPED := EMPTY.(linesSkipped := 1)

  lemma ParseMalformed(line: string, c: Codec)
    requires Malformed(line, c)
    ensures ParseText(line, c) == Some(SKIPPED)
  {
    IndexOfAt(line, NEWLINE, |line|);
    assert Lines(line) == [line];
    assert [line][..0] == [] && FoldLines([], c) == EMPTY;
  }

  lemma MergeSkipped(a: Families, b: Families)
    ensures Merge(a, Merge(SKIPPED, b)) == Merge(a, b).(linesSkipped := a.linesSkipped + b.linesSkipped + 1)
  {
    SkippedFirst(b);
    SameSamples(a, Merge(SKIPPED, b), b);
  }

  lemma SkippedFirst(b: Families)
    ensures var skipped := Merge(SKIPPED, b);
            && skipped.types == b.types && skipped.linesSkipped == b.linesSkipped + 1
            && skipped.samples.Keys == b.samples.Keys
            && forall n :: Get(skipped, n) == Get(b, n)
  {
    forall n ensures Get(Merge(SKIPPED, b), n) == Get(b, n) {
      assert [] + Get(b, n) == Get(b, n);
    }
  }

  lemma SameSamples(a: Families, b: Families, b': Families)
    requires b.types == b'.types && b.samples.Keys == b'.samples.Keys
    requires forall n :: Get(b, n) == Get(b', n)
    ensures Merge(a, b).samples == Merge(a, b').samples && Merge(a, b).types == Merge(a, b').types
  {
  }

  lemma MergeParsesSkipped(a: Option<Families>, b: Option<Families>)
    ensures MergeParses(a, MergeParses(Some(SKIPPED), b)) == CountOne(MergeParses(a, b))
  {
    if a.Some? && b.Some? {
      MergeSkipped(a.value, b.value);
    }
  }

  /** A malformed line anywhere in a payload changes only the skipped count. */
  lemma MalformedLineOnlyCounted(a: string, line: string, b: string, c: Codec)
    requires Malformed(line, c)
    ensures ParseText(Join(a, Join(line, b)), c) == CountOne(ParseText(Join(a, b), c))
  {
    ParseJoin(a, Join(line, b), c);
    ParseJoin(line, b, c);
    ParseJoin(a, b, c);
    ParseMalformed(line, c);
    MergeParsesSkipped(ParseText(a, c), ParseText(b, c));
  }

  // ── Sums ────────

  function AddTotals(a: Total, b: Total): Total {
    if !b.found then a else if !a.found then b else Total(Plus(a.value, b.value), true)
  }

  lemma PlusAssociative(x: Number, y: Number, z: Number)
    ensures Plus(Plus(x, y), z) == Plus(x, Plus(y, z))
    ensures Plus(Finite(0.0), x) == x
  {
  }

  lemma {:induction false} SumUnfound(xs: seq<Sample>)
    ensures !SumOf(xs).found ==> SumOf(xs).value == Finite(0.0)
  {
    if xs != [] {
      SumUnfound(xs[..|xs| - 1]);
    }
  }

  lemma {:induction false} SumJoin(xs: seq<Sample>, ys: seq<Sample>)
    ensures SumOf(xs + ys) == AddTotals(SumOf(xs), SumOf(ys))
  {
    SumUnfound(xs);
    if ys == [] {
      assert xs + ys == xs;
    } else {
      assert (xs + ys)[..|xs + ys| - 1] == xs + ys[..|ys| - 1];
      SumJoin(xs, ys[..|ys| - 1]);
      SumUnfound(ys[..|ys| - 1]);
      PlusAssociative(SumOf(xs).value, SumOf(ys[..|ys| - 1]).value, Last(ys).value);
      PlusAssociative(SumOf(xs).value, Last(ys).value, Finite(0.0));
      PlusAssociative(Last(ys).value, Finite(0.0), Finite(0.0));
    }
  }

  /** Selecting from joined payloads selects from each; summing adds the two sums. */
  lemma SumOverJoin(a: Families, b: Families, name: string, want: Labels)
    ensures Select(Merge(a, b), name, want) == Select(a, name, want) + Select(b, name, want)
    ensures SumOf(Select(Merge(a, b), name, want)) ==
            AddTotals(SumOf(Select(a, name, want)), SumOf(Select(b, name, want)))
  {
    KeepAppend(Get(a, name), Get(b, name), (s: Sample) => Matches(s.labels, want));
    assert Get(Merge(a, b), name) == Get(a, name) + Get(b, name);
    SumJoin(Select(a, name, want), Select(b, name, want));
  }
}
