/** The exposition parser (internal/promtext/parse.go): each scanning loop of the
    source as a method, proved against the function the laws are about. */
module Promtext {
  import opened Basics
  import opened Telemetry
  import opened Text

  type Labels = map<string, string>

  datatype Sample = Sample(name: string, labels: Labels, value: Number)

  datatype Families = Families(
    samples: map<string, seq<Sample>>,
    types: map<string, string>,
    linesSkipped: nat
  )

  const EMPTY := Families(map[], map[], 0)

  /** The samples of one name; an absent name has none. */
  function Get(mf: Families, name: string): seq<Sample> {
    if name in mf.samples then mf.samples[name] else []
  }

  // ── Label blocks ────────

  /** A quoted value and what follows its closing quote. */
  datatype Unquoted = Unquoted(value: string, rest: string)

  function Unescape(c: char): char {
    if c == 'n' then '\n' else c
  }

  /** The rest of a label value, from just inside its opening quote. */
  function Unquote(s: string): (r: Option<Unquoted>)
    ensures r.Some? ==> |r.value.rest| < |s|
  {
    if s == "" then None
    else if s[0] == '\\' && |s| > 1 then Prepend(Unescape(s[1]), Unquote(s[2..]))
    else if s[0] == '"' then Some(Unquoted("", s[1..]))
    else Prepend(s[0], Unquote(s[1..]))
  }

  function Prepend(c: char, r: Option<Unquoted>): Option<Unquoted> {
    match r
    case None => None
    case Some(u) => Some(Unquoted([c] + u.value, u.rest))
  }

  predicate IsSeparator(c: char) {
    c == ',' || c == ' ' || c == '\t'
  }

  function SkipSeparators(s: string): (r: string)
    ensures |r| <= |s|
    ensures r != "" ==> !IsSeparator(r[0])
  {
    if s != "" && IsSeparator(s[0]) then SkipSeparators(s[1..]) else s
  }

  datatype Block = Block(labels: Labels, rest: string)

  const KEY_STOPS: set<char> := {'=', '}'}

  /** One label and what follows its closing quote. */
  datatype Pair = Pair(key: string, value: string, rest: string)

  function ScanPair(t: string): (r: Option<Pair>)
    ensures r.Some? ==> |r.value.rest| < |t|
  {
    var k := IndexOf(t, KEY_STOPS);
    if k == |t| || t[k] != '=' then None
    else if k + 1 == |t| || t[k + 1] != '"' then None
    else
      match Unquote(t[k + 2..])
      case None => None
      case Some(u) =>
        var key := TrimSpace(t[..k]);
        if key == "" then None else Some(Pair(key, u.value, u.rest))
  }

  /** A label block from just after its opening brace: the labels, later duplicates
      winning, and what follows the closing brace. */
  function ScanLabels(s: string, labels: Labels): (r: Option<Block>)
    ensures r.Some? ==> |r.value.rest| < |s|
    decreases |s|
  {
    if s == "" then None
    else
      var t := SkipSeparators(s);
      if t != "" && t[0] == '}' then Some(Block(labels, t[1..]))
      else
        match ScanPair(t)
        case None => None
        case Some(p) => ScanLabels(p.rest, labels[p.key := p.value])
  }

  /** parseLabels: on every input the scan ends inside the input, and agrees with
      ScanLabels on the labels and on where the block ends. */
  method ParseLabels(s: string) returns (labels: Labels, end: nat, ok: bool)
    requires s != "" && s[0] == '{'
    ensures ok <==> ScanLabels(s[1..], map[]).Some?
    ensures ok ==> end <= |s| && Some(Block(labels, s[end..])) == ScanLabels(s[1..], map[])
  {
    labels := map[];
    var i := 1;
    while i < |s|
      invariant 1 <= i <= |s|
      invariant ScanLabels(s[i..], labels) == ScanLabels(s[1..], map[])
      decreases |s| - i
    {
      i := SkipFrom(s, i);
      if i < |s| && s[i] == '}' {
        assert s[i..][1..] == s[i + 1..];
        return labels, i + 1, true;
      }
      var key, val, next, scanned := ParsePair(s, i);
      if !scanned {
        return map[], 0, false;
      }
      labels := labels[key := val];
      i := next;
    }
    return map[], 0, false;
  }

  method ParsePair(s: string, start: nat) returns (key: string, val: string, next: nat, ok: bool)
    requires start <= |s|
    ensures ok <==> ScanPair(s[start..]).Some?
    ensures ok ==> start < next <= |s| && Some(Pair(key, val, s[next..])) == ScanPair(s[start..])
  {
    var k := IndexOf(s[start..], KEY_STOPS);
    var i := start + k;
    if i >= |s| || s[i] != '=' {
      return "", "", 0, false;
    }
    assert s[start..][..k] == s[start..i];
    key := TrimSpace(s[start..i]);
    i := i + 1;
    if i >= |s| || s[i] != '"' {
      return "", "", 0, false;
    }
    i := i + 1;
    assert s[start..][k + 2..] == s[i..];
    val, next, ok := ScanValue(s, i);
    ok := ok && key != "";
  }

  method SkipFrom(s: string, start: nat) returns (i: nat)
    requires start <= |s|
    ensures start <= i <= |s| && s[i..] == SkipSeparators(s[start..])
  {
    i := start;
    while i < |s| && IsSeparator(s[i])
      invariant start <= i <= |s|
      invariant SkipSeparators(s[i..]) == SkipSeparators(s[start..])
    {
      assert s[i..][1..] == s[i + 1..];
      i := i + 1;
    }
  }

  method ScanValue(s: string, start: nat) returns (val: string, i: nat, closed: bool)
    requires start <= |s|
    ensures closed <==> Unquote(s[start..]).Some?
    ensures closed ==> start < i <= |s| && Some(Unquoted(val, s[i..])) == Unquote(s[start..])
  {
    val := "";
    i := start;
    PrependAllNone(Unquote(s[start..]));
    while i < |s|
      invariant start <= i <= |s|
      invariant Unquote(s[start..]) == PrependAll(val, Unquote(s[i..]))
      decreases |s| - i
    {
      var c := s[i];
      UnquoteAt(s, i, val);
      if c == '\\' && i + 1 < |s| {
        val := val + [Unescape(s[i + 1])];
        i := i + 2;
        continue;
      }
      if c == '"' {
        return val, i + 1, true;
      }
      val := val + [c];
      i := i + 1;
    }
    return "", i, false;
  }

  /** What the next byte of a label value adds to the value read so far. */
  lemma UnquoteAt(s: string, i: nat, val: string)
    requires i < |s|
    ensures PrependAll(val, Unquote(s[i..])) ==
            if s[i] == '\\' && i + 1 < |s| then PrependAll(val + [Unescape(s[i + 1])], Unquote(s[i + 2..]))
            else if s[i] == '"' then Some(Unquoted(val, s[i + 1..]))
            else PrependAll(val + [s[i]], Unquote(s[i + 1..]))
  {
    assert s[i..][1..] == s[i + 1..];
    if s[i] == '\\' && i + 1 < |s| {
      assert s[i..][2..] == s[i + 2..];
      PrependAllMore(val, Unescape(s[i + 1]), Unquote(s[i + 2..]));
    } else if s[i] == '"' {
      assert val + "" == val;
    } else {
      PrependAllMore(val, s[i], Unquote(s[i + 1..]));
    }
  }

  function PrependAll(val: string, r: Option<Unquoted>): Option<Unquoted> {
    match r
    case None => None
    case Some(u) => Some(Unquoted(val + u.value, u.rest))
  }

  lemma PrependAllNone(r: Option<Unquoted>)
    ensures PrependAll("", r) == r
  {
    if r.Some? {
      assert "" + r.value.value == r.value.value;
    }
  }

  lemma PrependAllMore(val: string, c: char, r: Option<Unquoted>)
    ensures PrependAll(val, Prepend(c, r)) == PrependAll(val + [c], r)
  {
    if r.Some? {
      assert val + ([c] + r.value.value) == val + [c] + r.value.value;
    }
  }

  // ── One line ────────

  predicate NameChar(c: char, first: bool) {
    'a' <= c <= 'z' || 'A' <= c <= 'Z' || c == '_' || c == ':' || ('0' <= c <= '9' && !first)
  }

  predicate ValidMetricName(s: string) {
    s != "" && forall i :: 0 <= i < |s| ==> NameChar(s[i], i == 0)
  }

  datatype Head = Head(name: string, labels: Labels, rest: string)

  const BLANKS: set<char> := {' ', '\t'}
  const BRACE: set<char> := {'{'}

  function SplitNameAndLabels(line: string): Option<Head> {
    var open := IndexOf(line, BRACE);
    if open == |line| then
      var sp := IndexOf(line, BLANKS);
      if sp == |line| then None
      else
        var name := TrimSpace(line[..sp]);
        if ValidMetricName(name) then Some(Head(name, map[], line[sp + 1..])) else None
    else
      var name := TrimSpace(line[..open]);
      if !ValidMetricName(name) then None
      else
        match ScanLabels(line[open + 1..], map[])
        case None => None
        case Some(b) => Some(Head(name, b.labels, b.rest))
  }

  function ParseSample(line: string, c: Codec): Option<Sample> {
    match SplitNameAndLabels(line)
    case None => None
    case Some(h) =>
      var fields := Fields(h.rest);
      if fields == [] then None
      else
        match ParseValue(fields[0], c)
        case None => None
        case Some(v) => Some(Sample(h.name, h.labels, v))
  }

  function ToLower(s: string): string {
    seq(|s|, i requires 0 <= i < |s| => if 'A' <= s[i] <= 'Z' then (s[i] as int + 32) as char else s[i])
  }

  /** The family and type a "# TYPE" comment declares. */
  function ParseTypeComment(line: string): Option<(string, string)> {
    var fields := Fields(line);
    if |fields| < 4 || fields[1] != "TYPE" then None else Some((fields[2], ToLower(fields[3])))
  }

  datatype Effect = Nothing | Declares(family: string, typ: string) | Malforms | Adds(sample: Sample)

  /** What one line of the payload says. */
  function Classify(raw: string, c: Codec): Effect {
    var line := TrimSpace(raw);
    if line == "" then Nothing
    else if line[0] == '#' then
      match ParseTypeComment(line)
      case None => Nothing
      case Some((family, typ)) => Declares(family, typ)
    else
      match ParseSample(line, c)
      case None => Malforms
      case Some(s) => Adds(s)
  }

  /** What that does to the result. */
  function ApplyEffect(mf: Families, e: Effect): Families {
    match e
    case Nothing => mf
    case Declares(family, typ) => mf.(types := mf.types[family := typ])
    case Malforms => mf.(linesSkipped := mf.linesSkipped + 1)
    case Adds(s) => mf.(samples := mf.samples[s.name := Get(mf, s.name) + [s]])
  }

  function Absorb(mf: Families, raw: string, c: Codec): Families {
    ApplyEffect(mf, Classify(raw, c))
  }

  // ── A payload ────────

  /** The longest line the scanner's buffer can hold. */
  const MAX_LINE := 1024 * 1024 - 1

  const NEWLINE: set<char> := {'\n'}

  function Lines(text: string): (lines: seq<string>)
    ensures lines != []
    decreases |text|
  {
    var k := IndexOf(text, NEWLINE);
    if k == |text| then [text] else [text[..k]] + Lines(text[k + 1..])
  }

  lemma LinesStep(line: string, rest: string)
    requires '\n' !in line
    ensures Lines(line + ("\n" + rest)) == [line] + Lines(rest)
  {
    var text := line + ("\n" + rest);
    Cut(line, "\n" + rest);
    assert ("\n" + rest)[1..] == rest;
    IndexOfAt(text, NEWLINE, |line|) by {
      assert forall i :: 0 <= i < |line| ==> text[i] == line[i];
    }
  }

  predicate LinesFit(lines: seq<string>) {
    forall i :: 0 <= i < |lines| ==> |lines[i]| <= MAX_LINE
  }

  function FoldLines(lines: seq<string>, c: Codec): Families {
    if lines == [] then EMPTY else Absorb(FoldLines(lines[..|lines| - 1], c), Last(lines), c)
  }

  /** The whole result; None when a line overflows the scanner, which fails the parse. */
  function ParseText(text: string, c: Codec): Option<Families> {
    if LinesFit(Lines(text)) then Some(FoldLines(Lines(text), c)) else None
  }

  method Parse(text: string, c: Codec) returns (r: Option<Families>)
    ensures r == ParseText(text, c)
  {
    var mf := EMPTY;
    ghost var seen: seq<string> := [];
    var rest := text;
    while true
      invariant Lines(text) == seen + Lines(rest)
      invariant LinesFit(seen) && mf == FoldLines(seen, c)
      decreases |rest|
    {
      var k := IndexOf(rest, NEWLINE);
      NextLine(text, seen, rest);
      FoldNext(seen, rest[..k], c);
      if k > MAX_LINE {
        return None;
      }
      mf := Absorb(mf, rest[..k], c);
      seen := seen + [rest[..k]];
      if k == |rest| {
        return Some(mf);
      }
      rest := rest[k + 1..];
    }
  }

  /** What the next line adds to the lines seen so far. */
  lemma NextLine(text: string, seen: seq<string>, rest: string)
    requires Lines(text) == seen + Lines(rest)
    ensures var k := IndexOf(rest, NEWLINE);
            var more := seen + [rest[..k]];
            Lines(text) == if k == |rest| then more else more + Lines(rest[k + 1..])
    ensures Lines(text)[|seen|] == rest[..IndexOf(rest, NEWLINE)]
  {
    var k := IndexOf(rest, NEWLINE);
    assert k == |rest| ==> rest[..k] == rest;
  }

  lemma FoldNext(seen: seq<string>, line: string, c: Codec)
    ensures FoldLines(seen + [line], c) == Absorb(FoldLines(seen, c), line, c)
  {
    assert (seen + [line])[..|seen|] == seen;
  }

  // ── Selecting and summing ────────

  /** An absent label reads as the empty string, as a Go map read does. */
  function LabelOf(labels: Labels, key: string): string {
    if key in labels then labels[key] else ""
  }

  predicate Matches(labels: Labels, want: Labels) {
    forall k :: k in want ==> LabelOf(labels, k) == want[k]
  }

  function SelectFrom(all: seq<Sample>, want: Labels): seq<Sample> {
    Keep(all, (s: Sample) => Matches(s.labels, want))
  }

  function Select(mf: Families, name: string, want: Labels): seq<Sample> {
    SelectFrom(Get(mf, name), want)
  }

  /** Extended-real addition; the empty sum is Finite(0.0). */
  function Plus(a: Number, b: Number): Number {
    if a == NaN || b == NaN then NaN
    else if a.Finite? && b.Finite? then Finite(a.r + b.r)
    else if a.Finite? then b
    else if b.Finite? || a == b then a
    else NaN
  }

  datatype Total = Total(value: Number, found: bool)

  function SumOf(xs: seq<Sample>): Total {
    if xs == [] then Total(Finite(0.0), false)
    else
      var t := SumOf(xs[..|xs| - 1]);
      var v := Last(xs).value;
      if v == NaN then t else Total(Plus(t.value, v), true)
  }

  method SelectSamples(mf: Families, name: string, want: Labels) returns (out: seq<Sample>)
    ensures out == Select(mf, name, want)
  {
    var all := Get(mf, name);
    var p := (s: Sample) => Matches(s.labels, want);
    if |want| == 0 {
      KeepAll(all, p);
      return all;
    }
    out := [];
    for i := 0 to |all|
      invariant out == Keep(all[..i], p)
    {
      assert all[..i + 1] == all[..i] + [all[i]];
      KeepAppend(all[..i], [all[i]], p);
      if Matches(all[i].labels, want) {
        out := out + [all[i]];
      }
    }
    assert all[..|all|] == all;
  }

  method Sum(mf: Families, name: string, want: Labels) returns (total: Number, found: bool)
    ensures Total(total, found) == SumOf(Select(mf, name, want))
  {
    var xs := SelectSamples(mf, name, want);
    total, found := Finite(0.0), false;
    for i := 0 to |xs|
      invariant Total(total, found) == SumOf(xs[..i])
    {
      assert xs[..i + 1][..i] == xs[..i];
      if xs[i].value != NaN {
        total, found := Plus(total, xs[i].value), true;
      }
    }
    assert xs[..|xs|] == xs;
  }
}
