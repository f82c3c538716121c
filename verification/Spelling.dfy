/** The same document spelled differently. Exporters space their lines as they like, leave
    commas behind, and append timestamps; none of that shows in what the parser reads. */
module Spelling {
  import opened Basics
  import opened Telemetry
  import opened Text
  import opened Promtext
  import opened Exposition

  /** One character of a label value, written as itself or behind a backslash. */
  datatype Piece = Plain(c: char) | Escaped(c: char)

  function SpellPiece(p: Piece): string {
    if p.Plain? then [p.c] else ['\\', p.c]
  }

  function SpellPieces(ps: seq<Piece>): string {
    if ps == [] then "" else SpellPiece(ps[0]) + SpellPieces(ps[1..])
  }

  /** A newline is an escaped n; any other escaped character stands for itself. */
  function ValueOf(ps: seq<Piece>): string {
    if ps == [] then "" else [if ps[0] == Escaped('n') then '\n' else ps[0].c] + ValueOf(ps[1..])
  }

  /** A label with the separators before it and the white space between key and '='. */
  datatype Spaced = Spaced(before: string, key: string, after: string, pieces: seq<Piece>)

  /** A line with its optional white space. A tail is anything at all after white space, such
      as the timestamp the format allows. */
  datatype Spelled =
    | Labelled(lead: string, name: string, gap: string, labels: seq<Spaced>, close: string, space: string,
               number: string, tail: string)
    | Bare(lead: string, name: string, gap: string, number: string, tail: string)
    | Typed(lead: string, gap1: string, gap2: string, name: string, gap3: string, typ: string, tail: string)
    | Remark(lead: string, text: string)

  function SpellLabels(ls: seq<Spaced>, rest: string): string {
    if ls == [] then rest
    else
      var l := ls[0];
      l.before + ((l.key + l.after) + ("=" + ("\"" + (SpellPieces(l.pieces) + ("\"" + SpellLabels(ls[1..], rest))))))
  }

  /** The line from its first byte that is not white space up to its tail. */
  function Body(l: Spelled): string {
    match l
    case Labelled(_, name, gap, labels, close, space, number, _) =>
      name + (gap + ("{" + SpellLabels(labels, close + ("}" + (space + number)))))
    case Bare(_, name, gap, number, _) => name + (gap + number)
    case Typed(_, gap1, gap2, name, gap3, typ, _) => "#" + (gap1 + ("TYPE" + (gap2 + (name + (gap3 + typ)))))
    case Remark(_, text) => text
  }

  function TailOf(l: Spelled): string {
    if l.Remark? then "" else l.tail
  }

  function Spell(l: Spelled): string {
    l.lead + (Body(l) + TailOf(l))
  }

  // ── What may be written ────────

  predicate AllSpace(s: string) {
    forall i :: 0 <= i < |s| ==> White(s[i])
  }

  /** ASCII white space: space, and tab to carriage return. */
  predicate White(c: char) {
    c == ' ' || 9 <= c as int <= 13
  }

  /** Commas, spaces and tabs, any number in any order. */
  predicate AllSeparators(s: string) {
    forall i :: 0 <= i < |s| ==> s[i] == ',' || s[i] == ' ' || s[i] == '\t'
  }

  /** Nothing, or white space and then anything. */
  predicate IsTail(s: string) {
    s != "" ==> White(s[0])
  }

  /** Only a quote and a backslash have to be escaped. */
  predicate Quotable(ps: seq<Piece>) {
    forall i :: 0 <= i < |ps| ==> ps[i].Plain? ==> ps[i].c != '"' && ps[i].c != '\\'
  }

  predicate NumberWord(number: string, c: Codec) {
    PlainWord(number) && ParseValue(number, c).Some?
  }

  /** ASCII letters, underscore and colon. */
  predicate Letter(c: char) {
    65 <= c as int <= 90 || 97 <= c as int <= 122 || c as int == 95 || c as int == 58
  }

  predicate Digit(c: char) {
    48 <= c as int <= 57
  }

  /** Letters, and digits after the first place. */
  predicate IsName(name: string) {
    name != "" && forall i :: 0 <= i < |name| ==> Letter(name[i]) || (i > 0 && Digit(name[i]))
  }

  predicate WellSpaced(s: Spaced) {
    AllSeparators(s.before) && IsName(s.key) && AllSpace(s.after) && Quotable(s.pieces)
  }

  predicate Acceptable(l: Spelled, c: Codec) {
    && AllSpace(l.lead)
    && IsTail(TailOf(l))
    && match l
       case Labelled(_, name, gap, labels, close, space, number, _) =>
         && IsName(name) && AllSpace(gap) && AllSeparators(close) && AllSpace(space) && NumberWord(number, c)
         && (forall s :: s in labels ==> WellSpaced(s))
       case Bare(_, name, gap, number, tail) =>
         && IsName(name) && NumberWord(number, c) && '{' !in number && '{' !in tail
         && gap != "" && AllSpace(gap) && (gap[0] == ' ' || gap[0] == '\t')
       case Typed(_, gap1, gap2, name, gap3, typ, _) =>
         && gap1 != "" && AllSpace(gap1) && gap2 != "" && AllSpace(gap2) && gap3 != "" && AllSpace(gap3)
         && PlainWord(name) && PlainWord(typ)
       case Remark(_, text) =>
         text == "" || (Tidy(text) && text[0] == '#' && (|Fields(text)| < 4 || Fields(text)[1] != "TYPE"))
  }

  function SpacedMap(ls: seq<Spaced>, labels: Labels): Labels {
    if ls == [] then labels else SpacedMap(ls[1..], labels[ls[0].key := ValueOf(ls[0].pieces)])
  }

  /** Capital ASCII letters as their small ones. */
  function Lowered(s: string): string {
    if s == "" then ""
    else [if 65 <= s[0] as int <= 90 then (s[0] as int - 65 + 97) as char else s[0]] + Lowered(s[1..])
  }

  /** What the line says; no white space and no tail has a part in it. */
  function Says(l: Spelled, c: Codec): Effect {
    match l
    case Labelled(_, name, _, labels, _, _, number, _) =>
      if ParseValue(number, c).None? then Malforms
      else Adds(Sample(name, SpacedMap(labels, map[]), ParseValue(number, c).value))
    case Bare(_, name, _, number, _) =>
      if ParseValue(number, c).None? then Malforms else Adds(Sample(name, map[], ParseValue(number, c).value))
    case Typed(_, _, _, name, _, typ, _) => Declares(name, Lowered(typ))
    case Remark(_, _) => Nothing
  }

  // ── Names ────────

  lemma NamesAreValid(name: string)
    ensures IsName(name) <==> ValidMetricName(name)
  {
    assert forall c: char, first :: NameChar(c, first) <==> Letter(c) || (!first && Digit(c));
  }

  /** No line adds a sample under any other name. */
  lemma OnlyNamesAdd(raw: string, c: Codec)
    ensures Classify(raw, c).Adds? ==> IsName(Classify(raw, c).sample.name)
  {
    if Classify(raw, c).Adds? {
      NamesAreValid(Classify(raw, c).sample.name);
    }
  }

  // ── Types and special numbers ────────

  lemma {:induction false} LowersTo(s: string)
    ensures ToLower(s) == Lowered(s)
  {
    if s != "" {
      LowersTo(s[1..]);
      assert ToLower(s) == [ToLower(s)[0]] + ToLower(s[1..]);
    }
  }

  /** What is not finite has nine spellings, whatever the number codec makes of them. */
  lemma SpecialNumbers(c: Codec)
    ensures ParseValue("+Inf", c) == ParseValue("Inf", c) == Some(PosInf)
    ensures ParseValue("+inf", c) == ParseValue("inf", c) == Some(PosInf)
    ensures ParseValue("-Inf", c) == ParseValue("-inf", c) == Some(NegInf)
    ensures ParseValue("NaN", c) == ParseValue("nan", c) == ParseValue("NAN", c) == Some(NaN)
  {
    assert "-Inf"[0] == '-' && "-inf"[0] == '-' && "+Inf"[0] == '+' && "+inf"[0] == '+';
    assert "Inf"[0] == 'I' && "inf"[0] == 'i' && "NaN"[0] == 'N' && "nan"[0] == 'n' && "NAN"[0] == 'N';
  }

  // ── White space around a line ────────

  lemma {:induction false} TrimLeftLead(lead: string, s: string)
    requires AllSpace(lead)
    ensures TrimLeft(lead + s) == TrimLeft(s)
  {
    if lead == "" {
      assert lead + s == s;
    } else {
      assert (lead + s)[1..] == lead[1..] + s;
      TrimLeftLead(lead[1..], s);
    }
  }

  lemma {:induction false} TrimRightTail(s: string, tail: string)
    requires s != "" && !IsSpace(Last(s))
    ensures TrimRight(s + tail) == s + TrimRight(tail)
  {
    if tail == "" {
      assert s + tail == s;
    } else if IsSpace(Last(tail)) {
      assert (s + tail)[..|s + tail| - 1] == s + tail[..|tail| - 1];
      assert Last(s + tail) == Last(tail);
      TrimRightTail(s, tail[..|tail| - 1]);
    } else {
      assert Last(s + tail) == Last(tail);
    }
  }

  lemma {:induction false} TrimRightPrefix(s: string)
    ensures TrimRight(s) <= s
  {
    if s != "" && IsSpace(Last(s)) {
      TrimRightPrefix(s[..|s| - 1]);
    }
  }

  lemma {:induction false} TrimRightSpaces(s: string)
    requires AllSpace(s)
    ensures TrimRight(s) == ""
  {
    if s != "" {
      TrimRightSpaces(s[..|s| - 1]);
    }
  }

  /** A tidy name with white space after it trims to the name. */
  lemma TrimName(name: string, gap: string)
    requires Tidy(name) && AllSpace(gap)
    ensures TrimSpace(name + gap) == name
  {
    assert (name + gap)[0] == name[0];
    TrimRightTail(name, gap);
    TrimRightSpaces(gap);
    assert name + "" == name;
  }

  /** Trimming a line leaves its body and some tail. */
  lemma TrimLine(lead: string, body: string, tail: string) returns (rest: string)
    requires AllSpace(lead) && Tidy(body) && IsTail(tail)
    ensures TrimSpace(lead + (body + tail)) == body + rest
    ensures IsTail(rest) && rest <= tail
  {
    rest := TrimRight(tail);
    TrimLeftLead(lead, body + tail);
    assert (body + tail)[0] == body[0];
    TrimRightTail(body, tail);
    TrimRightPrefix(tail);
  }

  // ── Fields ────────

  lemma {:induction false} FieldsLead(lead: string, s: string)
    requires AllSpace(lead)
    ensures Fields(lead + s) == Fields(s)
  {
    if lead == "" {
      assert lead + s == s;
    } else {
      assert (lead + s)[1..] == lead[1..] + s;
      FieldsLead(lead[1..], s);
    }
  }

  lemma FieldsNumber(space: string, number: string, tail: string)
    requires AllSpace(space) && PlainWord(number) && IsTail(tail)
    ensures Fields(space + (number + tail)) == [number] + Fields(tail)
  {
    FieldsLead(space, number + tail);
    FieldsWord(number, tail);
  }

  // ── Label blocks ────────

  lemma {:induction false} SkipAll(before: string, s: string)
    requires AllSeparators(before)
    ensures SkipSeparators(before + s) == SkipSeparators(s)
  {
    if before == "" {
      assert before + s == s;
    } else {
      assert (before + s)[1..] == before[1..] + s;
      SkipAll(before[1..], s);
    }
  }

  function SpellPair(named: string, quoted: string): string {
    named + ("=" + ("\"" + quoted))
  }

  lemma PairParts(named: string, quoted: string)
    requires forall i :: 0 <= i < |named| ==> named[i] !in KEY_STOPS
    ensures var t, k := SpellPair(named, quoted), |named|;
            && IndexOf(t, KEY_STOPS) == k && k + 1 < |t|
            && t[..k] == named && t[k] == '=' && t[k + 1] == '"' && t[k + 2..] == quoted
  {
    var t, k := SpellPair(named, quoted), |named|;
    Cut(named, "=" + ("\"" + quoted));
    assert forall i :: 0 <= i < k ==> t[i] == named[i];
    IndexOfAt(t, KEY_STOPS, k);
  }

  lemma NamedHasNoStops(key: string, after: string)
    requires ValidMetricName(key) && AllSpace(after)
    ensures forall i :: 0 <= i < |key + after| ==> (key + after)[i] !in KEY_STOPS
    ensures TrimSpace(key + after) == key && key[0] != '}' && !IsSeparator(key[0])
  {
    NameHasNoStops(key);
    TrimName(key, after);
  }

  lemma UnquotePiece(p: Piece, tail: string)
    requires p.Plain? ==> p.c != '"' && p.c != '\\'
    ensures Unquote(SpellPiece(p) + tail) == Prepend(if p == Escaped('n') then '\n' else p.c, Unquote(tail))
  {
    Cut(SpellPiece(p), tail);
  }

  /** Each piece of a quoted value is read as the character it stands for, up to the closing
      quote. */
  lemma {:induction false} UnquotePieces(ps: seq<Piece>, rest: string)
    requires Quotable(ps)
    ensures Unquote(SpellPieces(ps) + ("\"" + rest)) == Some(Unquoted(ValueOf(ps), rest))
  {
    if ps == [] {
      assert "" + ("\"" + rest) == "\"" + rest && ("\"" + rest)[1..] == rest;
    } else {
      UnquotePieces(ps[1..], rest);
      Regroup(SpellPiece(ps[0]), SpellPieces(ps[1..]), "\"" + rest);
      UnquotePiece(ps[0], SpellPieces(ps[1..]) + ("\"" + rest));
    }
  }

  lemma ScanSpaced(l: Spaced, rest: string)
    requires ValidMetricName(l.key) && AllSpace(l.after) && Quotable(l.pieces)
    ensures var t := SpellPair(l.key + l.after, SpellPieces(l.pieces) + ("\"" + rest));
            && t != "" && t[0] != '}'
            && SkipSeparators(t) == t
            && ScanPair(t) == Some(Pair(l.key, ValueOf(l.pieces), rest))
  {
    var quoted := SpellPieces(l.pieces) + ("\"" + rest);
    NamedHasNoStops(l.key, l.after);
    PairParts(l.key + l.after, quoted);
    UnquotePieces(l.pieces, rest);
    assert SpellPair(l.key + l.after, quoted)[0] == l.key[0];
  }

  /** However it is spaced, the scan of a label block recovers each label and stops exactly
      after the closing brace. */
  lemma {:induction false} ScanSpelledLabels(ls: seq<Spaced>, labels: Labels, close: string, rest: string)
    requires forall s :: s in ls ==> WellSpaced(s)
    requires AllSeparators(close)
    ensures ScanLabels(SpellLabels(ls, close + ("}" + rest)), labels) == Some(Block(SpacedMap(ls, labels), rest))
  {
    if ls == [] {
      SkipAll(close, "}" + rest);
      assert ("}" + rest)[1..] == rest;
    } else {
      var l, after := ls[0], SpellLabels(ls[1..], close + ("}" + rest));
      var t := SpellPair(l.key + l.after, SpellPieces(l.pieces) + ("\"" + after));
      ScanSpelledLabels(ls[1..], labels[l.key := ValueOf(l.pieces)], close, rest);
      assert WellSpaced(l);
      NamesAreValid(l.key);
      SkipAll(l.before, t);
      ScanSpaced(l, after);
    }
  }

  lemma {:induction false} SpellLabelsMore(ls: seq<Spaced>, rest: string, more: string)
    ensures SpellLabels(ls, rest) + more == SpellLabels(ls, rest + more)
  {
    if ls != [] {
      var l, after := ls[0], SpellLabels(ls[1..], rest);
      SpellLabelsMore(ls[1..], rest, more);
      var quoted := SpellPieces(l.pieces) + ("\"" + after);
      assert quoted + more == SpellPieces(l.pieces) + ("\"" + (after + more));
      assert l.before + SpellPair(l.key + l.after, quoted) + more ==
             l.before + SpellPair(l.key + l.after, quoted + more);
    }
  }

  // ── Lines ────────

  lemma SplitSpelled(name: string, gap: string, block: string)
    requires ValidMetricName(name) && AllSpace(gap)
    ensures SplitNameAndLabels(name + gap + ("{" + block)) ==
            match ScanLabels(block, map[])
            case None => None
            case Some(b) => Some(Head(name, b.labels, b.rest))
  {
    var line, k := name + gap + ("{" + block), |name + gap|;
    NameHasNoStops(name);
    TrimName(name, gap);
    Cut(name + gap, "{" + block);
    assert ("{" + block)[1..] == block;
    assert forall i :: 0 <= i < k ==> line[i] == (name + gap)[i] && line[i] != '{';
    IndexOfAt(line, BRACE, k);
  }

  lemma SplitBare(name: string, gap: string, rest: string)
    requires ValidMetricName(name) && gap != "" && AllSpace(gap) && (gap[0] == ' ' || gap[0] == '\t')
    requires '{' !in rest
    ensures SplitNameAndLabels(name + (gap + rest)) == Some(Head(name, map[], gap[1..] + rest))
  {
    var line := name + (gap + rest);
    NameHasNoStops(name);
    TrimTidy(name);
    Cut(name, gap + rest);
    assert (gap + rest)[1..] == gap[1..] + rest;
    assert forall i :: 0 <= i < |name| ==> line[i] == name[i] && !IsSpace(line[i]);
    assert forall i :: |name| <= i < |line| ==> line[i] == (gap + rest)[i - |name|];
    IndexOfAt(line, BRACE, |line|);
    IndexOfAt(line, BLANKS, |name|);
  }

  function AfterBrace(l: Spelled, rest: string): string
    requires l.Labelled?
  {
    l.space + (l.number + rest)
  }

  lemma LabelledShape(l: Spelled, rest: string)
    requires l.Labelled?
    ensures Body(l) + rest == l.name + l.gap + ("{" + SpellLabels(l.labels, l.close + ("}" + AfterBrace(l, rest))))
  {
    var inside := l.close + ("}" + (l.space + l.number));
    SpellLabelsMore(l.labels, inside, rest);
    assert inside + rest == l.close + ("}" + AfterBrace(l, rest));
  }

  lemma ParseLabelled(l: Spelled, rest: string, c: Codec)
    requires l.Labelled? && Acceptable(l, c) && IsTail(rest)
    ensures ParseSample(Body(l) + rest, c) ==
            Some(Sample(l.name, SpacedMap(l.labels, map[]), ParseValue(l.number, c).value))
  {
    var after := AfterBrace(l, rest);
    NamesAreValid(l.name);
    LabelledShape(l, rest);
    SplitSpelled(l.name, l.gap, SpellLabels(l.labels, l.close + ("}" + after)));
    ScanSpelledLabels(l.labels, map[], l.close, after);
    FieldsNumber(l.space, l.number, rest);
  }

  lemma ParseBare(l: Spelled, rest: string, c: Codec)
    requires l.Bare? && Acceptable(l, c) && IsTail(rest) && '{' !in rest
    ensures ParseSample(Body(l) + rest, c) == Some(Sample(l.name, map[], ParseValue(l.number, c).value))
  {
    NamesAreValid(l.name);
    assert Body(l) + rest == l.name + (l.gap + (l.number + rest));
    SplitBare(l.name, l.gap, l.number + rest);
    FieldsNumber(l.gap[1..], l.number, rest);
  }

  lemma FieldsGap(word: string, gap: string, rest: string)
    requires PlainWord(word) && gap != "" && AllSpace(gap)
    ensures Fields(word + (gap + rest)) == [word] + Fields(rest)
  {
    assert (gap + rest)[0] == gap[0];
    FieldsWord(word, gap + rest);
    FieldsLead(gap, rest);
  }

  function SpellType(gap1: string, gap2: string, name: string, gap3: string, last: string): string {
    "#" + (gap1 + ("TYPE" + (gap2 + (name + (gap3 + last)))))
  }

  lemma FieldsOfType(gap1: string, gap2: string, name: string, gap3: string, last: string)
    requires gap1 != "" && AllSpace(gap1) && gap2 != "" && AllSpace(gap2) && gap3 != "" && AllSpace(gap3)
    requires PlainWord(name)
    ensures Fields(SpellType(gap1, gap2, name, gap3, last)) == ["#"] + (["TYPE"] + ([name] + Fields(last)))
  {
    var third := name + (gap3 + last);
    FieldsGap("#", gap1, "TYPE" + (gap2 + third));
    FieldsGap("TYPE", gap2, third);
    FieldsGap(name, gap3, last);
  }

  lemma TypeFromFields(line: string, name: string, typ: string, more: seq<string>)
    requires Fields(line) == ["#"] + (["TYPE"] + ([name] + ([typ] + more)))
    ensures ParseTypeComment(line) == Some((name, ToLower(typ)))
  {
  }

  lemma ParseTyped(l: Spelled, rest: string, c: Codec)
    requires l.Typed? && Acceptable(l, c) && IsTail(rest)
    ensures ParseTypeComment(Body(l) + rest) == Some((l.name, Lowered(l.typ)))
  {
    assert Body(l) + rest == SpellType(l.gap1, l.gap2, l.name, l.gap3, l.typ + rest);
    FieldsOfType(l.gap1, l.gap2, l.name, l.gap3, l.typ + rest);
    FieldsWord(l.typ, rest);
    TypeFromFields(Body(l) + rest, l.name, l.typ, Fields(rest));
    LowersTo(l.typ);
  }

  lemma LabelledEnd(labels: seq<Spaced>, close: string, space: string, number: string)
    requires number != ""
    ensures var block := SpellLabels(labels, close + ("}" + (space + number)));
            block != "" && Last(block) == Last(number)
  {
    SpellLabelsMore(labels, close + ("}" + space), number);
    assert close + ("}" + space) + number == close + ("}" + (space + number));
  }

  lemma BodyTidy(l: Spelled, c: Codec)
    requires Acceptable(l, c) && !l.Remark?
    ensures Tidy(Body(l)) && (Body(l)[0] == '#' <==> l.Typed?)
  {
    match l
    case Labelled(_, name, gap, labels, close, space, number, _) =>
      NamesAreValid(name);
      NameHasNoStops(name);
      LabelledEnd(labels, close, space, number);
      assert Body(l)[0] == name[0];
    case Bare(_, name, gap, number, _) =>
      NamesAreValid(name);
      NameHasNoStops(name);
      assert Body(l)[0] == name[0] && Last(Body(l)) == Last(number);
    case Typed(_, _, _, _, _, typ, _) =>
      assert Body(l)[0] == '#' && Last(Body(l)) == Last(typ);
  }

  /** The parser reads a line by what it says, however it is spaced and whatever its tail. */
  lemma ClassifySpelled(l: Spelled, c: Codec)
    requires Acceptable(l, c)
    ensures Classify(Spell(l), c) == Says(l, c)
  {
    if l.Remark? {
      ClassifyRemark(l, c);
    } else {
      BodyTidy(l, c);
      var rest := TrimLine(l.lead, Body(l), l.tail);
      assert (Body(l) + rest)[0] == Body(l)[0];
      match l
      case Labelled(_, _, _, _, _, _, _, _) => ParseLabelled(l, rest, c);
      case Bare(_, _, _, _, _) => ParseBare(l, rest, c);
      case Typed(_, _, _, _, _, _, _) => ParseTyped(l, rest, c);
    }
  }

  lemma ClassifyRemark(l: Spelled, c: Codec)
    requires l.Remark? && Acceptable(l, c)
    ensures Classify(Spell(l), c) == Nothing
  {
    assert l.text + "" == l.text;
    TrimLeftLead(l.lead, l.text);
    if l.text != "" {
      TrimTidy(l.text);
    }
  }

  // ── Documents ────────

  function JoinLines(lines: seq<string>): string {
    if lines == [] then "" else lines[0] + ("\n" + JoinLines(lines[1..]))
  }

  function FoldEffects(effects: seq<Effect>): Families {
    if effects == [] then EMPTY else ApplyEffect(FoldEffects(effects[..|effects| - 1]), Last(effects))
  }

  lemma {:induction false} LinesOfJoin(lines: seq<string>)
    requires forall i :: 0 <= i < |lines| ==> '\n' !in lines[i]
    ensures Lines(JoinLines(lines)) == lines + [""]
  {
    if lines != [] {
      var rest := lines[1..];
      LinesOfJoin(rest);
      LinesStep(lines[0], JoinLines(rest));
      FirstLine(lines);
    }
  }

  lemma FirstLine(lines: seq<string>)
    requires lines != []
    ensures [lines[0]] + (lines[1..] + [""]) == lines + [""]
  {
  }

  lemma {:induction false} FoldByEffects(lines: seq<string>, effects: seq<Effect>, c: Codec)
    requires |lines| == |effects| && forall i :: 0 <= i < |lines| ==> Classify(lines[i], c) == effects[i]
    ensures FoldLines(lines, c) == FoldEffects(effects)
  {
    if lines != [] {
      FoldByEffects(lines[..|lines| - 1], effects[..|lines| - 1], c);
    }
  }

  /** A payload means what its lines mean, one after the other. */
  lemma ParseByEffects(lines: seq<string>, effects: seq<Effect>, c: Codec)
    requires |lines| == |effects| && forall i :: 0 <= i < |lines| ==> Classify(lines[i], c) == effects[i]
    requires forall i :: 0 <= i < |lines| ==> '\n' !in lines[i]
    ensures ParseText(JoinLines(lines), c) == if LinesFit(lines) then Some(FoldEffects(effects)) else None
  {
    LinesOfJoin(lines);
    FoldByEffects(lines, effects, c);
    EndFits(lines);
    EndSaysNothing(lines, c);
  }

  lemma EndFits(lines: seq<string>)
    ensures LinesFit(lines + [""]) <==> LinesFit(lines)
  {
    assert forall i :: 0 <= i < |lines| ==> (lines + [""])[i] == lines[i];
  }

  lemma EndSaysNothing(lines: seq<string>, c: Codec)
    ensures FoldLines(lines + [""], c) == FoldLines(lines, c)
  {
    assert (lines + [""])[..|lines|] == lines;
  }

  function SpellAll(doc: seq<Spelled>): seq<string> {
    seq(|doc|, i requires 0 <= i < |doc| => Spell(doc[i]))
  }

  function SaysAll(doc: seq<Spelled>, c: Codec): seq<Effect> {
    seq(|doc|, i requires 0 <= i < |doc| => Says(doc[i], c))
  }

  /** However the lines of a document are spaced, and whatever is appended to them, the parse
      is what they say; it fails exactly when one of them overflows the scanner. */
  lemma ParseSpelled(doc: seq<Spelled>, c: Codec)
    requires forall i :: 0 <= i < |doc| ==> Acceptable(doc[i], c) && '\n' !in Spell(doc[i])
    ensures ParseText(JoinLines(SpellAll(doc)), c) ==
            if LinesFit(SpellAll(doc)) then Some(FoldEffects(SaysAll(doc, c))) else None
  {
    forall i | 0 <= i < |doc| ensures Classify(SpellAll(doc)[i], c) == SaysAll(doc, c)[i] {
      ClassifySpelled(doc[i], c);
    }
    ParseByEffects(SpellAll(doc), SaysAll(doc, c), c);
  }

  // ── Timestamps on printed lines ────────

  /** The printer's own escapes. */
  function PrintedAs(v: string): seq<Piece> {
    if v == "" then []
    else
      var c := v[0];
      [if c == '\n' then Escaped('n') else if c == '\\' || c == '"' then Escaped(c) else Plain(c)] + PrintedAs(v[1..])
  }

  lemma {:induction false} PrintedPieces(v: string)
    ensures Quotable(PrintedAs(v)) && SpellPieces(PrintedAs(v)) == Esc(v) && ValueOf(PrintedAs(v)) == v
  {
    if v != "" {
      PrintedPieces(v[1..]);
      assert PrintedAs(v)[1..] == PrintedAs(v[1..]);
      assert v == [v[0]] + v[1..];
    }
  }

  /** The printer's own spacing. */
  function PrintedSpacing(ls: seq<Label>, first: bool): seq<Spaced> {
    if ls == [] then []
    else [Spaced(if first then "" else ",", ls[0].key, "", PrintedAs(ls[0].value))] + PrintedSpacing(ls[1..], false)
  }

  lemma {:induction false} PrintedIsSpelled(ls: seq<Label>, first: bool, rest: string)
    ensures SpellLabels(PrintedSpacing(ls, first), rest) ==
            if ls == [] || first then PrintLabels(ls, rest) else "," + PrintLabels(ls, rest)
  {
    if ls != [] {
      var spaced := PrintedSpacing(ls, first);
      var l := spaced[0];
      assert spaced[1..] == PrintedSpacing(ls[1..], false);
      PrintedIsSpelled(ls[1..], false, rest);
      PrintedPieces(ls[0].value);
      assert l.key + "" == l.key;
      assert "" + PrintLabels(ls, rest) == PrintLabels(ls, rest);
    }
  }

  lemma {:induction false} PrintedMap(ls: seq<Label>, first: bool, labels: Labels)
    ensures SpacedMap(PrintedSpacing(ls, first), labels) == LabelMap(ls, labels)
  {
    if ls != [] {
      assert PrintedSpacing(ls, first)[1..] == PrintedSpacing(ls[1..], false);
      PrintedPieces(ls[0].value);
      PrintedMap(ls[1..], false, labels[ls[0].key := ls[0].value]);
    }
  }

  lemma {:induction false} PrintedSpacingFits(ls: seq<Label>, first: bool)
    requires forall l :: l in ls ==> ValidMetricName(l.key)
    ensures forall s :: s in PrintedSpacing(ls, first) ==> WellSpaced(s)
  {
    if ls != [] {
      PrintedPieces(ls[0].value);
      NamesAreValid(ls[0].key);
      PrintedSpacingFits(ls[1..], false);
    }
  }

  /** What may follow a printed line: nothing, or white space and then anything at all; a
      help line takes all of it for help, and no brace may follow a line without labels. */
  predicate MayFollowLine(l: Line, tail: string) {
    && IsTail(tail)
    && (l.Help? ==> tail == "")
    && (l.Series? && l.labels == [] ==> '{' !in tail)
  }

  lemma LabelledIgnoresTail(l: Line, tail: string, c: Codec)
    requires l.Series? && l.labels != [] && Printable(l, c) && IsTail(tail)
    ensures Classify(PrintLine(l) + tail, c) == EffectOf(l, c)
  {
    var spelled := Labelled("", l.name, "", PrintedSpacing(l.labels, true), "", " ", l.number, tail);
    var after := " " + l.number;
    NamesAreValid(l.name);
    PrintedSpacingFits(l.labels, true);
    PrintedIsSpelled(l.labels, true, "}" + after);
    PrintedMap(l.labels, true, map[]);
    assert "" + ("}" + after) == "}" + after;
    assert "" + ("{" + PrintLabels(l.labels, "}" + after)) == "{" + PrintLabels(l.labels, "}" + after);
    assert Spell(spelled) == PrintLine(l) + tail;
    ClassifySpelled(spelled, c);
  }

  /** Nothing appended to a printed line shows: a series keeps the sample it stands for, with
      or without labels, and a type line the type it declares. */
  lemma AppendedIgnored(l: Line, tail: string, c: Codec)
    requires Printable(l, c) && MayFollowLine(l, tail)
    ensures Classify(PrintLine(l) + tail, c) == EffectOf(l, c)
  {
    match l
    case Help(_, _) =>
      assert PrintLine(l) + "" == PrintLine(l);
      ClassifyPrinted(l, c);
    case TypeOf(name, typ) =>
      var spelled := Typed("", " ", " ", name, " ", typ, tail);
      LowersTo(typ);
      assert Spell(spelled) == PrintLine(l) + tail;
      ClassifySpelled(spelled, c);
    case Series(name, labels, number) =>
      if labels == [] {
        var spelled := Bare("", name, " ", number, tail);
        NamesAreValid(name);
        assert Spell(spelled) == PrintLine(l) + tail;
        ClassifySpelled(spelled, c);
      } else {
        LabelledIgnoresTail(l, tail, c);
      }
  }

  function PrintedWith(doc: seq<Line>, tails: seq<string>): seq<string>
    requires |doc| == |tails|
  {
    seq(|doc|, i requires 0 <= i < |doc| => PrintLine(doc[i]) + tails[i])
  }

  function Effects(doc: seq<Line>, c: Codec): seq<Effect> {
    seq(|doc|, i requires 0 <= i < |doc| => EffectOf(doc[i], c))
  }

  lemma {:induction false} MeaningByEffects(doc: seq<Line>, c: Codec)
    ensures FoldEffects(Effects(doc, c)) == DocMeaning(doc, c)
  {
    if doc != [] {
      MeaningByEffects(doc[..|doc| - 1], c);
      assert Effects(doc, c)[..|doc| - 1] == Effects(doc[..|doc| - 1], c);
    }
  }

  /** A document with timestamps, or anything else, appended to its lines has the samples and
      types of the document without them. */
  lemma TimestampsDoNotShow(doc: seq<Line>, tails: seq<string>, c: Codec)
    requires |doc| == |tails| && forall i :: 0 <= i < |doc| ==> Printable(doc[i], c) && MayFollowLine(doc[i], tails[i])
    requires forall i :: 0 <= i < |doc| ==> '\n' !in tails[i]
    requires LinesFit(PrintedWith(doc, tails))
    ensures ParseText(JoinLines(PrintedWith(doc, tails)), c) == ParseText(Print(doc), c) == Some(DocMeaning(doc, c))
  {
    ParsePrint(doc, c);
    forall l | l in doc ensures |PrintLine(l)| <= MAX_LINE {
      var i :| 0 <= i < |doc| && doc[i] == l;
      assert |PrintedWith(doc, tails)[i]| <= MAX_LINE;
    }
    var lines := PrintedWith(doc, tails);
    forall i | 0 <= i < |doc| ensures Classify(lines[i], c) == Effects(doc, c)[i] && '\n' !in lines[i] {
      AppendedIgnored(doc[i], tails[i], c);
      PrintedLineShape(doc[i], c);
    }
    ParseByEffects(lines, Effects(doc, c), c);
    MeaningByEffects(doc, c);
  }
}
