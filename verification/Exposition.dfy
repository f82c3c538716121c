/** The exposition format as the service's own producers print it, and the proof that
    the parser undoes the printer line by line and label by label. */
module Exposition {
  import opened Basics
  import opened Telemetry
  import opened Text
  import opened Promtext

  datatype Label = Label(key: string, value: string)

  datatype Line =
    | Help(name: string, help: string)
    | TypeOf(name: string, typ: string)
    | Series(name: string, labels: seq<Label>, number: string)

  // ── Printing ────────

  function EscChar(c: char): string {
    if c == '\\' then "\\\\" else if c == '"' then "\\\"" else if c == '\n' then "\\n" else [c]
  }

  /** esc (registry.go): byte-wise replacement inside a label value. */
  function Esc(s: string): string {
    if s == "" then "" else EscChar(s[0]) + Esc(s[1..])
  }

  /** One label, with what follows it. */
  function PrintLabel(l: Label, rest: string): string {
    l.key + ("=" + ("\"" + (Esc(l.value) + ("\"" + rest))))
  }

  function PrintLabels(ls: seq<Label>, rest: string): string {
    if ls == [] then rest
    else PrintLabel(ls[0], if |ls| == 1 then rest else "," + PrintLabels(ls[1..], rest))
  }

  function PrintComment(kind: string, name: string, rest: string): string {
    "#" + (" " + (kind + (" " + (name + (" " + rest)))))
  }

  function PrintLine(l: Line): string {
    match l
    case Help(name, help) => PrintComment("HELP", name, help)
    case TypeOf(name, typ) => PrintComment("TYPE", name, typ)
    case Series(name, labels, number) =>
      if labels == [] then name + (" " + number)
      else name + ("{" + PrintLabels(labels, "}" + (" " + number)))
  }

  function Print(doc: seq<Line>): string {
    if doc == [] then "" else PrintLine(doc[0]) + ("\n" + Print(doc[1..]))
  }

  lemma {:induction false} PrintAppend(xs: seq<Line>, ys: seq<Line>)
    ensures Print(xs + ys) == Print(xs) + Print(ys)
  {
    if xs == [] {
      assert xs + ys == ys;
    } else {
      assert (xs + ys)[1..] == xs[1..] + ys;
      PrintAppend(xs[1..], ys);
      var line := PrintLine(xs[0]);
      assert line + ("\n" + (Print(xs[1..]) + Print(ys))) == line + ("\n" + Print(xs[1..])) + Print(ys);
    }
  }

  lemma PrintOneMore(text: string, xs: seq<Line>, l: Line)
    ensures text + Print(xs + [l]) == text + Print(xs) + (PrintLine(l) + "\n")
  {
    PrintAppend(xs, [l]);
    assert [l][1..] == [] && Print([l]) == PrintLine(l) + ("\n" + "");
    assert "\n" + "" == "\n";
  }

  // ── Meaning ────────

  function LabelMap(ls: seq<Label>, labels: Labels): Labels {
    if ls == [] then labels else LabelMap(ls[1..], labels[ls[0].key := ls[0].value])
  }

  /** What a line means to a reader of the payload. */
  function EffectOf(l: Line, c: Codec): Effect {
    match l
    case Help(_, _) => Nothing
    case TypeOf(name, typ) => Declares(name, typ)
    case Series(name, labels, number) =>
      match ParseValue(number, c)
      case None => Malforms
      case Some(v) => Adds(Sample(name, LabelMap(labels, map[]), v))
  }

  function DocMeaning(doc: seq<Line>, c: Codec): Families {
    if doc == [] then EMPTY else ApplyEffect(DocMeaning(doc[..|doc| - 1], c), EffectOf(Last(doc), c))
  }

  predicate PlainWord(s: string) {
    s != "" && NoSpaces(s)
  }

  /** What a producer has to respect; label values may be any bytes at all. */
  predicate Printable(l: Line, c: Codec) {
    match l
    case Help(name, help) => PlainWord(name) && Tidy(help) && '\n' !in help
    case TypeOf(name, typ) => PlainWord(name) && PlainWord(typ) && ToLower(typ) == typ
    case Series(name, labels, number) =>
      && ValidMetricName(name)
      && (forall l :: l in labels ==> ValidMetricName(l.key))
      && Tidy(number) && NoSpaces(number) && '{' !in number && ParseValue(number, c).Some?
  }

  // ── The parser inverts the printer ────────

  /** Unquoting inverts escaping, and stops exactly after the closing quote. */
  lemma {:induction false} UnquoteEsc(v: string, rest: string)
    ensures Unquote(Esc(v) + ("\"" + rest)) == Some(Unquoted(v, rest))
  {
    if v == "" {
      var s := "\"" + rest;
      assert Esc(v) + s == s && s[1..] == rest;
    } else {
      var tail := Esc(v[1..]) + ("\"" + rest);
      UnquoteEsc(v[1..], rest);
      assert Esc(v) == EscChar(v[0]) + Esc(v[1..]);
      Regroup(EscChar(v[0]), Esc(v[1..]), "\"" + rest);
      UnquoteEscChar(v[0], tail);
      assert [v[0]] + v[1..] == v;
    }
  }

  lemma Regroup(a: string, b: string, c: string)
    ensures a + b + c == a + (b + c)
  {
  }

  lemma UnquoteEscChar(c: char, tail: string)
    ensures Unquote(EscChar(c) + tail) == Prepend(c, Unquote(tail))
  {
    Cut(EscChar(c), tail);
  }

  lemma NameHasNoStops(name: string)
    requires ValidMetricName(name)
    ensures NoSpaces(name) && Tidy(name) && '\n' !in name
    ensures forall i :: 0 <= i < |name| ==> name[i] !in {'=', '}', '{', ',', '#', '"'}
  {
    assert forall i :: 0 <= i < |name| ==> NameChar(name[i], i == 0);
  }

  lemma ScanPrintedLabel(l: Label, rest: string)
    requires ValidMetricName(l.key)
    ensures var t := PrintLabel(l, rest);
            && t != "" && t[0] != '}'
            && SkipSeparators(t) == t
            && ScanPair(t) == Some(Pair(l.key, l.value, rest))
  {
    var t, k := PrintLabel(l, rest), |l.key|;
    var value := Esc(l.value) + ("\"" + rest);
    NameHasNoStops(l.key);
    Cut(l.key, "=" + ("\"" + value));
    Cut("=", "\"" + value);
    assert ("\"" + value)[1..] == value;
    assert t[k + 2..] == t[k + 1..][1..];
    assert forall i :: 0 <= i < k ==> t[i] == l.key[i];
    IndexOfAt(t, KEY_STOPS, k);
    TrimTidy(l.key);
    UnquoteEsc(l.value, rest);
    assert t[0] == l.key[0];
  }

  /** The scan of a printed label block recovers every label and stops exactly after
      the closing brace. */
  lemma {:induction false} ScanPrintedLabels(ls: seq<Label>, labels: Labels, rest: string)
    requires forall l :: l in ls ==> ValidMetricName(l.key)
    ensures ScanLabels(PrintLabels(ls, "}" + rest), labels) == Some(Block(LabelMap(ls, labels), rest))
  {
    if ls == [] {
      assert ("}" + rest)[1..] == rest;
    } else {
      var more := labels[ls[0].key := ls[0].value];
      var after := PrintLabels(ls[1..], "}" + rest);
      ScanPrintedLabels(ls[1..], more, rest);
      if |ls| == 1 {
        assert ls[1..] == [];
        ScanPrintedLabel(ls[0], "}" + rest);
      } else {
        ScanPrintedLabel(ls[0], "," + after);
        ScanAfterComma(after, more);
      }
    }
  }

  lemma ScanAfterComma(s: string, labels: Labels)
    requires s != ""
    ensures ScanLabels("," + s, labels) == ScanLabels(s, labels)
  {
    assert ("," + s)[1..] == s;
  }

  lemma {:induction false} PrintLabelsEnd(ls: seq<Label>, rest: string)
    requires rest != ""
    ensures PrintLabels(ls, rest) != "" && Last(PrintLabels(ls, rest)) == Last(rest)
  {
    if ls != [] {
      PrintLabelsEnd(ls[1..], rest);
    }
  }

  lemma SplitUnlabelled(name: string, number: string)
    requires ValidMetricName(name) && '{' !in number
    ensures SplitNameAndLabels(name + (" " + number)) == Some(Head(name, map[], number))
  {
    var line := name + (" " + number);
    NameHasNoStops(name);
    TrimTidy(name);
    Cut(name, " " + number);
    assert (" " + number)[1..] == number;
    assert forall i :: 0 <= i < |name| ==> line[i] == name[i] && !IsSpace(name[i]);
    IndexOfAt(line, BRACE, |line|);
    IndexOfAt(line, BLANKS, |name|);
  }

  lemma SplitLabelled(name: string, labels: seq<Label>, rest: string)
    requires ValidMetricName(name) && forall l :: l in labels ==> ValidMetricName(l.key)
    ensures SplitNameAndLabels(name + ("{" + PrintLabels(labels, "}" + rest))) ==
            Some(Head(name, LabelMap(labels, map[]), rest))
  {
    var block := PrintLabels(labels, "}" + rest);
    var line := name + ("{" + block);
    NameHasNoStops(name);
    TrimTidy(name);
    Cut(name, "{" + block);
    assert ("{" + block)[1..] == block;
    assert forall i :: 0 <= i < |name| ==> line[i] == name[i];
    IndexOfAt(line, BRACE, |name|);
    ScanPrintedLabels(labels, map[], rest);
  }

  /** A printed series line parses back to its sample. */
  lemma ParsePrintedSeries(l: Line, c: Codec)
    requires l.Series? && Printable(l, c)
    ensures ParseSample(PrintLine(l), c) ==
            Some(Sample(l.name, LabelMap(l.labels, map[]), ParseValue(l.number, c).value))
  {
    FieldsWord(l.number, "");
    assert l.number + "" == l.number;
    if l.labels == [] {
      SplitUnlabelled(l.name, l.number);
    } else {
      SplitLabelled(l.name, l.labels, " " + l.number);
      FieldsSpace(l.number);
    }
  }

  lemma FieldsOfComment(kind: string, name: string, rest: string)
    requires PlainWord(kind) && PlainWord(name)
    ensures Fields(PrintComment(kind, name, rest)) == ["#"] + ([kind] + ([name] + Fields(rest)))
  {
    var third := name + (" " + rest);
    var second := kind + (" " + third);
    FieldsWord("#", " " + second);
    FieldsSpace(second);
    FieldsWord(kind, " " + third);
    FieldsSpace(third);
    FieldsWord(name, " " + rest);
    FieldsSpace(rest);
  }

  lemma CommentShape(kind: string, name: string, rest: string)
    requires PlainWord(kind) && PlainWord(name) && Tidy(rest) && '\n' !in rest
    ensures var line := PrintComment(kind, name, rest);
            Tidy(line) && '\n' !in line && line[0] == '#'
  {
    var third := name + (" " + rest);
    var second := kind + (" " + third);
    assert Last(third) == Last(rest) && '\n' !in third;
    assert Last(second) == Last(third) && '\n' !in second;
    assert Last(PrintComment(kind, name, rest)) == Last(second);
  }

  lemma SeriesShape(name: string, rest: string)
    requires ValidMetricName(name) && rest != "" && !IsSpace(Last(rest)) && '\n' !in rest
    ensures Tidy(name + rest) && '\n' !in name + rest && (name + rest)[0] != '#'
  {
    NameHasNoStops(name);
    assert (name + rest)[0] == name[0] && Last(name + rest) == Last(rest);
  }

  /** A printed line is one tidy line of the payload. */
  lemma PrintedLineShape(l: Line, c: Codec)
    requires Printable(l, c)
    ensures Tidy(PrintLine(l)) && '\n' !in PrintLine(l)
    ensures PrintLine(l)[0] == '#' <==> !l.Series?
  {
    match l
    case Help(name, help) =>
      CommentShape("HELP", name, help);
    case TypeOf(name, typ) =>
      CommentShape("TYPE", name, typ);
    case Series(name, labels, number) =>
      var tail := " " + number;
      assert Last(tail) == Last(number) && '\n' !in tail;
      if labels == [] {
        SeriesShape(name, tail);
      } else {
        PrintLabelsEnd(labels, "}" + tail);
        LabelsOnOneLine(labels, "}" + tail);
        SeriesShape(name, "{" + PrintLabels(labels, "}" + tail));
      }
  }

  lemma {:induction false} EscOnOneLine(s: string)
    ensures '\n' !in Esc(s)
  {
    if s != "" {
      EscOnOneLine(s[1..]);
    }
  }

  lemma {:induction false} LabelsOnOneLine(ls: seq<Label>, rest: string)
    requires '\n' !in rest && forall l :: l in ls ==> ValidMetricName(l.key)
    ensures '\n' !in PrintLabels(ls, rest)
  {
    if ls != [] {
      NameHasNoStops(ls[0].key);
      EscOnOneLine(ls[0].value);
      LabelsOnOneLine(ls[1..], rest);
    }
  }

  lemma ClassifyComment(kind: string, name: string, rest: string, c: Codec)
    requires PlainWord(kind) && PlainWord(name) && Tidy(rest) && '\n' !in rest
    ensures Classify(PrintComment(kind, name, rest), c) ==
            if kind == "TYPE" && Fields(rest) != [] then Declares(name, ToLower(Fields(rest)[0])) else Nothing
  {
    CommentShape(kind, name, rest);
    TrimTidy(PrintComment(kind, name, rest));
    FieldsOfComment(kind, name, rest);
    var fields := Fields(PrintComment(kind, name, rest));
    assert fields[1] == kind && fields[2] == name;
    assert Fields(rest) != [] ==> fields[3] == Fields(rest)[0];
  }

  /** The parser reads a printed line as exactly what it means. */
  lemma ClassifyPrinted(l: Line, c: Codec)
    requires Printable(l, c)
    ensures Classify(PrintLine(l), c) == EffectOf(l, c)
  {
    match l
    case Help(name, help) =>
      assert "HELP"[0] != "TYPE"[0];
      ClassifyComment("HELP", name, help, c);
    case TypeOf(name, typ) =>
      ClassifyComment("TYPE", name, typ, c);
      FieldsWord(typ, "");
      assert typ + "" == typ;
    case Series(_, _, _) =>
      PrintedLineShape(l, c);
      TrimTidy(PrintLine(l));
      ParsePrintedSeries(l, c);
  }

  function PrintedLines(doc: seq<Line>): seq<string> {
    seq(|doc|, i requires 0 <= i < |doc| => PrintLine(doc[i]))
  }

  lemma {:induction false} LinesOfPrint(doc: seq<Line>, c: Codec)
    requires forall l :: l in doc ==> Printable(l, c)
    ensures Lines(Print(doc)) == PrintedLines(doc) + [""]
  {
    if doc != [] {
      PrintedLineShape(doc[0], c);
      LinesStep(PrintLine(doc[0]), Print(doc[1..]));
      LinesOfPrint(doc[1..], c);
      PrintedLinesCons(doc);
      assert [PrintLine(doc[0])] + (PrintedLines(doc[1..]) + [""]) == PrintedLines(doc) + [""];
    }
  }

  lemma PrintedLinesCons(doc: seq<Line>)
    requires doc != []
    ensures PrintedLines(doc) == [PrintLine(doc[0])] + PrintedLines(doc[1..])
  {
  }

  lemma {:induction false} FoldPrinted(doc: seq<Line>, c: Codec)
    requires forall l :: l in doc ==> Printable(l, c)
    ensures FoldLines(PrintedLines(doc), c) == DocMeaning(doc, c)
  {
    if doc != [] {
      var k := |doc| - 1;
      FoldPrinted(doc[..k], c);
      assert PrintedLines(doc)[..k] == PrintedLines(doc[..k]);
      ClassifyPrinted(Last(doc), c);
    }
  }

  /** Every line fits the scanner. */
  ghost predicate FitsScanner(doc: seq<Line>) {
    forall l :: l in doc ==> |PrintLine(l)| <= MAX_LINE
  }

  lemma PrintedLinesFit(doc: seq<Line>)
    ensures LinesFit(PrintedLines(doc) + [""]) <==> FitsScanner(doc)
  {
    var lines := PrintedLines(doc);
    assert forall i :: 0 <= i < |doc| ==> (lines + [""])[i] == PrintLine(doc[i]) && doc[i] in doc;
  }

  /** Parsing undoes printing: for any label values whatsoever the parse is the
      document's meaning, and it fails exactly when a line overflows the scanner. */
  lemma ParsePrint(doc: seq<Line>, c: Codec)
    requires forall l :: l in doc ==> Printable(l, c)
    ensures ParseText(Print(doc), c) == if FitsScanner(doc) then Some(DocMeaning(doc, c)) else None
  {
    LinesOfPrint(doc, c);
    FoldPrinted(doc, c);
    PrintedLinesFit(doc);
    var lines := PrintedLines(doc);
    assert (lines + [""])[..|lines|] == lines;
  }

  /** Nothing is skipped. */
  lemma {:induction false} NothingSkipped(doc: seq<Line>, c: Codec)
    requires forall l :: l in doc ==> Printable(l, c)
    ensures DocMeaning(doc, c).linesSkipped == 0
  {
    if doc != [] {
      assert Printable(Last(doc), c);
      NothingSkipped(doc[..|doc| - 1], c);
    }
  }

  // ── Reading a document's samples back by name ────────

  /** The samples the lines of one name stand for, in order. */
  function SamplesNamed(doc: seq<Line>, name: string, c: Codec): seq<Sample> {
    if doc == [] then []
    else
      var before := SamplesNamed(doc[..|doc| - 1], name, c);
      var l := Last(doc);
      if l.Series? && l.name == name && ParseValue(l.number, c).Some?
      then before + [Sample(name, LabelMap(l.labels, map[]), ParseValue(l.number, c).value)]
      else before
  }

  lemma {:induction false} DocSamples(doc: seq<Line>, name: string, c: Codec)
    ensures Get(DocMeaning(doc, c), name) == SamplesNamed(doc, name, c)
  {
    if doc != [] {
      DocSamples(doc[..|doc| - 1], name, c);
    }
  }

  lemma {:induction false} SamplesNamedAppend(xs: seq<Line>, ys: seq<Line>, name: string, c: Codec)
    ensures SamplesNamed(xs + ys, name, c) == SamplesNamed(xs, name, c) + SamplesNamed(ys, name, c)
  {
    if ys == [] {
      assert xs + ys == xs;
    } else {
      assert (xs + ys)[..|xs + ys| - 1] == xs + ys[..|ys| - 1];
      SamplesNamedAppend(xs, ys[..|ys| - 1], name, c);
    }
  }

  /** Lines of other names contribute nothing. */
  lemma {:induction false} SamplesOfOthers(doc: seq<Line>, name: string, c: Codec)
    requires forall l :: l in doc ==> !l.Series? || l.name != name
    ensures SamplesNamed(doc, name, c) == []
  {
    if doc != [] {
      SamplesOfOthers(doc[..|doc| - 1], name, c);
    }
  }

  /** The type the last type line of that name declares. */
  function TypeNamed(doc: seq<Line>, name: string): Option<string> {
    if doc == [] then None
    else if Last(doc).TypeOf? && Last(doc).name == name then Some(Last(doc).typ)
    else TypeNamed(doc[..|doc| - 1], name)
  }

  lemma {:induction false} DocTypes(doc: seq<Line>, name: string, c: Codec)
    ensures var types := DocMeaning(doc, c).types;
            TypeNamed(doc, name) == if name in types then Some(types[name]) else None
  {
    if doc != [] {
      DocTypes(doc[..|doc| - 1], name, c);
    }
  }

  lemma {:induction false} TypeNamedAppend(xs: seq<Line>, ys: seq<Line>, name: string)
    ensures TypeNamed(xs + ys, name) == if TypeNamed(ys, name).Some? then TypeNamed(ys, name) else TypeNamed(xs, name)
  {
    if ys == [] {
      assert xs + ys == xs;
    } else {
      assert (xs + ys)[..|xs + ys| - 1] == xs + ys[..|ys| - 1];
      TypeNamedAppend(xs, ys[..|ys| - 1], name);
    }
  }

  // ── Documents made of families ────────

  datatype Row = Row(labels: seq<Label>, number: string)

  /** One family: its HELP and TYPE comments, then its rows. */
  datatype Section = Section(name: string, typ: string, rows: seq<Row>)

  function RowLine(name: string, r: Row): Line {
    Series(name, r.labels, r.number)
  }

  function RowLines(name: string, rows: seq<Row>): seq<Line> {
    seq(|rows|, i requires 0 <= i < |rows| => RowLine(name, rows[i]))
  }

  /** Help texts are prose: a parameter, constrained only to be one tidy line. */
  function Comments(s: Section, help: string -> string): seq<Line> {
    [Help(s.name, help(s.name)), TypeOf(s.name, s.typ)]
  }

  function SectionLines(s: Section, help: string -> string): seq<Line> {
    Comments(s, help) + RowLines(s.name, s.rows)
  }

  function Document(sections: seq<Section>, help: string -> string): seq<Line> {
    if sections == [] then []
    else Document(sections[..|sections| - 1], help) + SectionLines(Last(sections), help)
  }

  ghost predicate TidyHelp(help: string -> string) {
    forall name :: Tidy(help(name)) && '\n' !in help(name)
  }

  predicate PrintableSection(s: Section, c: Codec) {
    && ValidMetricName(s.name)
    && PlainWord(s.typ) && ToLower(s.typ) == s.typ
    && forall r :: r in s.rows ==> Printable(RowLine(s.name, r), c)
  }

  lemma SectionPrintable(s: Section, help: string -> string, c: Codec)
    requires PrintableSection(s, c) && TidyHelp(help)
    ensures forall l :: l in SectionLines(s, help) ==> Printable(l, c)
  {
    NameHasNoStops(s.name);
    forall l | l in RowLines(s.name, s.rows) ensures Printable(l, c) {
      var i :| 0 <= i < |s.rows| && RowLines(s.name, s.rows)[i] == l;
      assert s.rows[i] in s.rows;
    }
  }

  lemma {:induction false} DocumentPrintable(sections: seq<Section>, help: string -> string, c: Codec)
    requires TidyHelp(help) && forall s :: s in sections ==> PrintableSection(s, c)
    ensures forall l :: l in Document(sections, help) ==> Printable(l, c)
  {
    if sections != [] {
      assert Last(sections) in sections;
      DocumentPrintable(sections[..|sections| - 1], help, c);
      SectionPrintable(Last(sections), help, c);
    }
  }

  /** The samples a section's own rows stand for. */
  function RowSamples(s: Section, c: Codec): seq<Sample> {
    SamplesNamed(RowLines(s.name, s.rows), s.name, c)
  }

  lemma OneSection(s: Section, help: string -> string, name: string, c: Codec)
    ensures SamplesNamed(SectionLines(s, help), name, c) == if s.name == name then RowSamples(s, c) else []
  {
    SamplesNamedAppend(Comments(s, help), RowLines(s.name, s.rows), name, c);
    SamplesOfOthers(Comments(s, help), name, c);
    if s.name != name {
      SamplesOfOthers(RowLines(s.name, s.rows), name, c);
    }
  }

  lemma LastSection(sections: seq<Section>, help: string -> string, name: string, c: Codec)
    requires sections != []
    ensures SamplesNamed(Document(sections, help), name, c) ==
            SamplesNamed(Document(sections[..|sections| - 1], help), name, c) +
            (if Last(sections).name == name then RowSamples(Last(sections), c) else [])
  {
    SamplesNamedAppend(Document(sections[..|sections| - 1], help), SectionLines(Last(sections), help), name, c);
    OneSection(Last(sections), help, name, c);
  }

  lemma {:induction false} NoSamples(sections: seq<Section>, help: string -> string, name: string, c: Codec)
    requires forall j :: 0 <= j < |sections| ==> sections[j].name != name
    ensures SamplesNamed(Document(sections, help), name, c) == []
  {
    if sections != [] {
      NoSamples(sections[..|sections| - 1], help, name, c);
      LastSection(sections, help, name, c);
    }
  }

  /** The samples of one family are its rows, when no other section has its name. */
  lemma {:induction false} SectionSamples(sections: seq<Section>, help: string -> string, c: Codec, i: nat)
    requires i < |sections|
    requires forall j :: 0 <= j < |sections| && j != i ==> sections[j].name != sections[i].name
    ensures SamplesNamed(Document(sections, help), sections[i].name, c) == RowSamples(sections[i], c)
  {
    LastSection(sections, help, sections[i].name, c);
    var before := sections[..|sections| - 1];
    if i < |before| {
      assert before[i] == sections[i];
      SectionSamples(before, help, c, i);
    } else {
      NoSamples(before, help, sections[i].name, c);
    }
  }

  lemma {:induction false} NoTypes(lines: seq<Line>, name: string)
    requires forall l :: l in lines ==> !l.TypeOf?
    ensures TypeNamed(lines, name) == None
  {
    if lines != [] {
      NoTypes(lines[..|lines| - 1], name);
    }
  }

  lemma OneSectionType(s: Section, help: string -> string, name: string)
    ensures TypeNamed(SectionLines(s, help), name) == if s.name == name then Some(s.typ) else None
  {
    TypeNamedAppend(Comments(s, help), RowLines(s.name, s.rows), name);
    NoTypes(RowLines(s.name, s.rows), name);
    var comments := Comments(s, help);
    assert Last(comments) == TypeOf(s.name, s.typ) && comments[..1] == [comments[0]];
    assert TypeNamed([comments[0]], name) == TypeNamed([comments[0]][..0], name);
  }

  /** And its type is the one it declares. */
  lemma {:induction false} SectionType(sections: seq<Section>, help: string -> string, i: nat)
    requires i < |sections|
    requires forall j :: 0 <= j < |sections| && j != i ==> sections[j].name != sections[i].name
    ensures TypeNamed(Document(sections, help), sections[i].name) == Some(sections[i].typ)
  {
    var before := sections[..|sections| - 1];
    TypeNamedAppend(Document(before, help), SectionLines(Last(sections), help), sections[i].name);
    OneSectionType(Last(sections), help, sections[i].name);
    if i < |before| {
      assert before[i] == sections[i];
      SectionType(before, help, i);
    }
  }
}
