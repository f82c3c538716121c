/** The byte-string routines the parser takes from Go's strings package, and the
    number text it takes from strconv. Each char stands for one byte. */
module Text {
  import opened Basics
  import opened Telemetry

  predicate IsSpace(c: char) {
    c == ' ' || c == '\t' || c == '\n' || c == '\r' || c as int == 11 || c as int == 12
  }

  function TrimLeft(s: string): string {
    if s != "" && IsSpace(s[0]) then TrimLeft(s[1..]) else s
  }

  function TrimRight(s: string): string {
    if s != "" && IsSpace(Last(s)) then TrimRight(s[..|s| - 1]) else s
  }

  function TrimSpace(s: string): string {
    TrimRight(TrimLeft(s))
  }

  /** Starts and ends with something other than white space. */
  predicate Tidy(s: string) {
    s != "" && !IsSpace(s[0]) && !IsSpace(Last(s))
  }

  /** The length of the longest prefix without white space. */
  function WordEnd(s: string): (k: nat)
    ensures k <= |s|
  {
    if s == "" || IsSpace(s[0]) then 0 else 1 + WordEnd(s[1..])
  }

  function Fields(s: string): seq<string>
    decreases |s|
  {
    if s == "" then []
    else if IsSpace(s[0]) then Fields(s[1..])
    else [s[..WordEnd(s)]] + Fields(s[WordEnd(s)..])
  }

  /** The index of the first byte in `stops`, or the length. */
  function IndexOf(s: string, stops: set<char>): (k: nat)
    ensures k <= |s|
    ensures forall i :: 0 <= i < k ==> s[i] !in stops
    ensures k < |s| ==> s[k] in stops
  {
    if s == "" || s[0] in stops then 0 else 1 + IndexOf(s[1..], stops)
  }

  lemma IndexOfAt(s: string, stops: set<char>, k: nat)
    requires k <= |s| && forall i :: 0 <= i < k ==> s[i] !in stops
    requires k < |s| ==> s[k] in stops
    ensures IndexOf(s, stops) == k
  {
  }

  lemma Cut(a: string, b: string)
    ensures (a + b)[..|a|] == a && (a + b)[|a|..] == b
    ensures |a| == 1 ==> (a + b)[1..] == b
    ensures b != "" ==> (a + b)[|a|] == b[0] && (a + b)[|a| + 1..] == b[1..]
  {
  }

  predicate NoSpaces(s: string) {
    forall i :: 0 <= i < |s| ==> !IsSpace(s[i])
  }

  lemma TrimTidy(s: string)
    requires Tidy(s)
    ensures TrimSpace(s) == s
  {
  }

  lemma {:induction false} WordEndAt(word: string, rest: string)
    requires NoSpaces(word)
    requires rest != "" ==> IsSpace(rest[0])
    ensures WordEnd(word + rest) == |word|
  {
    if word == "" {
      assert word + rest == rest;
    } else {
      assert (word + rest)[1..] == word[1..] + rest;
      WordEndAt(word[1..], rest);
    }
  }

  /** A word, then white space: the first field is the word. */
  lemma FieldsWord(word: string, rest: string)
    requires word != "" && NoSpaces(word)
    requires rest != "" ==> IsSpace(rest[0])
    ensures Fields(word + rest) == [word] + Fields(rest)
  {
    WordEndAt(word, rest);
    assert (word + rest)[..|word|] == word;
    assert (word + rest)[|word|..] == rest;
  }

  lemma FieldsSpace(s: string)
    ensures Fields(" " + s) == Fields(s)
  {
    assert (" " + s)[1..] == s;
  }

  // ── Numbers ────────

  /** Number text as Go's strconv and fmt handle it: parse is ParseFloat; decimal is
      %d; fixed(x, k) is %.kf; shortest is FormatFloat(x, 'g', -1, 64). Which reals a
      float64 represents is part of the codec. */
  datatype Codec = Codec(
    parse: string -> Option<Number>,
    decimal: int -> string,
    fixed: (real, nat) -> string,
    shortest: real -> string,
    representable: real -> bool
  )

  /** Digits, sign, point and exponent: what finite number text is made of. */
  predicate NumberChar(c: char) {
    '0' <= c <= '9' || c == '-' || c == '+' || c == '.' || c == 'e'
  }

  predicate NumberText(s: string) {
    s != "" && forall i :: 0 <= i < |s| ==> NumberChar(s[i])
  }

  /** Printing a representable number and parsing it back is the identity. */
  ghost predicate ValidCodec(c: Codec) {
    && (forall n :: NumberText(c.decimal(n)) && c.parse(c.decimal(n)).Some?)
    && (forall x, k :: NumberText(c.fixed(x, k)) && c.parse(c.fixed(x, k)).Some?)
    && (forall x :: NumberText(c.shortest(x)))
    && (forall n: int :: c.representable(n as real) ==> c.parse(c.decimal(n)) == Some(Finite(n as real)))
    && (forall x, k :: c.representable(x) && x == x.Floor as real ==> c.parse(c.fixed(x, k)) == Some(Finite(x)))
    && (forall x :: c.representable(x) ==> c.parse(c.shortest(x)) == Some(Finite(x)))
  }

  /** parseValue: the spellings of infinity and NaN first, then ParseFloat. */
  function ParseValue(s: string, c: Codec): Option<Number> {
    if s == "+Inf" || s == "Inf" || s == "inf" || s == "+inf" then Some(PosInf)
    else if s == "-Inf" || s == "-inf" then Some(NegInf)
    else if s == "NaN" || s == "nan" || s == "NAN" then Some(NaN)
    else c.parse(s)
  }

  lemma ParseNumberText(s: string, c: Codec)
    requires NumberText(s)
    ensures ParseValue(s, c) == c.parse(s)
    ensures NoSpaces(s) && '{' !in s && Tidy(s)
  {
    assert "+Inf"[1] == 'I' && "Inf"[0] == 'I' && "inf"[0] == 'i' && "+inf"[1] == 'i';
    assert "-Inf"[1] == 'I' && "-inf"[1] == 'i' && "NaN"[0] == 'N' && "nan"[0] == 'n' && "NAN"[0] == 'N';
    assert forall i :: 0 <= i < |s| ==> NumberChar(s[i]) && !IsSpace(s[i]) && s[i] != '{';
  }

  // ── A codec ────────

  /** A sign and a mark for each unit. */
  function Unary(n: int): string {
    if n < 0 then "-" + Marks(-n) else "+" + Marks(n)
  }

  function Marks(n: nat): string {
    seq(n, i => '1')
  }

  function ReadUnary(s: string): Option<Number> {
    if s == "" then None
    else Some(Finite((if s[0] == '-' then 1 - |s| else |s| - 1) as real))
  }

  lemma UnaryReads(n: int)
    ensures NumberText(Unary(n)) && ReadUnary(Unary(n)) == Some(Finite(n as real))
  {
    var s := Unary(n);
    assert forall i :: 1 <= i < |s| ==> s[i] == '1';
  }

  /** The laws asked of a codec can be met together, with every whole number representable. */
  lemma CodecExists() returns (c: Codec)
    ensures ValidCodec(c) && forall x: real :: x == x.Floor as real ==> c.representable(x)
  {
    c := Codec(ReadUnary, Unary, (x: real, k: nat) => Unary(x.Floor), (x: real) => Unary(x.Floor),
               (x: real) => x == x.Floor as real);
    forall n ensures NumberText(c.decimal(n)) && c.parse(c.decimal(n)) == Some(Finite(n as real)) {
      UnaryReads(n);
    }
    forall x: real, k: nat ensures NumberText(c.fixed(x, k))
      && c.parse(c.fixed(x, k)) == Some(Finite(x.Floor as real)) {
      UnaryReads(x.Floor);
    }
    forall x: real ensures NumberText(c.shortest(x)) && c.parse(c.shortest(x)) == Some(Finite(x.Floor as real)) {
      UnaryReads(x.Floor);
    }
  }
}
