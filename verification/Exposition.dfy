/** The text that the encoder of pkg/expfmt/encode.go writes, with a decoder that is proved to undo it line by line:
  this is what makes the text unambiguous. */
module Exposition {
  import opened Options

  // ----- Escaping -----

  /** What one character becomes: backslash and newline always, the quote inside quotes. */
  function EscapeChar(c: char, quote: bool): string {
    if c == '\\' then "\\\\"
    else if c == '\n' then "\\n"
    else if quote && c == '\"' then "\\\""
    else [c]
  }

  function Escape(s: string, quote: bool): string {
    if s == [] then [] else EscapeChar(s[0], quote) + Escape(s[1..], quote)
  }

  /** Character by character: backslash and newline become two characters, and so does a quote inside quotes. */
  lemma EscapeCases(c: char, quote: bool)
    ensures Escape("\\", quote) == "\\\\" && Escape("\n", quote) == "\\n"
    ensures Escape("\"", true) == "\\\"" && Escape("\"", false) == "\""
    ensures c != '\\' && c != '\n' && c != '\"' ==> Escape([c], quote) == [c]
  {
    assert forall x: char :: Escape([x], quote) == EscapeChar(x, quote) + Escape([], quote);
    assert Escape([], quote) == "";
  }

  lemma {:induction false} EscapeConcat(a: string, b: string, quote: bool)
    ensures Escape(a + b, quote) == Escape(a, quote) + Escape(b, quote)
  {
    if a == [] {
      assert a + b == b;
    } else {
      EscapeConcat(a[1..], b, quote);
      assert (a + b)[1..] == a[1..] + b && (a + b)[0] == a[0];
      hide EscapeChar;
    }
  }

  predicate Plain(s: string, quote: bool) {
    forall i :: 0 <= i < |s| ==> s[i] != '\\' && s[i] != '\n' && !(quote && s[i] == '\"')
  }

  lemma {:induction false} PlainEscape(s: string, quote: bool)
    requires Plain(s, quote)
    ensures Escape(s, quote) == s
  {
    if s != [] {
      PlainEscape(s[1..], quote);
    }
  }

  /** writeEscaped: with its fast path for text that needs no escaping. */
  method WriteEscaped(w: string, s: string, quote: bool) returns (w': string)
    ensures w' == w + Escape(s, quote)
  {
    if Plain(s, quote) {
      PlainEscape(s, quote);
      return w + s;
    }
    w' := w;
    var i := 0;
    assert s[0..] == s;
    while i < |s|
      invariant 0 <= i <= |s| && w' + Escape(s[i..], quote) == w + Escape(s, quote)
    {
      assert s[i..][1..] == s[i+1..];
      w' := w' + EscapeChar(s[i], quote);
      i := i + 1;
    }
  }

  /** The rest of a quoted string: its content, and what follows the closing quote. */
  function ReadQuoted(s: string): Option<(string, string)> {
    if s == [] then None
    else if s[0] == '\"' then Some(("", s[1..]))
    else if s[0] == '\\' then
      if |s| < 2 || s[1] !in ['\\', 'n', '\"'] then None
      else
        match ReadQuoted(s[2..])
        case None => None
        case Some((content, rest)) => Some(([if s[1] == 'n' then '\n' else s[1]] + content, rest))
    else
      match ReadQuoted(s[1..])
      case None => None
      case Some((content, rest)) => Some(([s[0]] + content, rest))
  }

  /** Unescaping undoes escaping, whatever follows. */
  lemma {:induction false} QuotedRoundTrip(s: string, rest: string)
    ensures ReadQuoted(Escape(s, true) + "\"" + rest) == Some((s, rest))
  {
    var text := Escape(s, true) + "\"" + rest;
    if s == [] {
      assert text == "\"" + rest;
      assert text[1..] == rest;
    } else {
      QuotedRoundTrip(s[1..], rest);
      var tail := Escape(s[1..], true) + "\"" + rest;
      assert text == EscapeChar(s[0], true) + tail;
      ReadEscapedChar(s[0], tail, s[1..], rest);
      assert s == [s[0]] + s[1..];
    }
  }

  lemma ReadEscapedChar(c: char, tail: string, content: string, rest: string)
    requires ReadQuoted(tail) == Some((content, rest))
    ensures ReadQuoted(EscapeChar(c, true) + tail) == Some(([c] + content, rest))
  {
    var head := EscapeChar(c, true);
    assert (head + tail)[|head|..] == tail;
  }

  predicate NoNewline(s: string) {
    forall i :: 0 <= i < |s| ==> s[i] != '\n'
  }

  lemma {:induction false} EscapedHasNoNewline(s: string, quote: bool)
    ensures NoNewline(Escape(s, quote))
  {
    if s != [] {
      EscapedHasNoNewline(s[1..], quote);
    }
  }

  // ----- Names -----

  predicate NameStart(c: char) {
    'a' <= c <= 'z' || 'A' <= c <= 'Z' || c == '_' || c == ':'
  }

  predicate NameChar(c: char) {
    NameStart(c) || '0' <= c <= '9'
  }

  predicate NameChars(s: string) {
    forall i :: 0 <= i < |s| ==> NameChar(s[i])
  }

  /** A legacy-valid metric name, which is written bare. */
  predicate ValidName(s: string) {
    s != [] && NameStart(s[0]) && NameChars(s)
  }

  /** That is: letters, underscores and colons, and from the second character on also digits. */
  lemma ValidNames(s: string)
    ensures ValidName(s) <==>
              && s != ""
              && (forall i :: 0 <= i < |s| ==>
                    || 'a' <= s[i] <= 'z' || 'A' <= s[i] <= 'Z' || s[i] == '_' || s[i] == ':'
                    || (i > 0 && '0' <= s[i] <= '9'))
  {
  }

  function Quoted(s: string): string {
    "\"" + Escape(s, true) + "\""
  }

  function NameText(name: string): string {
    if ValidName(name) then name else Quoted(name)
  }

  /** writeName. */
  method WriteName(w: string, name: string) returns (w': string)
    ensures w' == w + NameText(name)
  {
    if ValidName(name) {
      return w + name;
    }
    w' := WriteEscaped(w + "\"", name, true);
    w' := w' + "\"";
  }

  /** Whether a name cannot go on into `rest`. */
  predicate EndsName(rest: string) {
    rest == [] || !NameChar(rest[0])
  }

  /** The longest run of name characters. */
  function ReadBare(s: string): (string, string) {
    if s == [] || !NameChar(s[0]) then ("", s)
    else
      var (name, rest) := ReadBare(s[1..]);
      ([s[0]] + name, rest)
  }

  lemma {:induction false} BareRoundTrip(name: string, rest: string)
    requires NameChars(name) && EndsName(rest)
    ensures ReadBare(name + rest) == (name, rest)
  {
    if name == [] {
      assert name + rest == rest;
    } else {
      BareRoundTrip(name[1..], rest);
      assert (name + rest)[1..] == name[1..] + rest;
      assert name == [name[0]] + name[1..];
    }
  }

  function ReadName(s: string): Option<(string, string)> {
    if s == [] then None
    else if s[0] == '\"' then ReadQuoted(s[1..])
    else Some(ReadBare(s))
  }

  lemma NameRoundTrip(name: string, rest: string)
    requires EndsName(rest)
    ensures ReadName(NameText(name) + rest) == Some((name, rest))
  {
    hide Escape, ReadQuoted, ReadBare;
    if ValidName(name) {
      BareRoundTrip(name, rest);
    } else {
      QuotedRoundTrip(name, rest);
      assert (NameText(name) + rest)[1..] == Escape(name, true) + "\"" + rest;
    }
  }

  // ----- Name and labels -----

  datatype Label = Label(name: string, value: string)

  function PairText(l: Label): string {
    NameText(l.name) + ("=" + Quoted(l.value))
  }

  /** The pairs, each after its separator. */
  function PairsText(sep: char, ls: seq<Label>): string
    decreases |ls|
  {
    if ls == [] then [] else [sep] + (PairText(ls[0]) + PairsText(',', ls[1..]))
  }

  /** The name-and-labels part of a sample line; a name that cannot be bare moves inside the braces. */
  function SeriesText(name: string, ls: seq<Label>): string {
    if !ValidName(name) then "{" + Quoted(name) + PairsText(',', ls) + "}"
    else if ls == [] then name
    else name + PairsText('{', ls) + "}"
  }

  /** One `name="value"` and what follows it. */
  function ReadPair(s: string): Option<(Label, string)> {
    match ReadName(s)
    case None => None
    case Some((name, after)) =>
      if |after| < 2 || after[0] != '=' || after[1] != '\"' then None
      else
        match ReadQuoted(after[2..])
        case None => None
        case Some((value, rest)) => Some((Label(name, value), rest))
  }

  lemma PairRoundTrip(l: Label, rest: string)
    ensures ReadPair(PairText(l) + rest) == Some((l, rest))
  {
    hide Escape, ReadQuoted, ReadName, NameText;
    var after := "=" + Quoted(l.value) + rest;
    assert PairText(l) + rest == NameText(l.name) + after;
    NameRoundTrip(l.name, after);
    QuotedRoundTrip(l.value, rest);
    assert after[2..] == Escape(l.value, true) + "\"" + rest;
  }

  /** The pairs up to the closing brace, each after a comma. */
  function ReadPairs(s: string): Option<(seq<Label>, string)>
    decreases |s|
  {
    if s == [] then None
    else if s[0] == '}' then Some(([], s[1..]))
    else if s[0] != ',' then None
    else
      match ReadPair(s[1..])
      case None => None
      case Some((l, after)) =>
        if |after| >= |s| then None
        else
          match ReadPairs(after)
          case None => None
          case Some((ls, rest)) => Some(([l] + ls, rest))
  }

  lemma {:induction false} PairsRoundTrip(ls: seq<Label>, rest: string)
    ensures ReadPairs(PairsText(',', ls) + ("}" + rest)) == Some((ls, rest))
    decreases |ls|
  {
    hide ReadPair, PairText;
    var text := PairsText(',', ls) + ("}" + rest);
    if ls == [] {
      assert text == "}" + rest;
      assert text[1..] == rest;
    } else {
      var after := PairsText(',', ls[1..]) + ("}" + rest);
      PairsRoundTrip(ls[1..], rest);
      PairRoundTrip(ls[0], after);
      assert text == [','] + (PairText(ls[0]) + after);
      assert text[1..] == PairText(ls[0]) + after;
      assert ls == [ls[0]] + ls[1..];
    }
  }

  /** The decoder for the name-and-labels part. */
  function ReadSeries(s: string): Option<(string, seq<Label>, string)> {
    if s == [] then None
    else if s[0] == '{' then
      match ReadName(s[1..])
      case None => None
      case Some((name, after)) => Series(name, ReadPairs(after))
    else
      var (name, after) := ReadBare(s);
      if after != [] && after[0] == '{' then Series(name, ReadPairs([','] + after[1..]))
      else Some((name, [], after))
  }

  function Series(name: string, pairs: Option<(seq<Label>, string)>): Option<(string, seq<Label>, string)> {
    match pairs
    case None => None
    case Some((ls, rest)) => Some((name, ls, rest))
  }

  /** The name-and-labels text can be read back, in the bare and in the quoted form, whatever follows the space after
    it. */
  lemma SeriesRoundTrip(name: string, ls: seq<Label>, rest: string)
    ensures ReadSeries(SeriesText(name, ls) + (" " + rest)) == Some((name, ls, " " + rest))
  {
    if !ValidName(name) {
      QuotedSeries(name, ls, " " + rest);
    } else if ls == [] {
      hide PairsText, ReadName, ReadPairs, ReadBare;
      assert EndsName(" " + rest);
      BareRoundTrip(name, " " + rest);
    } else {
      BareSeries(name, ls, " " + rest);
    }
  }

  lemma QuotedSeries(name: string, ls: seq<Label>, tail: string)
    requires !ValidName(name)
    ensures ReadSeries(SeriesText(name, ls) + tail) == Some((name, ls, tail))
  {
    hide ReadPairs, ReadBare, ReadName, ValidName, Quoted;
    var text := SeriesText(name, ls) + tail;
    var after := PairsText(',', ls) + ("}" + tail);
    assert text[1..] == NameText(name) + after;
    PairsStart(',', ls, tail);
    NameRoundTrip(name, after);
    PairsRoundTrip(ls, tail);
  }

  lemma BareSeries(name: string, ls: seq<Label>, tail: string)
    requires ValidName(name) && ls != []
    ensures ReadSeries(SeriesText(name, ls) + tail) == Some((name, ls, tail))
  {
    hide ReadPairs, ReadBare, ReadName, Quoted, PairText;
    var text := SeriesText(name, ls) + tail;
    var after := PairsText('{', ls) + ("}" + tail);
    assert text == name + after;
    PairsStart('{', ls, tail);
    BareRoundTrip(name, after);
    PairsRoundTrip(ls, tail);
    assert [','] + after[1..] == PairsText(',', ls) + ("}" + tail);
  }

  lemma PairsStart(sep: char, ls: seq<Label>, tail: string)
    requires sep == ',' || sep == '{'
    ensures EndsName(PairsText(sep, ls) + ("}" + tail))
  {
    hide PairText;
  }

  /** So different names or kept labels never give the same text. */
  lemma SeriesUnique(name1: string, ls1: seq<Label>, rest1: string, name2: string, ls2: seq<Label>, rest2: string)
    requires SeriesText(name1, ls1) + (" " + rest1) == SeriesText(name2, ls2) + (" " + rest2)
    ensures name1 == name2 && ls1 == ls2
  {
    hide SeriesText, ReadSeries;
    SeriesRoundTrip(name1, ls1, rest1);
    SeriesRoundTrip(name2, ls2, rest2);
  }

  // ----- Lines -----

  /** A sample as it is written: names escaped, labels chosen, numbers rendered. */
  datatype Sample = Sample(name: string, labels: seq<Label>, value: string, time: string)

  datatype Line = TypeLine(name: string) | SampleLine(sample: Sample)

  /** A rendered number holds neither a space nor a newline. */
  predicate Number(s: string) {
    ' ' !in s && '\n' !in s
  }

  predicate Rendered(l: Line) {
    l.SampleLine? ==> Number(l.sample.value) && Number(l.sample.time)
  }

  /** A line without its newline. */
  function LineText(l: Line): string {
    match l
    case TypeLine(name) => "# TYPE " + NameText(name) + " untyped"
    case SampleLine(s) => SeriesText(s.name, s.labels) + " " + s.value + " " + s.time
  }

  function Text(lines: seq<Line>): string {
    if lines == [] then [] else LineText(lines[0]) + "\n" + Text(lines[1..])
  }

  lemma {:induction false} TextConcat(a: seq<Line>, b: seq<Line>)
    ensures Text(a + b) == Text(a) + Text(b)
  {
    hide LineText, Text;
    if a == [] {
      assert a + b == b;
      TextNil();
    } else {
      var rest := a[1..];
      TextConcat(rest, b);
      assert a == [a[0]] + rest && a + b == [a[0]] + (rest + b);
      TextCons(a[0], rest + b);
      TextCons(a[0], rest);
      Associative(LineText(a[0]) + "\n", Text(rest), Text(b));
    }
  }

  lemma Associative(x: string, y: string, z: string)
    ensures x + y + z == x + (y + z)
  {
  }

  lemma TextNil()
    ensures Text([]) == ""
  {
  }

  lemma TextCons(l: Line, rest: seq<Line>)
    ensures Text([l] + rest) == LineText(l) + "\n" + Text(rest)
  {
    hide LineText;
    assert ([l] + rest)[1..] == rest;
  }

  /** A pair is name="value", the name quoted when it cannot be bare. */
  lemma PairForm(l: Label)
    ensures ValidName(l.name) ==> PairText(l) == l.name + ("=" + ("\"" + Escape(l.value, true) + "\""))
    ensures !ValidName(l.name) ==>
              PairText(l) == ("\"" + Escape(l.name, true) + "\"") + ("=" + ("\"" + Escape(l.value, true) + "\""))
  {
    hide Escape, ValidName;
  }

  /** A series is name{pair,pair}, or {"name",pair} when the name cannot be bare, or the name alone. */
  lemma SeriesForms(name: string, a: Label, b: Label)
    ensures ValidName(name) ==> SeriesText(name, []) == name
    ensures ValidName(name) ==>
              SeriesText(name, [a, b]) == name + ("{" + (PairText(a) + ("," + (PairText(b) + "")))) + "}"
    ensures !ValidName(name) ==>
              SeriesText(name, [a]) == "{" + ("\"" + Escape(name, true) + "\"") + ("," + (PairText(a) + "")) + "}"
  {
    hide Escape, ValidName, PairText;
    assert [a, b][1..] == [b] && [b][1..] == [] && [a][1..] == [];
    assert PairsText(',', []) == "";
    assert PairsText(',', [b]) == "," + (PairText(b) + "");
    assert PairsText(',', [a]) == "," + (PairText(a) + "");
  }

  /** A line is one of these two. */
  lemma LineForms(name: string, ls: seq<Label>, value: string, time: string)
    ensures LineText(TypeLine(name)) == "# TYPE " + NameText(name) + " untyped"
    ensures LineText(SampleLine(Sample(name, ls, value, time))) == SeriesText(name, ls) + " " + value + " " + time
  {
    hide NameText, SeriesText;
  }

  // ----- No raw newline -----

  lemma NameHasNoNewline(name: string)
    ensures NoNewline(NameText(name)) && NoNewline(Quoted(name))
  {
    hide Escape;
    EscapedHasNoNewline(name, true);
  }

  lemma {:induction false} PairsHaveNoNewline(sep: char, ls: seq<Label>)
    requires sep != '\n'
    ensures NoNewline(PairsText(sep, ls))
    decreases |ls|
  {
    hide NameText, Quoted;
    if ls != [] {
      PairsHaveNoNewline(',', ls[1..]);
      NameHasNoNewline(ls[0].name);
      NameHasNoNewline(ls[0].value);
    }
  }

  /** No line that is written has a newline inside it. */
  lemma LineHasNoNewline(l: Line)
    requires Rendered(l)
    ensures NoNewline(LineText(l))
  {
    hide NameText, Quoted, PairsText, NameStart;
    match l
    case TypeLine(name) =>
      NameHasNoNewline(name);
    case SampleLine(s) =>
      SeriesHasNoNewline(s.name, s.labels);
  }

  lemma SeriesHasNoNewline(name: string, ls: seq<Label>)
    ensures NoNewline(SeriesText(name, ls))
  {
    hide Quoted, PairsText;
    NameHasNoNewline(name);
    PairsHaveNoNewline(',', ls);
    PairsHaveNoNewline('{', ls);
  }

  // ----- Reading lines back -----

  /** Everything before the first `c`, and what follows it. */
  function ReadUntil(s: string, c: char): Option<(string, string)> {
    if s == [] then None
    else if s[0] == c then Some(("", s[1..]))
    else
      match ReadUntil(s[1..], c)
      case None => None
      case Some((word, rest)) => Some(([s[0]] + word, rest))
  }

  lemma {:induction false} UntilRoundTrip(word: string, c: char, rest: string)
    requires c !in word
    ensures ReadUntil(word + ([c] + rest), c) == Some((word, rest))
  {
    var text := word + ([c] + rest);
    if word == [] {
      assert text == [c] + rest;
      assert text[1..] == rest;
    } else {
      UntilRoundTrip(word[1..], c, rest);
      assert text[1..] == word[1..] + ([c] + rest);
      assert word == [word[0]] + word[1..];
    }
  }

  function Skip(prefix: string, s: string): Option<string> {
    if prefix <= s then Some(s[|prefix|..]) else None
  }

  lemma SkipPrefix(prefix: string, rest: string)
    ensures Skip(prefix, prefix + rest) == Some(rest)
  {
    assert (prefix + rest)[|prefix|..] == rest;
  }

  /** A TYPE line, or a sample line with its two numbers. */
  function ReadLine(s: string): Option<(Line, string)> {
    if Skip("# TYPE ", s).Some? then ReadType(Skip("# TYPE ", s).value) else ReadSample(s)
  }

  function ReadType(s: string): Option<(Line, string)> {
    match ReadName(s)
    case None => None
    case Some((name, after)) =>
      match Skip(" untyped\n", after)
      case None => None
      case Some(rest) => Some((TypeLine(name), rest))
  }

  function ReadSample(s: string): Option<(Line, string)> {
    match ReadSeries(s)
    case None => None
    case Some((name, ls, after)) =>
      match Skip(" ", after)
      case None => None
      case Some(numbers) =>
        match ReadUntil(numbers, ' ')
        case None => None
        case Some((value, after')) =>
          match ReadUntil(after', '\n')
          case None => None
          case Some((time, rest)) => Some((SampleLine(Sample(name, ls, value, time)), rest))
  }

  lemma TypeRoundTrip(name: string, rest: string)
    ensures ReadLine(LineText(TypeLine(name)) + ("\n" + rest)) == Some((TypeLine(name), rest))
  {
    hide ReadName, NameText, Skip, ReadSample;
    var after := " untyped\n" + rest;
    assert LineText(TypeLine(name)) + ("\n" + rest) == "# TYPE " + (NameText(name) + after);
    SkipPrefix("# TYPE ", NameText(name) + after);
    SkipPrefix(" untyped\n", rest);
    NameRoundTrip(name, after);
  }

  lemma SampleRoundTrip(s: Sample, rest: string)
    requires Number(s.value) && Number(s.time)
    ensures ReadSample(LineText(SampleLine(s)) + ("\n" + rest)) == Some((SampleLine(s), rest))
  {
    hide ReadSeries, SeriesText, Skip, ReadUntil;
    var time := s.time + (['\n'] + rest);
    var numbers := s.value + ([' '] + time);
    assert LineText(SampleLine(s)) + ("\n" + rest) == SeriesText(s.name, s.labels) + (" " + numbers);
    SeriesRoundTrip(s.name, s.labels, numbers);
    SkipPrefix(" ", numbers);
    UntilRoundTrip(s.value, ' ', time);
    UntilRoundTrip(s.time, '\n', rest);
  }

  /** A sample line is never taken for a TYPE line. */
  lemma SampleIsNoType(s: Sample, rest: string)
    ensures Skip("# TYPE ", LineText(SampleLine(s)) + rest).None?
  {
    hide Quoted, PairsText;
    var text := LineText(SampleLine(s)) + rest;
    assert text[0] != '#';
    assert "# TYPE "[0] == '#';
  }

  lemma LineRoundTrip(l: Line, rest: string)
    requires Rendered(l)
    ensures ReadLine(LineText(l) + ("\n" + rest)) == Some((l, rest))
  {
    hide LineText, ReadSample, ReadType, Skip;
    match l
    case TypeLine(name) =>
      TypeRoundTrip(name, rest);
    case SampleLine(s) =>
      SampleRoundTrip(s, rest);
      SampleIsNoType(s, "\n" + rest);
  }

  /** The decoder for a whole output. */
  function ReadText(s: string): Option<seq<Line>>
    decreases |s|
  {
    if s == [] then Some([])
    else
      match ReadLine(s)
      case None => None
      case Some((l, rest)) =>
        if |rest| >= |s| then None
        else
          match ReadText(rest)
          case None => None
          case Some(lines) => Some([l] + lines)
  }

  lemma ReadTextStep(s: string, l: Line, rest: string, lines: seq<Line>)
    requires ReadLine(s) == Some((l, rest)) && |rest| < |s|
    requires ReadText(rest) == Some(lines)
    ensures ReadText(s) == Some([l] + lines)
  {
    hide ReadLine;
  }

  predicate AllRendered(lines: seq<Line>) {
    forall i :: 0 <= i < |lines| ==> Rendered(lines[i])
  }

  /** Every output can be read back, line by line. */
  lemma {:induction false} TextRoundTrip(lines: seq<Line>)
    requires AllRendered(lines)
    ensures ReadText(Text(lines)) == Some(lines)
  {
    hide ReadLine, LineText, Rendered;
    if lines != [] {
      var rest := Text(lines[1..]);
      TextRoundTrip(lines[1..]);
      LineRoundTrip(lines[0], rest);
      assert Text(lines) == LineText(lines[0]) + ("\n" + rest);
      hide ReadText, Text;
      ReadTextStep(LineText(lines[0]) + ("\n" + rest), lines[0], rest, lines[1..]);
      assert lines == [lines[0]] + lines[1..];
    }
  }
}
