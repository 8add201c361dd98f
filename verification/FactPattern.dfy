/**
  The fact pattern (`_FACT_LINE_RE`) as a relation: the parts that a matching line is written
  from. `FactLines.MatchFact` is proved to find exactly the one reading that a line has.
 */
module FactPattern {
  import opened Wrappers
  import opened FactLines
  import Unicode
  import Integers

  /** `\s`: the separators and white space of Unicode, U+001C to U+001F among them. */
  predicate IsBlank(c: char) {
    var v := c as int;
    || v == 0x20 || v == 0x09 || v == 0x0A || v == 0x0B || v == 0x0C || v == 0x0D
    || v == 0x1C || v == 0x1D || v == 0x1E || v == 0x1F
    || v == 0x85 || v == 0xA0 || v == 0x1680 || 0x2000 <= v <= 0x200A
    || v == 0x2028 || v == 0x2029 || v == 0x202F || v == 0x205F || v == 0x3000
  }

  predicate Blank(s: string) {
    forall i :: 0 <= i < |s| ==> IsBlank(s[i])
  }

  predicate IsLetter(c: char) {
    'a' <= c <= 'z' || 'A' <= c <= 'Z'
  }

  /** `[a-z][a-zA-Z0-9_]*` */
  predicate IsName(name: string) {
    && name != "" && 'a' <= name[0] <= 'z'
    && forall i :: 0 <= i < |name| ==> IsLetter(name[i]) || '0' <= name[i] <= '9' || name[i] == '_'
  }

  /** `(?:[^"\\]|\\.)*` */
  predicate LiteralBody(s: string) {
    if s == "" then true
    else if s[0] == '\\' then |s| >= 2 && s[1] != '\n' && LiteralBody(s[2..])
    else s[0] != '\"' && LiteralBody(s[1..])
  }

  datatype Literal = Quoted(body: string) | Integer(negative: bool, digits: string)

  predicate IsLiteral(l: Literal) {
    match l
    case Quoted(body) => LiteralBody(body)
    case Integer(_, digits) => digits != "" && Unicode.AllDigits(digits)
  }

  function LiteralText(l: Literal): string {
    match l
    case Quoted(body) => "\"" + (body + "\"")
    case Integer(negative, digits) => if negative then "-" + digits else digits
  }

  /** What a body says: a backslash before a quote or a backslash is dropped, any other one stays. */
  function Said(body: string): string
    requires LiteralBody(body)
  {
    if body == "" then ""
    else if body[0] != '\\' then [body[0]] + Said(body[1..])
    else if body[1] == '\"' || body[1] == '\\' then [body[1]] + Said(body[2..])
    else body[..2] + Said(body[2..])
  }

  /** A text, or what `int` makes of an integer's text. */
  function LiteralValue(l: Literal): Value
    requires IsLiteral(l)
  {
    match l
    case Quoted(body) => Text(Said(body))
    case Integer(_, _) =>
      match Integers.ParseInt(LiteralText(l))
      case Some(n) => Number(n)
      case None => TooLong
  }

  /** The parts of a fact line, with the blanks between them. */
  datatype Layout = Layout(
    before: string,
    name: string,
    afterName: string,
    afterOpen: string,
    literal: Literal,
    afterLiteral: string,
    afterClose: string,
    end: string)

  predicate IsLayout(l: Layout) {
    && IsName(l.name)
    && IsLiteral(l.literal)
    && Blank(l.before) && Blank(l.afterName) && Blank(l.afterOpen)
    && Blank(l.afterLiteral) && Blank(l.afterClose) && Blank(l.end)
  }

  function Closing(l: Layout): string {
    l.afterLiteral + (")" + (l.afterClose + (";" + l.end)))
  }

  /** Everything after the name. */
  function Argument(l: Layout): string {
    l.afterName + ("(" + (l.afterOpen + (LiteralText(l.literal) + Closing(l))))
  }

  /** The line that the parts make. */
  function Written(l: Layout): string {
    l.before + (l.name + Argument(l))
  }

  /** `line` has the shape of the pattern, and says `value` of `name`. */
  ghost predicate Reads(line: string, name: string, value: Value) {
    exists l :: IsLayout(l) && Written(l) == line && l.name == name && LiteralValue(l.literal) == value
  }

  // ---- blanks and names ----

  lemma {:induction false} SkipBlank(b: string, rest: string)
    requires Blank(b) && (rest == "" || !IsSpace(rest[0]))
    ensures SkipSpace(b + rest) == rest
  {
    if b == "" {
      assert b + rest == rest;
    } else {
      assert (b + rest)[1..] == b[1..] + rest;
      SkipBlank(b[1..], rest);
    }
  }

  lemma {:induction false} SkippedBlank(s: string) returns (b: string)
    ensures Blank(b) && s == b + SkipSpace(s)
    ensures SkipSpace(s) == "" || !IsSpace(SkipSpace(s)[0])
  {
    b := "";
    if s != "" && IsSpace(s[0]) {
      var rest := SkippedBlank(s[1..]);
      b := [s[0]] + rest;
    }
  }

  lemma SkipCharAt(b: string, c: char, b': string, rest: string)
    requires Blank(b) && Blank(b') && !IsSpace(c) && (rest == "" || !IsSpace(rest[0]))
    ensures SkipChar(b + ([c] + (b' + rest)), c) == Some(rest)
  {
    SkipBlank(b, [c] + (b' + rest));
    assert ([c] + (b' + rest))[1..] == b' + rest;
    SkipBlank(b', rest);
  }

  lemma SkippedChar(s: string, c: char) returns (b: string, b': string)
    requires SkipChar(s, c).Some?
    ensures Blank(b) && Blank(b') && s == b + ([c] + (b' + SkipChar(s, c).value))
    ensures var rest := SkipChar(s, c).value; rest == "" || !IsSpace(rest[0])
  {
    b := SkippedBlank(s);
    var t := SkipSpace(s);
    b' := SkippedBlank(t[1..]);
    assert t == [c] + t[1..];
  }

  lemma {:induction false} NameEndAt(name: string, rest: string)
    requires forall i :: 0 <= i < |name| ==> IsNameChar(name[i])
    requires rest != "" && !IsNameChar(rest[0])
    ensures NameEnd(name + rest) == |name|
  {
    if name == "" {
      assert name + rest == rest;
    } else {
      assert (name + rest)[1..] == name[1..] + rest;
      NameEndAt(name[1..], rest);
    }
  }

  // ---- literals ----

  lemma {:induction false} BodyRead(body: string, rest: string)
    requires LiteralBody(body)
    ensures ReadLiteral(body + "\"" + rest) == Some((body, rest))
  {
    var s := body + "\"" + rest;
    if body == "" {
      assert s[1..] == rest;
    } else if body[0] == '\\' {
      assert s[2..] == body[2..] + "\"" + rest;
      BodyRead(body[2..], rest);
      assert s[..2] + body[2..] == body;
    } else {
      assert s[1..] == body[1..] + "\"" + rest;
      BodyRead(body[1..], rest);
      assert s[..1] + body[1..] == body;
    }
  }

  lemma Regroup(s: string, k: nat, a: string, b: string)
    requires k <= |s| && s[k..] == a + b
    ensures s == s[..k] + a + b
  {
  }

  lemma LongerBody(first: string, body: string)
    requires LiteralBody(body)
    requires
      || (|first| == 1 && first[0] != '\\' && first[0] != '\"')
      || (|first| == 2 && first[0] == '\\' && first[1] != '\n')
    ensures LiteralBody(first + body)
  {
    assert (first + body)[|first|..] == body;
  }

  /** A body ends at the first quote that no backslash escapes. */
  lemma {:induction false} ReadIsBody(s: string)
    requires ReadLiteral(s).Some?
    ensures var (body, rest) := ReadLiteral(s).value; LiteralBody(body) && s == body + ("\"" + rest)
  {
    if s[0] == '\"' {
      assert s == "" + ("\"" + s[1..]);
    } else {
      var k := if s[0] == '\\' then 2 else 1;
      ReadIsBody(s[k..]);
      var (body, rest) := ReadLiteral(s[k..]).value;
      Regroup(s, k, body, "\"" + rest);
      LongerBody(s[..k], body);
    }
  }

  lemma {:induction false} DigitsEndAt(digits: string, rest: string)
    requires Unicode.AllDigits(digits) && (rest == "" || !Unicode.IsDigit(rest[0]))
    ensures DigitsEnd(digits + rest) == |digits|
  {
    if digits == "" {
      assert digits + rest == rest;
    } else {
      assert (digits + rest)[1..] == digits[1..] + rest;
      DigitsEndAt(digits[1..], rest);
    }
  }

  lemma QuotedIsRead(body: string, rest: string)
    requires LiteralBody(body)
    ensures ReadValue("\"" + (body + "\"") + rest) == Some((Text(Unescape(body)), rest))
  {
    var s := "\"" + (body + "\"") + rest;
    assert s[1..] == body + "\"" + rest;
    BodyRead(body, rest);
  }

  lemma DigitsAreRead(digits: string, negative: bool, rest: string)
    requires digits != "" && Unicode.AllDigits(digits) && (rest == "" || !Unicode.IsDigit(rest[0]))
    ensures ReadDigits(digits + rest, negative) == Some((IntegerOf(negative, digits), rest))
  {
    DigitsEndAt(digits, rest);
    assert (digits + rest)[..|digits|] == digits && (digits + rest)[|digits|..] == rest;
  }

  lemma {:induction false} UnescapeSays(body: string)
    requires LiteralBody(body)
    ensures Unescape(body) == Said(body)
  {
    if body == "" {
    } else if body[0] != '\\' {
      UnescapeSays(body[1..]);
    } else {
      UnescapeSays(body[2..]);
      if body[1] != '\"' && body[1] != '\\' {
        UnescapeTwo(body);
      }
    }
  }

  lemma UnescapeTwo(body: string)
    requires |body| >= 2 && body[0] == '\\' && body[1] != '\"' && body[1] != '\\'
    ensures Unescape(body) == body[..2] + Unescape(body[2..])
  {
    assert body[1..][1..] == body[2..];
    assert Unescape(body[1..]) == [body[1]] + Unescape(body[2..]);
    FirstTwo(body, Unescape(body[2..]));
  }

  lemma FirstTwo(s: string, t: string)
    requires |s| >= 2
    ensures s[..2] + t == [s[0]] + ([s[1]] + t)
  {
  }

  lemma IntegerIsParsed(negative: bool, digits: string)
    requires digits != "" && Unicode.AllDigits(digits)
    ensures LiteralValue(Integer(negative, digits)) == IntegerOf(negative, digits)
  {
    var sign := if negative then "-" else "";
    assert LiteralText(Integer(negative, digits)) == sign + digits;
    Integers.DigitsAreParsed(sign, digits);
  }

  lemma IntegerIsRead(negative: bool, digits: string, rest: string)
    requires digits != "" && Unicode.AllDigits(digits) && (rest == "" || !Unicode.IsDigit(rest[0]))
    ensures ReadValue(LiteralText(Integer(negative, digits)) + rest) == Some((IntegerOf(negative, digits), rest))
  {
    DigitsAreRead(digits, negative, rest);
    if negative {
      assert ("-" + digits + rest)[1..] == digits + rest;
    } else {
      assert (digits + rest)[0] == digits[0];
    }
  }

  lemma LiteralIsRead(l: Literal, rest: string)
    requires IsLiteral(l) && (rest == "" || !Unicode.IsDigit(rest[0]))
    ensures ReadValue(LiteralText(l) + rest) == Some((LiteralValue(l), rest))
  {
    match l
    case Quoted(body) =>
      QuotedIsRead(body, rest);
      UnescapeSays(body);
    case Integer(negative, digits) =>
      IntegerIsRead(negative, digits, rest);
      IntegerIsParsed(negative, digits);
  }

  lemma ReadAreDigits(s: string, negative: bool) returns (digits: string)
    requires ReadDigits(s, negative).Some?
    ensures digits != "" && Unicode.AllDigits(digits) && s == digits + ReadDigits(s, negative).value.1
    ensures ReadDigits(s, negative).value.0 == IntegerOf(negative, digits)
  {
    digits := s[..DigitsEnd(s)];
  }

  lemma ReadIsQuoted(s: string) returns (l: Literal)
    requires s != "" && s[0] == '\"' && ReadValue(s).Some?
    ensures IsLiteral(l) && s == LiteralText(l) + ReadValue(s).value.1 && LiteralValue(l) == ReadValue(s).value.0
  {
    var (body, rest) := ReadLiteral(s[1..]).value;
    ReadIsBody(s[1..]);
    l := Quoted(body);
    QuotedText(s, body, rest);
    UnescapeSays(body);
  }

  lemma QuotedText(s: string, body: string, rest: string)
    requires s != "" && s[0] == '\"' && s[1..] == body + ("\"" + rest)
    ensures s == "\"" + (body + "\"") + rest
  {
    assert s == "\"" + s[1..];
    assert body + ("\"" + rest) == body + "\"" + rest;
  }

  lemma ReadIsNegative(s: string) returns (l: Literal)
    requires s != "" && s[0] == '-' && ReadValue(s).Some?
    ensures IsLiteral(l) && s == LiteralText(l) + ReadValue(s).value.1 && LiteralValue(l) == ReadValue(s).value.0
  {
    var digits := ReadAreDigits(s[1..], true);
    l := Integer(true, digits);
    IntegerIsParsed(true, digits);
    NegativeText(s, digits, ReadDigits(s[1..], true).value.1);
  }

  lemma NegativeText(s: string, digits: string, rest: string)
    requires s != "" && s[0] == '-' && s[1..] == digits + rest
    ensures s == "-" + digits + rest
  {
    assert s == "-" + s[1..];
  }

  lemma ReadIsLiteral(s: string) returns (l: Literal)
    requires ReadValue(s).Some?
    ensures IsLiteral(l) && s == LiteralText(l) + ReadValue(s).value.1 && LiteralValue(l) == ReadValue(s).value.0
  {
    if s != "" && s[0] == '\"' {
      l := ReadIsQuoted(s);
    } else if s != "" && s[0] == '-' {
      l := ReadIsNegative(s);
    } else {
      var digits := ReadAreDigits(s, false);
      l := Integer(false, digits);
      IntegerIsParsed(false, digits);
    }
  }

  // ---- the whole line ----

  lemma ArgumentIsMatched(l: Layout)
    requires IsLayout(l)
    ensures MatchArgument(Argument(l)) == Some(LiteralValue(l.literal))
  {
    var rest, end := Closing(l), ";" + l.end;
    SkipCharAt(l.afterName, '(', l.afterOpen, LiteralText(l.literal) + rest);
    LiteralIsRead(l.literal, rest);
    SkipCharAt(l.afterLiteral, ')', l.afterClose, end);
    SkipCharAt("", ';', l.end, "");
    assert "" + ([';'] + (l.end + "")) == end;
  }

  lemma WrittenIsMatched(l: Layout)
    requires IsLayout(l)
    ensures MatchFact(Written(l)) == Some((l.name, LiteralValue(l.literal)))
  {
    ArgumentIsMatched(l);
    SkipBlank(l.before, l.name + Argument(l));
    NameEndAt(l.name, Argument(l));
    var s := l.name + Argument(l);
    assert s[..|l.name|] == l.name && s[|l.name|..] == Argument(l);
  }

  /** The blanks around the closing parenthesis and the semicolon. */
  lemma MatchedClosing(rest: string) returns (afterLiteral: string, afterClose: string, end: string)
    requires SkipChar(rest, ')').Some? && SkipChar(SkipChar(rest, ')').value, ';') == Some("")
    ensures Blank(afterLiteral) && Blank(afterClose) && Blank(end)
    ensures rest == afterLiteral + (")" + (afterClose + (";" + end)))
  {
    afterLiteral, afterClose := SkippedChar(rest, ')');
    var last := SkipChar(rest, ')').value;
    var b: string;
    b, end := SkippedChar(last, ';');
    assert b == "" && end + "" == end;
  }

  lemma MatchedArgument(s: string, before: string, name: string) returns (l: Layout)
    requires MatchArgument(s).Some? && Blank(before) && IsName(name)
    ensures IsLayout(l) && l.before == before && l.name == name
    ensures Argument(l) == s && MatchArgument(s) == Some(LiteralValue(l.literal))
  {
    var afterName, afterOpen := SkippedChar(s, '(');
    var inside := SkipChar(s, '(').value;
    var literal := ReadIsLiteral(inside);
    var afterLiteral, afterClose, end := MatchedClosing(ReadValue(inside).value.1);
    l := Layout(before, name, afterName, afterOpen, literal, afterLiteral, afterClose, end);
  }

  lemma MatchedIsWritten(line: string) returns (l: Layout)
    requires MatchFact(line).Some?
    ensures IsLayout(l) && Written(l) == line && MatchFact(line) == Some((l.name, LiteralValue(l.literal)))
  {
    var before := SkippedBlank(line);
    var s := SkipSpace(line);
    var n := NameEnd(s);
    l := MatchedArgument(s[n..], before, s[..n]);
    NameAndRest(s, n);
  }

  lemma NameAndRest(s: string, n: nat)
    requires n <= |s|
    ensures s == s[..n] + s[n..]
  {
  }

  /** The matcher finds what a line says exactly when the line has the shape of the pattern. */
  lemma MatchIff(line: string, name: string, value: Value)
    ensures MatchFact(line) == Some((name, value)) <==> Reads(line, name, value)
  {
    if MatchFact(line) == Some((name, value)) {
      var l := MatchedIsWritten(line);
    } else if Reads(line, name, value) {
      var l :| IsLayout(l) && Written(l) == line && l.name == name && LiteralValue(l.literal) == value;
      WrittenIsMatched(l);
    }
  }

  /** A line has one reading at most. */
  lemma ReadingIsUnique(line: string, n: string, v: Value, n': string, v': Value)
    requires Reads(line, n, v) && Reads(line, n', v')
    ensures n == n' && v == v'
  {
    MatchIff(line, n, v);
    MatchIff(line, n', v');
  }
}
