/**
  Datalog fact lines: escaping a string into a literal (`_escape_datalog_string`), matching a line
  against the fact pattern (`_FACT_LINE_RE`) and collecting the facts of a token's blocks
  (`extract_facts`).
 */
module FactLines {
  import opened Wrappers
  import Decimal
  import Unicode

  // ---- characters ----

  /** What `\s` matches and `str.strip` strips. */
  predicate IsSpace(c: char) {
    Unicode.IsSpace(c)
  }

  /** What `str.splitlines` splits at. */
  predicate IsBreak(c: char) {
    var v := c as int;
    10 <= v <= 13 || 28 <= v <= 30 || v == 0x85 || v == 0x2028 || v == 0x2029
  }

  predicate IsNameStart(c: char) {
    'a' <= c <= 'z'
  }

  predicate IsNameChar(c: char) {
    'a' <= c <= 'z' || 'A' <= c <= 'Z' || '0' <= c <= '9' || c == '_'
  }

  predicate OneLine(s: string) {
    forall i :: 0 <= i < |s| ==> !IsBreak(s[i])
  }

  /** `"<-" in s` */
  predicate HasArrow(s: string) {
    exists i :: 0 <= i < |s| - 1 && s[i] == '<' && s[i + 1] == '-'
  }

  // ---- escaping ----

  /** `s.replace(c, with)` for a one-character `c`. */
  function Replace(s: string, c: char, with: string): string {
    if s == "" then "" else (if s[0] == c then with else [s[0]]) + Replace(s[1..], c, with)
  }

  function Escape(s: string): string {
    Replace(Replace(s, '\\', "\\\\"), '\"', "\\\"")
  }

  /** The same escape, said character by character. */
  function EscapeEach(s: string): string {
    if s == "" then ""
    else (if s[0] == '\\' || s[0] == '\"' then ['\\', s[0]] else [s[0]]) + EscapeEach(s[1..])
  }

  /** `re.sub(r'\\(["\\])', r'\1', s)` */
  function Unescape(s: string): string {
    if |s| >= 2 && s[0] == '\\' && (s[1] == '\"' || s[1] == '\\') then [s[1]] + Unescape(s[2..])
    else if s != "" then [s[0]] + Unescape(s[1..])
    else ""
  }

  lemma {:induction false} ReplaceConcat(a: string, b: string, c: char, with: string)
    ensures Replace(a + b, c, with) == Replace(a, c, with) + Replace(b, c, with)
  {
    if a == "" {
      assert a + b == b;
    } else {
      assert (a + b)[1..] == a[1..] + b;
      ReplaceConcat(a[1..], b, c, with);
      var head, tail := if a[0] == c then with else [a[0]], Replace(a[1..], c, with);
      assert head + (tail + Replace(b, c, with)) == head + tail + Replace(b, c, with);
    }
  }

  /** The two replacements, one after the other, escape each character by itself. */
  lemma {:induction false} EscapeIsEach(s: string)
    ensures Escape(s) == EscapeEach(s)
  {
    if s == "" {
    } else {
      var first := Replace([s[0]], '\\', "\\\\");
      assert [s[0]][1..] == "";
      assert [s[0]] + s[1..] == s;
      ReplaceConcat([s[0]], s[1..], '\\', "\\\\");
      ReplaceConcat(first, Replace(s[1..], '\\', "\\\\"), '\"', "\\\"");
      ReplacedChar(s[0]);
      EscapeIsEach(s[1..]);
    }
  }

  lemma ReplacedChar(c: char)
    ensures Replace(Replace([c], '\\', "\\\\"), '\"', "\\\"") == if c == '\\' || c == '\"' then ['\\', c] else [c]
  {
    assert [c][1..] == "";
    if c == '\\' {
      var two := "\\\\";
      assert Replace([c], '\\', two) == two;
      assert two[1..] == "\\" && "\\"[1..] == "";
      assert Replace(two, '\"', "\\\"") == two;
    } else {
      assert Replace([c], '\\', "\\\\") == [c];
    }
  }

  lemma {:induction false} UnescapeEscape(s: string)
    ensures Unescape(EscapeEach(s)) == s
  {
    if s == "" {
    } else {
      UnescapeEscape(s[1..]);
      var e := EscapeEach(s);
      if s[0] == '\\' || s[0] == '\"' {
        assert e[2..] == EscapeEach(s[1..]);
      } else {
        assert e[1..] == EscapeEach(s[1..]);
      }
    }
  }

  lemma EscapeInjective(a: string, b: string)
    requires Escape(a) == Escape(b)
    ensures a == b
  {
    EscapeIsEach(a);
    EscapeIsEach(b);
    UnescapeEscape(a);
    UnescapeEscape(b);
  }

  // ---- the fact pattern ----

  /** What a literal says; `TooLong` is an integer of more digits than `int` reads. */
  datatype Value = Text(text: string) | Number(number: int) | TooLong

  function SkipSpace(s: string): (r: string)
    ensures |r| <= |s|
  {
    if s != "" && IsSpace(s[0]) then SkipSpace(s[1..]) else s
  }

  /** The rest of `s` after blanks, `c` and more blanks. */
  function SkipChar(s: string, c: char): (r: Option<string>)
    ensures r.Some? ==> |r.value| < |s|
  {
    var t := SkipSpace(s);
    if t != "" && t[0] == c then Some(SkipSpace(t[1..])) else None
  }

  function NameEnd(s: string): (n: nat)
    ensures n <= |s| && forall i :: 0 <= i < n ==> IsNameChar(s[i])
  {
    if s != "" && IsNameChar(s[0]) then 1 + NameEnd(s[1..]) else 0
  }

  function DigitsEnd(s: string): (n: nat)
    ensures n <= |s| && forall i :: 0 <= i < n ==> Unicode.IsDigit(s[i])
  {
    if s != "" && Unicode.IsDigit(s[0]) then 1 + DigitsEnd(s[1..]) else 0
  }

  /** The raw text of a literal up to its closing quote, and what follows the quote. */
  function ReadLiteral(s: string): (r: Option<(string, string)>)
    ensures r.Some? ==> |r.value.0| + |r.value.1| < |s| && r.value.0 <= s
  {
    if s == "" then None
    else if s[0] == '\"' then Some(("", s[1..]))
    else if s[0] == '\\' then
      if |s| >= 2 && s[1] != '\n' then
        match ReadLiteral(s[2..])
        case Some((raw, rest)) => Some((s[..2] + raw, rest))
        case None => None
      else None
    else
      match ReadLiteral(s[1..])
      case Some((raw, rest)) => Some((s[..1] + raw, rest))
      case None => None
  }

  function Signed(negative: bool, n: nat): int {
    if negative then 0 - n else n
  }

  function IntegerOf(negative: bool, digits: string): Value
    requires Unicode.AllDigits(digits)
  {
    if |digits| <= Decimal.MAX_DIGITS then Number(Signed(negative, Unicode.Parse(digits))) else TooLong
  }

  function ReadDigits(s: string, negative: bool): (r: Option<(Value, string)>)
    ensures r.Some? ==> |r.value.1| < |s|
  {
    var n := DigitsEnd(s);
    if n == 0 then None else Some((IntegerOf(negative, s[..n]), s[n..]))
  }

  function ReadValue(s: string): (r: Option<(Value, string)>)
    ensures r.Some? ==> |r.value.1| < |s|
  {
    if s != "" && s[0] == '\"' then
      match ReadLiteral(s[1..])
      case Some((raw, rest)) => Some((Text(Unescape(raw)), rest))
      case None => None
    else if s != "" && s[0] == '-' then ReadDigits(s[1..], true)
    else ReadDigits(s, false)
  }

  /** The value of `( value ) ;` up to the end of the line, blanks allowed in between. */
  function MatchArgument(s: string): Option<Value> {
    match SkipChar(s, '(')
    case None => None
    case Some(inside) =>
      match ReadValue(inside)
      case None => None
      case Some((value, rest)) =>
        match SkipChar(rest, ')')
        case None => None
        case Some(end) => if SkipChar(end, ';') == Some("") then Some(value) else None
  }

  /** The name and value of a line that has the shape `name ( value ) ;`; `FactPattern.MatchIff` says which. */
  function MatchFact(line: string): Option<(string, Value)> {
    var s := SkipSpace(line);
    var n := NameEnd(s);
    if n == 0 || !IsNameStart(s[0]) then None
    else
      match MatchArgument(s[n..])
      case Some(value) => Some((s[..n], value))
      case None => None
  }

  // ---- the lines of a block ----

  function StripRight(s: string): string {
    if s != "" && IsSpace(s[|s| - 1]) then StripRight(s[..|s| - 1]) else s
  }

  function Strip(s: string): string {
    StripRight(SkipSpace(s))
  }

  /** The fact on one line of a block, if it holds one: blanks, comments, checks and rules do not. */
  function FactOn(line: string): Option<(string, Value)> {
    var stripped := Strip(line);
    if stripped == "" || "//" <= stripped || "check " <= stripped || HasArrow(stripped) then None
    else MatchFact(line)
  }

  function BreakAt(s: string): (n: nat)
    ensures n <= |s| && OneLine(s[..n]) && (n < |s| ==> IsBreak(s[n]))
  {
    if s == "" || IsBreak(s[0]) then 0 else 1 + BreakAt(s[1..])
  }

  function FirstLine(s: string): string {
    s[..BreakAt(s)]
  }

  /** A line feed that follows a carriage return belongs to the same break. */
  function DropFeed(c: char, rest: string): (r: string)
    ensures |r| <= |rest|
  {
    if c == '\r' && rest != "" && rest[0] == '\n' then rest[1..] else rest
  }

  function AfterBreak(s: string, n: nat): (r: string)
    requires n < |s|
    ensures |r| < |s|
  {
    DropFeed(s[n], s[n + 1..])
  }

  function AfterLine(s: string): (r: string)
    ensures s != "" ==> |r| < |s|
  {
    if BreakAt(s) == |s| then "" else AfterBreak(s, BreakAt(s))
  }

  /** `s.splitlines()` */
  function SplitLines(s: string): seq<string>
    decreases |s|
  {
    if s == "" then [] else [FirstLine(s)] + SplitLines(AfterLine(s))
  }

  /** The lines of all blocks; a block without source has none. */
  function LinesOf(blocks: seq<Option<string>>): seq<string> {
    if blocks == [] then []
    else
      var n := |blocks| - 1;
      LinesOf(blocks[..n]) + (match blocks[n] case Some(source) => SplitLines(source) case None => [])
  }

  /** The values that `lines` give `name`, in order. */
  function ValuesOf(lines: seq<string>, name: string): seq<Value> {
    if lines == [] then []
    else
      var n := |lines| - 1;
      ValuesOf(lines[..n], name) + ValuesOn(lines[n], name)
  }

  function ValuesOn(line: string, name: string): seq<Value> {
    match FactOn(line)
    case Some((predicateName, value)) => if predicateName == name then [value] else []
    case None => []
  }

  /** `facts` lists, for every predicate with a fact in `lines`, its values in order. */
  ghost predicate ListsFacts(facts: map<string, seq<Value>>, lines: seq<string>) {
    forall name ::
      && (name in facts <==> ValuesOf(lines, name) != [])
      && (name in facts ==> facts[name] == ValuesOf(lines, name))
  }

  lemma LinesOfNext(blocks: seq<Option<string>>, b: nat)
    requires b < |blocks|
    ensures blocks[b].None? ==> LinesOf(blocks[..b + 1]) == LinesOf(blocks[..b])
    ensures blocks[b].Some? ==> LinesOf(blocks[..b + 1]) == LinesOf(blocks[..b]) + SplitLines(blocks[b].value)
  {
    assert blocks[..b + 1][..b] == blocks[..b];
  }

  /** `facts.setdefault(name, []).append(value)` */
  function Appended(facts: map<string, seq<Value>>, name: string, value: Value): map<string, seq<Value>> {
    facts[name := (if name in facts then facts[name] else []) + [value]]
  }

  /** The facts after `line`, given those before it. */
  function WithLine(facts: map<string, seq<Value>>, line: string): map<string, seq<Value>> {
    match FactOn(line)
    case Some((name, value)) => Appended(facts, name, value)
    case None => facts
  }

  lemma OneLineValues(line: string, name: string)
    ensures ValuesOf([line], name) == ValuesOn(line, name)
  {
    assert [line][..0] == [];
  }

  lemma {:induction false} ValuesConcat(a: seq<string>, b: seq<string>, name: string)
    ensures ValuesOf(a + b, name) == ValuesOf(a, name) + ValuesOf(b, name)
  {
    if b == [] {
      assert a + b == a;
    } else {
      var n := |b| - 1;
      assert (a + b)[..|a + b| - 1] == a + b[..n];
      ValuesConcat(a, b[..n], name);
    }
  }

  // ---- extraction ----

  /** `int` raises on the line's integer, and extraction with it. */
  predicate Refused(line: string) {
    match FactOn(line)
    case Some((_, value)) => value == TooLong
    case None => false
  }

  ghost predicate AnyRefused(lines: seq<string>) {
    exists name :: TooLong in ValuesOf(lines, name)
  }

  lemma AnyRefusedConcat(a: seq<string>, b: seq<string>)
    ensures AnyRefused(a + b) <==> AnyRefused(a) || AnyRefused(b)
  {
    forall name
      ensures TooLong in ValuesOf(a + b, name) <==> TooLong in ValuesOf(a, name) || TooLong in ValuesOf(b, name)
    {
      ValuesConcat(a, b, name);
    }
  }

  lemma RefusedIsValue(line: string)
    ensures Refused(line) <==> AnyRefused([line])
  {
    forall name ensures ValuesOf([line], name) == ValuesOn(line, name) {
      OneLineValues(line, name);
    }
    if Refused(line) {
      var name := FactOn(line).value.0;
      assert ValuesOf([line], name) == [TooLong];
    }
  }

  lemma RefusedNext(lines: seq<string>, i: nat)
    requires i < |lines|
    ensures AnyRefused(lines[..i + 1]) <==> AnyRefused(lines[..i]) || Refused(lines[i])
  {
    assert lines[..i + 1] == lines[..i] + [lines[i]];
    AnyRefusedConcat(lines[..i], [lines[i]]);
    RefusedIsValue(lines[i]);
  }

  lemma SplitSeq(lines: seq<string>, i: nat)
    requires i <= |lines|
    ensures lines == lines[..i] + lines[i..]
  {
  }

  lemma RefusedInPart(lines: seq<string>, i: nat)
    requires i <= |lines| && AnyRefused(lines[..i])
    ensures AnyRefused(lines)
  {
    AnyRefusedConcat(lines[..i], lines[i..]);
    SplitSeq(lines, i);
  }

  /** The inner loop: the facts on the lines of one block, after those of the lines `before`. */
  method AddFacts(facts: map<string, seq<Value>>, ghost before: seq<string>, lines: seq<string>)
    returns (r: Result<map<string, seq<Value>>, string>)
    requires ListsFacts(facts, before)
    ensures r.Failure? <==> AnyRefused(lines)
    ensures r.Failure? ==> r.error == "ValueError"
    ensures r.Success? ==> ListsFacts(r.value, before + lines)
  {
    var all := facts;
    assert before + lines[..0] == before;
    for i := 0 to |lines|
      invariant ListsFacts(all, before + lines[..i])
      invariant !AnyRefused(lines[..i])
    {
      RefusedNext(lines, i);
      if Refused(lines[i]) {
        RefusedInPart(lines, i + 1);
        return Failure("ValueError");
      }
      NextLine(all, before, lines, i);
      all := WithLine(all, lines[i]);
    }
    assert lines[..|lines|] == lines;
    return Success(all);
  }

  method ExtractFacts(blocks: seq<Option<string>>) returns (r: Result<map<string, seq<Value>>, string>)
    ensures r.Failure? <==> AnyRefused(LinesOf(blocks))
    ensures r.Failure? ==> r.error == "ValueError"
    ensures r.Success? ==> ListsFacts(r.value, LinesOf(blocks))
  {
    var facts: map<string, seq<Value>> := map[];
    for b := 0 to |blocks|
      invariant ListsFacts(facts, LinesOf(blocks[..b])) && !AnyRefused(LinesOf(blocks[..b]))
    {
      LinesOfNext(blocks, b);
      if blocks[b].Some? {
        var lines := SplitLines(blocks[b].value);
        var more := AddFacts(facts, LinesOf(blocks[..b]), lines);
        AnyRefusedConcat(LinesOf(blocks[..b]), lines);
        if more.Failure? {
          RefusedInPrefix(blocks, b + 1);
          return more;
        }
        facts := more.value;
      }
    }
    assert blocks[..|blocks|] == blocks;
    return Success(facts);
  }

  lemma {:induction false} RefusedInPrefix(blocks: seq<Option<string>>, b: nat)
    requires b <= |blocks| && AnyRefused(LinesOf(blocks[..b]))
    ensures AnyRefused(LinesOf(blocks))
    decreases |blocks| - b
  {
    if b == |blocks| {
      assert blocks[..b] == blocks;
    } else {
      LinesOfNext(blocks, b);
      if blocks[b].Some? {
        AnyRefusedConcat(LinesOf(blocks[..b]), SplitLines(blocks[b].value));
      }
      RefusedInPrefix(blocks, b + 1);
    }
  }

  lemma LinesAppend(facts: map<string, seq<Value>>, lines: seq<string>, line: string)
    requires ListsFacts(facts, lines)
    ensures ListsFacts(WithLine(facts, line), lines + [line])
  {
    forall name ensures ValuesOf(lines + [line], name) == ValuesOf(lines, name) + ValuesOn(line, name) {
      assert (lines + [line])[..|lines|] == lines;
    }
  }

  lemma NextLine(facts: map<string, seq<Value>>, before: seq<string>, lines: seq<string>, i: nat)
    requires i < |lines| && ListsFacts(facts, before + lines[..i])
    ensures ListsFacts(WithLine(facts, lines[i]), before + lines[..i + 1])
  {
    LinesAppend(facts, before + lines[..i], lines[i]);
    assert before + lines[..i + 1] == before + lines[..i] + [lines[i]];
  }
}
