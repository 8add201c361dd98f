/**
  The facts on a written fact line (`user("...");` and the like): for every value, also one with
  line breaks, arrows, quotes and backslashes, which facts extraction finds on the line or lines
  that its escaped text makes.
 */
module FactSource {
  import opened Wrappers
  import opened FactLines
  import opened FactPattern

  /** No line break and no arrow. */
  predicate Clean(s: string) {
    OneLine(s) && !HasArrow(s)
  }

  function FactLine(name: string, value: string): string {
    name + "(\"" + Escape(value) + "\");"
  }

  /** The values that extraction finds under `name` on the line written for `value`. */
  function FactValues(predicateName: string, value: string, name: string): seq<Value> {
    ValuesOf(SplitLines(FactLine(predicateName, value)), name)
  }

  // ---- arrows and line breaks ----

  lemma ArrowCons(c: char, t: string)
    ensures HasArrow([c] + t) <==> HasArrow(t) || (c == '<' && t != "" && t[0] == '-')
  {
    var s := [c] + t;
    if HasArrow(s) {
      var i :| 0 <= i < |s| - 1 && s[i] == '<' && s[i + 1] == '-';
      if i > 0 {
        assert t[i - 1] == '<' && t[i - 1 + 1] == '-';
      }
    }
    if HasArrow(t) {
      var i :| 0 <= i < |t| - 1 && t[i] == '<' && t[i + 1] == '-';
      assert s[i + 1] == '<' && s[i + 1 + 1] == '-';
    }
    if c == '<' && t != "" && t[0] == '-' {
      assert s[0] == '<' && s[0 + 1] == '-';
    }
  }

  lemma OneLineCons(c: char, t: string)
    ensures OneLine([c] + t) <==> !IsBreak(c) && OneLine(t)
  {
    var s := [c] + t;
    assert s[0] == c;
    assert forall i :: 0 <= i < |t| ==> s[i + 1] == t[i];
  }

  lemma OneLineConcat(a: string, b: string)
    ensures OneLine(a + b) <==> OneLine(a) && OneLine(b)
  {
    var s := a + b;
    assert forall i :: 0 <= i < |a| ==> s[i] == a[i];
    assert forall i :: 0 <= i < |b| ==> s[|a| + i] == b[i];
  }

  lemma {:induction false} ArrowAfter(a: string, b: string)
    requires forall i :: 0 <= i < |a| ==> a[i] != '<'
    ensures HasArrow(a + b) <==> HasArrow(b)
  {
    if a == "" {
      assert a + b == b;
    } else {
      assert a + b == [a[0]] + (a[1..] + b);
      ArrowCons(a[0], a[1..] + b);
      ArrowAfter(a[1..], b);
    }
  }

  lemma {:induction false} ArrowBefore(a: string, b: string)
    requires b != "" && b[0] != '-' && !HasArrow(b)
    ensures HasArrow(a + b) <==> HasArrow(a)
  {
    if a == "" {
      assert a + b == b;
    } else {
      assert a + b == [a[0]] + (a[1..] + b);
      assert a == [a[0]] + a[1..];
      ArrowCons(a[0], a[1..] + b);
      ArrowCons(a[0], a[1..]);
      ArrowBefore(a[1..], b);
    }
  }

  // ---- the written line ----

  /** Escaping neither makes nor breaks an arrow or a line. */
  lemma {:induction false} EscapeKeepsArrow(s: string)
    ensures HasArrow(EscapeEach(s)) <==> HasArrow(s)
    ensures OneLine(EscapeEach(s)) <==> OneLine(s)
    ensures (EscapeEach(s) != "" && EscapeEach(s)[0] == '-') <==> (s != "" && s[0] == '-')
  {
    if s == "" {
    } else {
      var t := EscapeEach(s[1..]);
      EscapeKeepsArrow(s[1..]);
      assert s == [s[0]] + s[1..];
      ArrowCons(s[0], s[1..]);
      OneLineCons(s[0], s[1..]);
      ArrowCons(s[0], t);
      OneLineCons(s[0], t);
      if s[0] == '\\' || s[0] == '\"' {
        ArrowCons('\\', [s[0]] + t);
        OneLineCons('\\', [s[0]] + t);
        assert EscapeEach(s) == ['\\'] + ([s[0]] + t);
      }
    }
  }

  lemma {:induction false} EscapedIsBody(value: string)
    ensures LiteralBody(EscapeEach(value))
  {
    if value == "" {
    } else {
      EscapedIsBody(value[1..]);
      var first := if value[0] == '\\' || value[0] == '\"' then ['\\', value[0]] else [value[0]];
      LongerBody(first, EscapeEach(value[1..]));
    }
  }

  function WrittenLayout(name: string, value: string): Layout {
    Layout("", name, "", "", Quoted(EscapeEach(value)), "", "", "")
  }

  lemma FactLineIsWritten(name: string, value: string)
    ensures FactLine(name, value) == Written(WrittenLayout(name, value))
  {
    EscapeIsEach(value);
    var l, e := WrittenLayout(name, value), EscapeEach(value);
    assert Closing(l) == ");";
    assert Argument(l) == "(\"" + e + "\");";
  }

  /** A fact line matches the pattern and gives back the value, whatever the value is. */
  lemma FactLineMatches(name: string, value: string)
    requires IsName(name)
    ensures MatchFact(FactLine(name, value)) == Some((name, Text(value)))
  {
    EscapedIsBody(value);
    UnescapeSays(EscapeEach(value));
    UnescapeEscape(value);
    FactLineIsWritten(name, value);
    WrittenIsMatched(WrittenLayout(name, value));
  }

  lemma NamePlain(name: string, i: nat)
    requires IsName(name) && i < |name|
    ensures !IsBreak(name[i]) && name[i] != '<' && name[i] != ' ' && name[i] != '('
  {
  }

  lemma ClosingPlain(b: string)
    requires b == "\");"
    ensures OneLine(b) && !HasArrow(b) && b != "" && b[0] != '-'
  {
  }

  /** The line breaks and arrows of a fact line are those of its value. */
  lemma FactLineKeeps(name: string, value: string)
    requires IsName(name)
    ensures HasArrow(FactLine(name, value)) <==> HasArrow(value)
    ensures OneLine(FactLine(name, value)) <==> OneLine(value)
  {
    EscapeIsEach(value);
    EscapeKeepsArrow(value);
    var opening, closing := name + "(\"", "\");";
    ClosingPlain(closing);
    forall i | 0 <= i < |opening| ensures opening[i] != '<' && !IsBreak(opening[i]) {
      if i < |name| {
        NamePlain(name, i);
      }
    }
    assert FactLine(name, value) == opening + (EscapeEach(value) + closing);
    ArrowAfter(opening, EscapeEach(value) + closing);
    ArrowBefore(EscapeEach(value), closing);
    OneLineConcat(opening, EscapeEach(value) + closing);
    OneLineConcat(EscapeEach(value), closing);
  }

  lemma PrefixChars(a: string, b: string)
    ensures a <= b <==> |a| <= |b| && forall i :: 0 <= i < |a| ==> a[i] == b[i]
  {
    assert |a| <= |b| && (forall i :: 0 <= i < |a| ==> a[i] == b[i]) ==> a == b[..|a|];
  }

  /** A fact line has no blanks to strip and looks like neither a comment nor a check. */
  lemma FactLineIsBare(name: string, value: string)
    requires IsName(name)
    ensures FactLine(name, value) != "" && Strip(FactLine(name, value)) == FactLine(name, value)
    ensures !("//" <= FactLine(name, value)) && !("check " <= FactLine(name, value))
  {
    var line := FactLine(name, value);
    assert line[0] == name[0];
    assert line[|line| - 1] == ';';
    assert line[|name|] == '(';
    forall i | 0 <= i < |name| ensures line[i] != ' ' {
      NamePlain(name, i);
    }
    var check := "check ";
    assert forall i :: 0 <= i < 6 ==> check[i] != '(';
    assert check[5] == ' ';
    PrefixChars(check, line);
  }

  // ---- where a text comes from ----

  predicate MatchesText(line: string) {
    MatchFact(line).Some? && MatchFact(line).value.1.Text?
  }

  /** A quoted literal in its line: a quote that no backslash precedes opens it, and another closes it. */
  lemma QuotedParts(line: string) returns (a: string, body: string, b: string)
    requires MatchesText(line)
    ensures line == a + body + b && MatchFact(line).value.1 == Text(Unescape(body))
    ensures |a| >= 2 && b != "" && line[|a| - 1] == '\"' == line[|a| + |body|] && line[|a| - 2] != '\\'
  {
    var l := MatchedIsWritten(line);
    UnescapeSays(l.literal.body);
    var blanks := l.before + l.name + l.afterName + "(" + l.afterOpen;
    a, body, b := blanks + "\"", l.literal.body, "\"" + Closing(l);
    OpeningEnd(l.before + l.name + l.afterName, l.afterOpen);
    assert a[|a| - 2] == blanks[|blanks| - 1];
    WrittenParts(l, blanks);
  }

  lemma OpeningEnd(s: string, blanks: string)
    requires Blank(blanks)
    ensures var opening := s + "(" + blanks; opening[|opening| - 1] != '\\'
  {
    var opening := s + "(" + blanks;
    assert opening[|opening| - 1] == if blanks == "" then '(' else blanks[|blanks| - 1];
  }

  lemma WrittenParts(l: Layout, blanks: string)
    requires l.literal.Quoted? && blanks == l.before + l.name + l.afterName + "(" + l.afterOpen
    ensures Written(l) == blanks + "\"" + l.literal.body + ("\"" + Closing(l))
  {
    var literal := LiteralText(l.literal);
    assert literal + Closing(l) == "\"" + l.literal.body + ("\"" + Closing(l));
    assert Written(l) == blanks + (literal + Closing(l));
  }

  // ---- the lines of a source ----

  lemma {:induction false} NoBreakAt(s: string)
    requires OneLine(s)
    ensures BreakAt(s) == |s|
  {
    if s == "" {
    } else {
      NoBreakAt(s[1..]);
    }
  }

  lemma UnbrokenLine(s: string)
    requires OneLine(s)
    ensures SplitLines(s) == if s == "" then [] else [s]
  {
    NoBreakAt(s);
    assert FirstLine(s) == s && AfterLine(s) == "";
  }

  // ---- what each line of a broken value says ----

  /** An escaped value has no closing quote of its own. */
  lemma {:induction false} EscapedIsUnclosed(value: string)
    ensures ReadLiteral(EscapeEach(value)) == None
  {
    if value == "" {
    } else {
      var s, tail := EscapeEach(value), EscapeEach(value[1..]);
      EscapedIsUnclosed(value[1..]);
      if value[0] == '\\' || value[0] == '\"' {
        assert s[0] == '\\' && s[1] == value[0] && s[2..] == tail;
      } else {
        assert s[1..] == tail;
      }
    }
  }

  /** A line broken off inside the literal is no fact. */
  lemma UnclosedIsNoFact(name: string, body: string)
    requires IsName(name) && ReadLiteral(body) == None
    ensures MatchFact(name + ("(" + ("\"" + body))) == None
  {
    UnclosedArgument("\"" + body);
    NamedArgument(name, "(" + ("\"" + body));
  }

  /** A name and then something else: the line is a fact exactly when that is an argument. */
  lemma NamedArgument(name: string, argument: string)
    requires IsName(name) && argument != "" && !IsNameChar(argument[0])
    ensures MatchFact(name + argument).Some? <==> MatchArgument(argument).Some?
  {
    NameEndAt(name, argument);
    assert (name + argument)[0] == name[0];
    assert (name + argument)[|name|..] == argument;
  }

  lemma UnclosedArgument(literal: string)
    requires literal != "" && literal[0] == '\"' && ReadLiteral(literal[1..]) == None
    ensures MatchArgument("(" + literal) == None
  {
    assert ("(" + literal)[1..] == literal;
  }

  /** Every quote in `s` before `n` follows a backslash. */
  predicate Guarded(s: string, n: nat)
    requires n <= |s|
  {
    forall i :: 0 <= i < n && s[i] == '\"' ==> i > 0 && s[i - 1] == '\\'
  }

  lemma {:induction false} EscapeGuards(value: string)
    ensures Guarded(EscapeEach(value), |EscapeEach(value)|)
  {
    if value == "" {
    } else {
      EscapeGuards(value[1..]);
      var e, tail := EscapeEach(value), EscapeEach(value[1..]);
      var w := |e| - |tail|;
      assert forall i :: w <= i < |e| ==> e[i] == tail[i - w];
    }
  }

  /** Without an unguarded quote, or with one just before the end, no text is quoted. */
  lemma GuardedIsNoText(s: string)
    requires Guarded(s, |s|) || (|s| >= 3 && Guarded(s, |s| - 3) && s[|s| - 2] == ')' && s[|s| - 1] == ';')
    ensures !MatchesText(s)
  {
    if MatchesText(s) {
      var a, body, b := QuotedParts(s);
    }
  }

  predicate Unquoted(s: string) {
    forall i :: 0 <= i < |s| ==> s[i] != '\"' && s[i] != '\\'
  }

  lemma UnquotedConcat(a: string, b: string)
    requires Unquoted(a) && Unquoted(b)
    ensures Unquoted(a + b)
  {
  }

  lemma UnquotedLayout(l: Layout)
    requires IsLayout(l) && l.literal.Integer?
    ensures Unquoted(Written(l))
  {
    assert forall i :: 0 <= i < |l.name| ==> IsNameChar(l.name[i]);
    var rest := LiteralText(l.literal) + Closing(l);
    assert Unquoted(LiteralText(l.literal)) && Unquoted(Closing(l));
    UnquotedConcat(LiteralText(l.literal), Closing(l));
    UnquotedConcat(l.afterOpen, rest);
    UnquotedConcat("(", l.afterOpen + rest);
    UnquotedConcat(l.afterName, "(" + (l.afterOpen + rest));
    UnquotedConcat(l.name, Argument(l));
    UnquotedConcat(l.before, l.name + Argument(l));
  }

  /** A line that says an integer has no quotes and no backslashes. */
  lemma IntegerIsUnquoted(line: string)
    ensures MatchFact(line).Some? && !MatchFact(line).value.1.Text? ==> Unquoted(line)
  {
    if MatchFact(line).Some? && !MatchFact(line).value.1.Text? {
      var l := MatchedIsWritten(line);
      UnquotedLayout(l);
    }
  }

  lemma UnquotedCons(c: char, t: string)
    ensures Unquoted([c] + t) <==> c != '\"' && c != '\\' && Unquoted(t)
  {
    var s := [c] + t;
    assert forall i :: 0 <= i < |t| ==> s[i + 1] == t[i];
    assert s[0] == c;
  }

  lemma {:induction false} UnquotedEscape(s: string)
    ensures Unquoted(EscapeEach(s)) <==> Unquoted(s)
    ensures Unquoted(s) ==> EscapeEach(s) == s
  {
    if s == "" {
    } else {
      var tail := EscapeEach(s[1..]);
      UnquotedEscape(s[1..]);
      assert s == [s[0]] + s[1..];
      UnquotedCons(s[0], s[1..]);
      if s[0] == '\\' || s[0] == '\"' {
        assert EscapeEach(s) == ['\\'] + ([s[0]] + tail);
        UnquotedCons('\\', [s[0]] + tail);
      } else {
        UnquotedCons(s[0], tail);
      }
    }
  }

  /** The integers, as values, that a line says of `name`. */
  function IntegersOn(line: string, name: string): seq<Value> {
    match FactOn(line)
    case Some((p, value)) => if p == name && !value.Text? then [value] else []
    case None => []
  }

  function IntegersOf(lines: seq<string>, name: string): seq<Value> {
    if lines == [] then [] else IntegersOn(lines[0], name) + IntegersOf(lines[1..], name)
  }

  lemma {:induction false} OnlyIntegers(lines: seq<string>, name: string)
    ensures forall value :: value in IntegersOf(lines, name) ==> !value.Text?
  {
    if lines == [] {
    } else {
      OnlyIntegers(lines[1..], name);
    }
  }

  /** An escaped line says the integers that the line itself says, and no text. */
  lemma EscapedLineValues(line: string, name: string)
    ensures ValuesOn(EscapeEach(line), name) == IntegersOn(line, name)
  {
    EscapeGuards(line);
    GuardedIsNoText(EscapeEach(line));
    UnquotedEscape(line);
    IntegerIsUnquoted(EscapeEach(line));
    IntegerIsUnquoted(line);
  }

  /** What stands before the closing of the literal, after the last break, says nothing. */
  lemma LastLineIsNoFact(value: string)
    ensures FactOn(EscapeEach(value) + "\");") == None
  {
    var e, closing := EscapeEach(value), "\");";
    var line := e + closing;
    EscapeGuards(value);
    assert forall i :: 0 <= i < |e| ==> line[i] == e[i];
    assert line[|e|] == '\"' && line[|e| + 1] == ')' && line[|e| + 2] == ';';
    GuardedIsNoText(line);
    IntegerIsUnquoted(line);
  }

  // ---- the lines of a broken value ----

  lemma {:induction false} BreakAfterHead(head: string, rest: string)
    requires OneLine(head)
    ensures BreakAt(head + rest) == |head| + BreakAt(rest)
  {
    if head == "" {
      assert head + rest == rest;
    } else {
      assert (head + rest)[1..] == head[1..] + rest;
      BreakAfterHead(head[1..], rest);
    }
  }

  lemma HeadIsOneLine(name: string)
    requires IsName(name)
    ensures OneLine(name + "(\"")
  {
    var head := name + "(\"";
    forall i | 0 <= i < |head| ensures !IsBreak(head[i]) {
      if i < |name| {
        NamePlain(name, i);
      }
    }
  }

  lemma AfterBreakShift(head: string, rest: string, m: nat)
    requires m < |rest|
    ensures AfterBreak(head + rest, |head| + m) == AfterBreak(rest, m)
  {
    assert (head + rest)[|head| + m] == rest[m];
    assert (head + rest)[|head| + m + 1..] == rest[m + 1..];
  }

  /** Splitting a text whose first part has no break. */
  lemma SplitAfterHead(head: string, rest: string)
    requires OneLine(head)
    ensures FirstLine(head + rest) == head + FirstLine(rest) && AfterLine(head + rest) == AfterLine(rest)
  {
    BreakAfterHead(head, rest);
    TakeAfterHead(head, rest, BreakAt(rest));
    if BreakAt(rest) < |rest| {
      AfterBreakShift(head, rest, BreakAt(rest));
    }
  }

  lemma TakeAfterHead(head: string, rest: string, m: nat)
    requires m <= |rest|
    ensures (head + rest)[..|head| + m] == head + rest[..m]
  {
  }

  lemma {:induction false} EscapeConcat(a: string, b: string)
    ensures EscapeEach(a + b) == EscapeEach(a) + EscapeEach(b)
  {
    if a == "" {
      assert a + b == b;
    } else {
      assert (a + b)[1..] == a[1..] + b;
      EscapeConcat(a[1..], b);
    }
  }

  /** Every line of `v` that ends at a break. */
  function EndedLines(v: string): seq<string>
    decreases |v|
  {
    if BreakAt(v) == |v| then [] else [FirstLine(v)] + EndedLines(AfterLine(v))
  }

  /** The lines that stand whole between two breaks of `value`. */
  function InnerLines(value: string): seq<string> {
    if BreakAt(value) == |value| then [] else EndedLines(AfterLine(value))
  }

  lemma UnescapedCons(c: char, t: string, closing: string)
    requires c != '\\' && c != '\"'
    ensures EscapeEach([c] + t) + closing == [c] + (EscapeEach(t) + closing)
  {
    assert ([c] + t)[1..] == t;
  }

  /** Escaping leaves what follows a break where it is. */
  lemma EscapedFeed(c: char, t: string, closing: string)
    requires closing != "" && closing[0] != '\n'
    ensures DropFeed(c, EscapeEach(t) + closing) == EscapeEach(DropFeed(c, t)) + closing
  {
    if t != "" {
      EscapedSecond(t, closing);
    }
  }

  lemma BreakInFront(s: string)
    requires s != "" && IsBreak(s[0])
    ensures FirstLine(s) == "" && AfterLine(s) == AfterBreak(s, 0)
    ensures s[0] != '\\' && s[0] != '\"'
  {
  }

  lemma EscapedSecond(w: string, closing: string)
    requires w != ""
    ensures (EscapeEach(w) + closing)[0] == '\n' <==> w[0] == '\n'
    ensures w[0] == '\n' ==> (EscapeEach(w) + closing)[1..] == EscapeEach(w[1..]) + closing
  {
  }

  /** A text with a break: the first line, and the rest from the break on. */
  lemma Halves(v: string) returns (first: string, w: string)
    requires BreakAt(v) < |v|
    ensures v == first + w && OneLine(first) && w != "" && IsBreak(w[0])
    ensures FirstLine(v) == first && AfterLine(v) == AfterBreak(w, 0)
  {
    first, w := FirstLine(v), v[BreakAt(v)..];
    assert v == first + w;
    AfterBreakShift(first, w, 0);
  }

  lemma EscapedFront(w: string, closing: string)
    requires w != "" && IsBreak(w[0]) && closing != "" && closing[0] != '\n'
    ensures FirstLine(EscapeEach(w) + closing) == ""
    ensures AfterLine(EscapeEach(w) + closing) == EscapeEach(AfterBreak(w, 0)) + closing
  {
    BreakInFront(w);
    var c, t := w[0], w[1..];
    assert w == [c] + t;
    UnescapedCons(c, t, closing);
    EscapedFeed(c, t, closing);
    var s := [c] + (EscapeEach(t) + closing);
    BreakInFront(s);
    assert s[1..] == EscapeEach(t) + closing;
  }

  lemma EscapedParts(first: string, w: string, closing: string)
    requires OneLine(first) && w != "" && IsBreak(w[0]) && closing != "" && closing[0] != '\n'
    ensures FirstLine(EscapeEach(first + w) + closing) == EscapeEach(first)
    ensures AfterLine(EscapeEach(first + w) + closing) == EscapeEach(AfterBreak(w, 0)) + closing
  {
    EscapedSplit(first + w, first, w, closing);
    EscapeKeepsArrow(first);
    SplitAfterHead(EscapeEach(first), EscapeEach(w) + closing);
    EscapedFront(w, closing);
  }

  /** The first line of an escaped text with a break is the escaped first line; likewise what follows. */
  lemma EscapedFirst(v: string, closing: string)
    requires BreakAt(v) < |v| && closing != "" && closing[0] != '\n'
    ensures FirstLine(EscapeEach(v) + closing) == EscapeEach(FirstLine(v))
    ensures AfterLine(EscapeEach(v) + closing) == EscapeEach(AfterLine(v)) + closing
  {
    var first, w := Halves(v);
    EscapedParts(first, w, closing);
  }

  lemma EscapedSplit(v: string, first: string, w: string, closing: string)
    requires v == first + w
    ensures EscapeEach(v) + closing == EscapeEach(first) + (EscapeEach(w) + closing)
  {
    EscapeConcat(first, w);
  }

  lemma FirstLineValues(s: string, name: string)
    requires s != ""
    ensures ValuesOf(SplitLines(s), name) == ValuesOn(FirstLine(s), name) + ValuesOf(SplitLines(AfterLine(s)), name)
  {
    ValuesConcat([FirstLine(s)], SplitLines(AfterLine(s)), name);
    OneLineValues(FirstLine(s), name);
  }

  lemma WholeIsOneLine(s: string)
    requires BreakAt(s) == |s|
    ensures OneLine(s)
  {
    assert s[..|s|] == s;
  }

  /** After the first break of a value: the integers on the lines that end at a break, and nothing else. */
  lemma {:induction false} RestValues(v: string, name: string)
    ensures ValuesOf(SplitLines(EscapeEach(v) + "\");"), name) == IntegersOf(EndedLines(v), name)
    decreases |v|
  {
    var s := EscapeEach(v) + "\");";
    if BreakAt(v) == |v| {
      WholeIsOneLine(v);
      EscapeKeepsArrow(v);
      OneLineConcat(EscapeEach(v), "\");");
      UnbrokenLine(s);
      OneLineValues(s, name);
      LastLineIsNoFact(v);
    } else {
      EscapedFirst(v, "\");");
      FirstLineValues(s, name);
      EscapedLineValues(FirstLine(v), name);
      RestValues(AfterLine(v), name);
    }
  }

  /** The line of a value with a break says what stands whole between two of the value's breaks. */
  lemma BrokenValues(predicateName: string, value: string, name: string)
    requires IsName(predicateName) && !OneLine(value)
    ensures FactValues(predicateName, value, name) == IntegersOf(InnerLines(value), name)
  {
    var head, rest := predicateName + "(\"", EscapeEach(value) + "\");";
    if BreakAt(value) == |value| {
      WholeIsOneLine(value);
    }
    EscapeIsEach(value);
    HeadIsOneLine(predicateName);
    var line := head + rest;
    assert FactLine(predicateName, value) == line;
    SplitAfterHead(head, rest);
    EscapedFirst(value, "\");");
    FirstLineValues(line, name);
    BrokenOff(predicateName, FirstLine(value));
    RestValues(AfterLine(value), name);
  }

  lemma BrokenOff(name: string, first: string)
    requires IsName(name)
    ensures FactOn(name + "(\"" + EscapeEach(first)) == None
  {
    var body := EscapeEach(first);
    EscapedIsUnclosed(first);
    UnclosedIsNoFact(name, body);
    assert name + "(\"" + body == name + ("(" + ("\"" + body));
  }

  /** The values of a line without breaks: its own text, or nothing if there is an arrow. */
  lemma CleanValues(predicateName: string, value: string, name: string)
    requires IsName(predicateName) && OneLine(value)
    ensures FactValues(predicateName, value, name)
         == if name == predicateName && !HasArrow(value) then [Text(value)] else []
  {
    var line := FactLine(predicateName, value);
    FactLineKeeps(predicateName, value);
    FactLineIsBare(predicateName, value);
    FactLineMatches(predicateName, value);
    UnbrokenLine(line);
    OneLineValues(line, name);
  }

  /**
    All that extraction finds on the line written for a value: the value itself under its own
    predicate if it is clean, and the integers on whole lines inside it.
   */
  lemma FactValuesAre(predicateName: string, value: string, name: string)
    requires IsName(predicateName)
    ensures FactValues(predicateName, value, name)
         == (if name == predicateName && Clean(value) then [Text(value)] else []) + IntegersOf(InnerLines(value), name)
  {
    if OneLine(value) {
      CleanValues(predicateName, value, name);
      NoBreakAt(value);
    } else {
      BrokenValues(predicateName, value, name);
    }
  }

  /** A fact line yields a text exactly when the text is its own value and is clean. */
  lemma TextsIff(predicateName: string, value: string, name: string, text: string)
    requires IsName(predicateName)
    ensures Text(text) in FactValues(predicateName, value, name)
            <==> name == predicateName && text == value && Clean(value)
  {
    FactValuesAre(predicateName, value, name);
    OnlyIntegers(InnerLines(value), name);
  }

  /** Escaping and extraction undo each other exactly for the clean values. */
  lemma ExtractionIff(name: string, value: string)
    requires IsName(name)
    ensures FactValues(name, value, name) == [Text(value)] <==> Clean(value)
  {
    if OneLine(value) {
      CleanValues(name, value, name);
    } else {
      var facts := FactValues(name, value, name);
      TextsIff(name, value, name, value);
      assert facts == [Text(value)] ==> Text(value) in facts;
    }
  }
}
