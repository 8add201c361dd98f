/**
  What a line of a block's source says, and what its lines are, without the reader: which lines
  `FactLines.FactOn` takes as facts, and where `FactLines.SplitLines` ends a line.
 */
module FactReading {
  import opened Wrappers
  import opened FactLines
  import opened FactPattern
  import opened FactSource
  import Integers
  import Unicode

  // ---- facts ----

  ghost predicate Contains(s: string, part: string) {
    exists a, b :: s == a + (part + b)
  }

  /** A written fact that is no check, and no arrow anywhere on the line. */
  ghost predicate Says(line: string, l: Layout) {
    && IsLayout(l) && Written(l) == line
    && !(l.name == "check" && l.afterName != "" && l.afterName[0] == ' ')
    && !Contains(line, "<-")
  }

  lemma ArrowIff(s: string)
    ensures HasArrow(s) <==> Contains(s, "<-")
  {
    if HasArrow(s) {
      var i :| 0 <= i < |s| - 1 && s[i] == '<' && s[i + 1] == '-';
      assert s == s[..i] + ("<-" + s[i + 2..]);
    }
    if Contains(s, "<-") {
      var a, b :| s == a + ("<-" + b);
      assert s[|a|] == '<' && s[|a| + 1] == '-';
    }
  }

  lemma {:induction false} StripRightKeeps(s: string, k: nat)
    requires k < |s| && !IsSpace(s[k])
    ensures StripRight(s) <= s && |StripRight(s)| > k
  {
    if IsSpace(s[|s| - 1]) {
      StripRightKeeps(s[..|s| - 1], k);
    }
  }

  lemma SameArrows(line: string, before: string, u: string)
    requires line == before + u && Blank(before)
    ensures HasArrow(StripRight(u)) <==> HasArrow(line)
  {
    if HasArrow(line) {
      var i :| 0 <= i < |line| - 1 && line[i] == '<' && line[i + 1] == '-';
      assert i >= |before|;
      StripRightKeeps(u, i + 1 - |before|);
      assert StripRight(u)[i - |before|] == '<' && StripRight(u)[i + 1 - |before|] == '-';
    }
    if HasArrow(StripRight(u)) {
      var i :| 0 <= i < |StripRight(u)| - 1 && StripRight(u)[i] == '<' && StripRight(u)[i + 1] == '-';
      StripRightIsPrefix(u);
      assert line[i + |before|] == u[i] && line[i + 1 + |before|] == u[i + 1];
    }
  }

  lemma {:induction false} StripRightIsPrefix(s: string)
    ensures StripRight(s) <= s
  {
    if s != "" && IsSpace(s[|s| - 1]) {
      StripRightIsPrefix(s[..|s| - 1]);
    }
  }

  /** The line from its name on, up to its last character that is no blank. */
  lemma StripOfWritten(l: Layout) returns (u: string, k: nat)
    requires IsLayout(l)
    ensures u == l.name + Argument(l) && Strip(Written(l)) == StripRight(u)
    ensures |l.name| + |l.afterName| < k < |u| && u[k] == ';'
  {
    u := l.name + Argument(l);
    SkipBlank(l.before, u);
    var front :=
      l.name + l.afterName + "(" + l.afterOpen + LiteralText(l.literal) + l.afterLiteral + ")" + l.afterClose;
    k := |front|;
    SemicolonAt(l, u, front);
  }

  lemma SemicolonAt(l: Layout, u: string, front: string)
    requires u == l.name + Argument(l)
    requires front
          == l.name + l.afterName + "(" + l.afterOpen + LiteralText(l.literal) + l.afterLiteral + ")" + l.afterClose
    ensures |front| < |u| && u[|front|] == ';'
  {
    assert u == front + (";" + l.end);
  }

  lemma CheckAhead(u: string, name: string, check: string)
    requires check == "check " && IsName(name) && |name| < |u| && name == u[..|name|] && !IsLetter(u[|name|])
    ensures check <= u <==> name == "check" && u[|name|] == ' '
  {
    PrefixChars(check, u);
    assert check[5] == ' ' && forall i :: 0 <= i < 5 ==> IsLetter(check[i]);
    if check <= u {
      assert |name| >= 5;
      assert u[5] == ' ';
      assert name == check[..5];
    }
    if name == "check" && u[|name|] == ' ' {
      assert forall i :: 0 <= i < 5 ==> u[i] == name[i] == check[i];
    }
  }

  lemma AfterName(l: Layout, u: string)
    requires IsLayout(l) && u == l.name + Argument(l)
    ensures |l.name| < |u| && l.name == u[..|l.name|] && !IsLetter(u[|l.name|]) && u[0] == l.name[0]
    ensures u[|l.name|] == if l.afterName == "" then '(' else l.afterName[0]
  {
    assert Argument(l)[0] == if l.afterName == "" then '(' else l.afterName[0];
  }

  /** The stripped line looks like a check exactly when the name is `check` and a space follows it. */
  lemma CheckIff(l: Layout, u: string, k: nat)
    requires IsLayout(l) && u == l.name + Argument(l) && |l.name| + |l.afterName| < k < |u| && u[k] == ';'
    ensures "check " <= StripRight(u) <==> l.name == "check" && l.afterName != "" && l.afterName[0] == ' '
    ensures StripRight(u) != "" && !("//" <= StripRight(u))
  {
    StripRightKeeps(u, k);
    AfterName(l, u);
    var t := StripRight(u);
    assert t[..|l.name|] == u[..|l.name|] && t[|l.name|] == u[|l.name|] && t[0] == u[0];
    CheckAhead(t, l.name, "check ");
  }

  /** A line is taken as a fact exactly when it says one. */
  lemma FactOnIff(line: string, name: string, value: Value)
    ensures FactOn(line) == Some((name, value))
            <==> exists l :: Says(line, l) && l.name == name && LiteralValue(l.literal) == value
  {
    if MatchFact(line) == Some((name, value)) {
      var l := MatchedIsWritten(line);
      FactOnWritten(line, l);
    }
    if exists l :: Says(line, l) && l.name == name && LiteralValue(l.literal) == value {
      var l :| Says(line, l) && l.name == name && LiteralValue(l.literal) == value;
      WrittenIsMatched(l);
      FactOnWritten(line, l);
    }
  }

  lemma FactOnWritten(line: string, l: Layout)
    requires IsLayout(l) && Written(l) == line && MatchFact(line).Some?
    ensures FactOn(line) == MatchFact(line) <==> Says(line, l)
    ensures FactOn(line).Some? ==> FactOn(line) == MatchFact(line)
  {
    var u, k := StripOfWritten(l);
    CheckIff(l, u, k);
    SameArrows(line, l.before, u);
    ArrowIff(line);
  }

  // ---- integers ----

  /** An integer is extracted as the integer that it writes, whatever script its digits are of. */
  lemma IntegerIsItsValue(negative: bool, digits: string, n: int)
    requires digits != "" && Unicode.AllDigits(digits)
    ensures IntegerOf(negative, digits) == Number(n) <==> Integers.Writes(LiteralText(Integer(negative, digits)), n)
    ensures IntegerOf(negative, digits) == TooLong <==> |digits| > 4300
  {
    IntegerIsParsed(negative, digits);
    Integers.ParseIntIff(LiteralText(Integer(negative, digits)), n);
  }

  // ---- lines ----

  /** The breaks of `str.splitlines`. */
  predicate BreakText(s: string) {
    || s == "\n" || s == "\r" || s == "\r\n"
    || (|s| == 1 && (s[0] as int == 0x0B || s[0] as int == 0x0C || s[0] as int == 0x1C || s[0] as int == 0x1D
                     || s[0] as int == 0x1E || s[0] as int == 0x85 || s[0] as int == 0x2028 || s[0] as int == 0x2029))
  }

  /** `s` is `lines`, each ended by a break, of which the last may be missing; no break is within a line. */
  ghost predicate Broken(s: string, lines: seq<string>)
    decreases |lines|
  {
    if lines == [] then s == ""
    else
      && (forall i :: 0 <= i < |lines[0]| ==> !BreakText([lines[0][i]]))
      && if |lines| == 1 && lines[0] == s then s != ""
         else exists ended, rest :: BreakEnds(s, lines[0], ended, rest) && Broken(rest, lines[1..])
  }

  /** The first break of `s`, as long as it can be. */
  ghost predicate BreakEnds(s: string, line: string, ended: string, rest: string) {
    && s == line + (ended + rest)
    && BreakText(ended)
    && !(ended == "\r" && rest != "" && rest[0] == '\n')
  }

  lemma BreakIff(c: char)
    ensures IsBreak(c) <==> BreakText([c])
  {
    assert [c] != "\r\n";
  }

  lemma FirstBreak(s: string) returns (ended: string)
    requires BreakAt(s) < |s|
    ensures BreakEnds(s, FirstLine(s), ended, AfterLine(s))
  {
    var n := BreakAt(s);
    BreakIff(s[n]);
    CutAt(s, n);
    ended := BreakOf(s[n], s[n + 1..]);
  }

  lemma CutAt(s: string, n: nat)
    requires n < |s|
    ensures s == s[..n] + ([s[n]] + s[n + 1..])
  {
  }

  lemma BreakOf(c: char, tail: string) returns (ended: string)
    requires BreakText([c])
    ensures BreakText(ended) && [c] + tail == ended + DropFeed(c, tail)
    ensures !(ended == "\r" && DropFeed(c, tail) != "" && DropFeed(c, tail)[0] == '\n')
  {
    if c == '\r' && tail != "" && tail[0] == '\n' {
      ended := "\r\n";
      assert [c] + tail == ended + tail[1..];
    } else {
      ended := [c];
    }
  }

  lemma {:induction false} LinesAreBroken(s: string)
    ensures Broken(s, SplitLines(s))
    decreases |s|
  {
    if s != "" {
      var line := FirstLine(s);
      forall i | 0 <= i < |line| ensures !BreakText([line[i]]) {
        BreakIff(line[i]);
      }
      if BreakAt(s) < |s| {
        var ended := FirstBreak(s);
        LinesAreBroken(AfterLine(s));
        assert SplitLines(s)[1..] == SplitLines(AfterLine(s));
        assert BreakEnds(s, line, ended, AfterLine(s));
        assert line != s;
      } else {
        assert line == s && SplitLines(s) == [s];
      }
    }
  }
}
