/**
  How a block's source is read as Datalog: statements up to a semicolon that is in no string
  literal, and what a fact and an expiry check say. A literal runs to the first quote that no
  backslash escapes, line breaks included; `\"` and `\\` are its only escapes.
 */
module Datalog {
  import opened Wrappers
  import Calendar

  /** A fact about a text, or the check that the time is before a given one. */
  datatype Clause = Fact(name: string, value: string) | Before(time: int)

  predicate IsBlank(c: char) {
    c == ' ' || c == '\t' || c == '\n' || c == '\r'
  }

  /** Where the first statement of `s` ends; `quoted` says that `s` starts within a literal. */
  function End(s: string, quoted: bool): (n: nat)
    ensures n <= |s| && (n < |s| ==> s[n] == ';')
  {
    if s == "" then 0
    else if quoted && s[0] == '\\' && |s| >= 2 then 2 + End(s[2..], true)
    else if quoted then 1 + End(s[1..], s[0] != '\"')
    else if s[0] == ';' then 0
    else 1 + End(s[1..], s[0] == '\"')
  }

  /** The statements of a source, without their semicolons. */
  function Statements(s: string): seq<string>
    decreases |s|
  {
    if s == "" then []
    else if IsBlank(s[0]) then Statements(s[1..])
    else [s[..End(s, false)]] + (if End(s, false) == |s| then [] else Statements(s[End(s, false) + 1..]))
  }

  /** The text of a literal with this body; none if the body is no literal's. */
  function LiteralText(body: string): Option<string> {
    if body == "" then Some("")
    else if body[0] == '\"' then None
    else if body[0] == '\\' then
      if |body| >= 2 && (body[1] == '\"' || body[1] == '\\') then Then(body[1], LiteralText(body[2..])) else None
    else Then(body[0], LiteralText(body[1..]))
  }

  function Then(c: char, rest: Option<string>): Option<string> {
    match rest
    case Some(text) => Some([c] + text)
    case None => None
  }

  ghost predicate Means(statement: string, clause: Clause) {
    match clause
    case Fact(name, value) =>
      exists body :: statement == name + "(\"" + body + "\")" && LiteralText(body) == Some(value)
    case Before(time) =>
      exists stamp :: statement == "check if time($t), $t < " + stamp && Calendar.Read(stamp) == Some(time)
  }

  /** The statements mean just these clauses, in order. */
  ghost predicate Says(source: string, clauses: seq<Clause>) {
    && |Statements(source)| == |clauses|
    && forall i :: 0 <= i < |clauses| ==> Means(Statements(source)[i], clauses[i])
  }

  /** At time `x` every expiry check of the block holds. */
  ghost predicate AcceptsAt(source: string, x: int) {
    forall i, time :: 0 <= i < |Statements(source)| && Means(Statements(source)[i], Before(time)) ==> x < time
  }

  // ---- reading what was written ----

  predicate Plain(s: string) {
    forall i :: 0 <= i < |s| ==> s[i] != '\"' && s[i] != ';'
  }

  lemma {:induction false} EndAfterPlain(a: string, rest: string)
    requires Plain(a)
    ensures End(a + rest, false) == |a| + End(rest, false)
  {
    if a == "" {
      assert a + rest == rest;
    } else {
      assert (a + rest)[1..] == a[1..] + rest;
      EndAfterPlain(a[1..], rest);
    }
  }

  lemma {:induction false} EndAfterBody(body: string, rest: string)
    requires LiteralText(body).Some?
    ensures End(body + rest, true) == |body| + End(rest, true)
  {
    if body == "" {
      assert body + rest == rest;
    } else if body[0] == '\\' {
      assert (body + rest)[2..] == body[2..] + rest;
      EndAfterBody(body[2..], rest);
    } else {
      assert (body + rest)[1..] == body[1..] + rest;
      EndAfterBody(body[1..], rest);
    }
  }

  lemma ClosingEnds(closing: string, rest: string)
    requires closing == "\");" + rest
    ensures End(closing, true) == 2
  {
    var t, u := ");" + rest, ";" + rest;
    assert closing[1..] == t && t[1..] == u;
    assert End(u, false) == 0;
    assert End(t, false) == 1;
  }

  lemma QuotedEnds(quoted: string, body: string, closing: string)
    requires quoted == "\"" + (body + closing) && LiteralText(body).Some?
    ensures End(quoted, false) == 1 + |body| + End(closing, true)
  {
    assert quoted[1..] == body + closing;
    EndAfterBody(body, closing);
  }

  lemma FactParts(name: string, body: string, rest: string)
    ensures name + "(\"" + body + "\");" + rest == name + "(" + ("\"" + (body + ("\");" + rest)))
  {
  }

  /** A fact ends at its own semicolon, whatever its literal holds. */
  lemma FactEnds(name: string, body: string, rest: string)
    requires Plain(name) && LiteralText(body).Some?
    ensures End(name + "(\"" + body + "\");" + rest, false) == |name| + |body| + 4
  {
    var closing := "\");" + rest;
    FactParts(name, body, rest);
    EndAfterPlain(name + "(", "\"" + (body + closing));
    QuotedEnds("\"" + (body + closing), body, closing);
    ClosingEnds(closing, rest);
  }

  lemma PlainEnds(statement: string, rest: string)
    requires Plain(statement)
    ensures End(statement + ";" + rest, false) == |statement|
  {
    assert statement + ";" + rest == statement + (";" + rest);
    EndAfterPlain(statement, ";" + rest);
  }

  lemma FirstStatement(statement: string, rest: string)
    requires statement != "" && !IsBlank(statement[0])
    requires End(statement + ";" + rest, false) == |statement|
    ensures Statements(statement + ";" + rest) == [statement] + Statements(rest)
  {
    var s := statement + ";" + rest;
    assert s[0] == statement[0] && s[..|statement|] == statement && s[|statement| + 1..] == rest;
  }

  lemma FeedIsSkipped(s: string)
    ensures Statements("\n" + s) == Statements(s)
  {
    assert ("\n" + s)[1..] == s;
  }

  // ---- one meaning ----

  lemma CheckIsNoFact(statement: string, name: string, value: string)
    requires Means(statement, Fact(name, value)) && forall i :: 0 <= i < |name| ==> name[i] != ' '
    ensures forall time :: !Means(statement, Before(time))
  {
    var body :| statement == name + "(\"" + body + "\")" && LiteralText(body) == Some(value);
    var check := "check if time($t), $t < ";
    assert check[5] == ' ' && forall i :: 0 <= i < 5 ==> check[i] != '(';
    forall stamp ensures statement != check + stamp {
      var k := if |name| <= 5 then |name| else 5;
      assert (check + stamp)[k] == check[k];
      assert statement[k] == if |name| <= 5 then '(' else name[5];
    }
  }

  lemma OneTime(statement: string, a: int, b: int)
    requires Means(statement, Before(a)) && Means(statement, Before(b))
    ensures a == b
  {
    var check := "check if time($t), $t < ";
    var s :| statement == check + s && Calendar.Read(s) == Some(a);
    var t :| statement == check + t && Calendar.Read(t) == Some(b);
    assert statement[|check|..] == s && statement[|check|..] == t;
  }
}
