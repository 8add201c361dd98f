/**
  The block that attenuation appends: its lines, and what they say to Datalog, whatever the user
  and the role contain.
 */
module Block {
  import opened Wrappers
  import opened FactLines
  import opened FactPattern
  import opened FactSource
  import Datalog
  import Calendar
  import Decimal

  const USER := "user"
  const ROLE := "role"

  /** `"\n".join(lines)` */
  function JoinLines(lines: seq<string>): string {
    if lines == [] then ""
    else if |lines| == 1 then lines[0]
    else lines[0] + "\n" + JoinLines(lines[1..])
  }

  function ExpiryCheck(expiry: string): string {
    "check if time($t), $t < " + expiry + ";"
  }

  function LinesFor(predicateName: string, value: Option<string>): seq<string> {
    match value case Some(v) => [FactLine(predicateName, v)] case None => []
  }

  function CheckLines(expiry: Option<string>): seq<string> {
    match expiry case Some(e) => [ExpiryCheck(e)] case None => []
  }

  /** The lines that attenuation writes, in order. */
  function BlockLines(user: string, role: Option<string>, expiry: Option<string>): seq<string> {
    LinesFor(USER, Some(user)) + LinesFor(ROLE, role) + CheckLines(expiry)
  }

  /** The characters that `strftime` prints here: no blanks, no breaks, no quotes. */
  predicate IsTimestamp(s: string) {
    forall i :: 0 <= i < |s| ==> Decimal.IsDigit(s[i]) || s[i] == '-' || s[i] == ':' || s[i] == 'T' || s[i] == 'Z'
  }

  function Stamp(expires: Option<nat>): Option<string>
    requires expires.Some? ==> expires.value <= Calendar.LAST_SECOND
  {
    match expires case Some(t) => Some(Calendar.Print(t)) case None => None
  }

  /** The source of the appended block, for an expiry in seconds from 1970. */
  function Source(user: string, role: Option<string>, expires: Option<nat>): string
    requires expires.Some? ==> expires.value <= Calendar.LAST_SECOND
  {
    JoinLines(BlockLines(user, role, Stamp(expires)))
  }

  // ---- what the block is meant to say ----

  /** Who the user is, the role if there is one, and the time of expiry if there is one. */
  function Clauses(user: string, role: Option<string>, expires: Option<nat>): seq<Datalog.Clause> {
    [Datalog.Fact("user", user)]
    + (match role case Some(r) => [Datalog.Fact("role", r)] case None => [])
    + (match expires case Some(t) => [Datalog.Before(t)] case None => [])
  }

  // ---- proofs ----

  lemma {:induction false} EscapedIsLiteral(value: string)
    ensures Datalog.LiteralText(EscapeEach(value)) == Some(value)
  {
    if value == "" {
    } else {
      EscapedIsLiteral(value[1..]);
      var e, t := EscapeEach(value), EscapeEach(value[1..]);
      assert value == [value[0]] + value[1..];
      if value[0] == '\\' || value[0] == '\"' {
        assert e[2..] == t && e[1] == value[0];
      } else {
        assert e[1..] == t;
      }
    }
  }

  /** A line that is one statement and its semicolon, read on its own wherever it stands. */
  ghost predicate OneStatement(line: string, statement: string) {
    && line == statement + ";"
    && statement != "" && !Datalog.IsBlank(statement[0])
    && forall rest: string :: Datalog.End(line + rest, false) == |statement|
  }

  lemma FactIsStatement(name: string, value: string) returns (statement: string)
    requires IsName(name)
    ensures OneStatement(FactLine(name, value), statement)
    ensures Datalog.Means(statement, Datalog.Fact(name, value))
  {
    var body, line := EscapeEach(value), FactLine(name, value);
    EscapeIsEach(value);
    EscapedIsLiteral(value);
    statement := name + "(\"" + body + "\")";
    assert line == statement + ";" && line == name + "(\"" + body + "\");";
    forall rest: string ensures Datalog.End(line + rest, false) == |statement| {
      Datalog.FactEnds(name, body, rest);
    }
    assert statement[0] == name[0];
  }

  lemma CheckIsStatement(t: nat) returns (statement: string)
    requires t <= Calendar.LAST_SECOND
    ensures OneStatement(ExpiryCheck(Calendar.Print(t)), statement)
    ensures Datalog.Means(statement, Datalog.Before(t))
  {
    var stamp, opening := Calendar.Print(t), "check if time($t), $t < ";
    Calendar.ReadPrint(t);
    statement := opening + stamp;
    StampIsPlain(stamp);
    var line := ExpiryCheck(stamp);
    assert line == statement + ";";
    forall rest: string ensures Datalog.End(line + rest, false) == |statement| {
      Datalog.PlainEnds(statement, rest);
    }
  }

  lemma StampIsPlain(stamp: string)
    requires Calendar.IsTimestamp(stamp)
    ensures Datalog.Plain(stamp) && IsTimestamp(stamp)
  {
    assert forall i :: 0 <= i < 4 ==> stamp[i] == stamp[..4][i];
    assert forall i :: 5 <= i < 7 ==> stamp[i] == stamp[5..7][i - 5];
    assert forall i :: 8 <= i < 10 ==> stamp[i] == stamp[8..10][i - 8];
    assert forall i :: 11 <= i < 13 ==> stamp[i] == stamp[11..13][i - 11];
    assert forall i :: 14 <= i < 16 ==> stamp[i] == stamp[14..16][i - 14];
    assert forall i :: 17 <= i < 19 ==> stamp[i] == stamp[17..19][i - 17];
  }

  ghost predicate AreStatements(lines: seq<string>, statements: seq<string>) {
    |lines| == |statements| && forall i :: 0 <= i < |lines| ==> OneStatement(lines[i], statements[i])
  }

  ghost predicate AllMean(statements: seq<string>, clauses: seq<Datalog.Clause>) {
    |statements| == |clauses| && forall i :: 0 <= i < |clauses| ==> Datalog.Means(statements[i], clauses[i])
  }

  lemma {:induction false} JoinedStatements(lines: seq<string>, statements: seq<string>)
    requires AreStatements(lines, statements)
    ensures Datalog.Statements(JoinLines(lines)) == statements
  {
    if lines == [] {
    } else if |lines| == 1 {
      assert lines[0] == statements[0] + ";" + "";
      assert Datalog.End(lines[0] + "", false) == |statements[0]| && lines[0] + "" == lines[0];
      Datalog.FirstStatement(statements[0], "");
    } else {
      var rest := JoinLines(lines[1..]);
      JoinedStatements(lines[1..], statements[1..]);
      assert JoinLines(lines) == statements[0] + ";" + ("\n" + rest);
      assert Datalog.End(lines[0] + ("\n" + rest), false) == |statements[0]|;
      Datalog.FirstStatement(statements[0], "\n" + rest);
      Datalog.FeedIsSkipped(rest);
    }
  }

  lemma RoleIsWritten(role: Option<string>) returns (statements: seq<string>)
    ensures AreStatements(LinesFor(ROLE, role), statements)
    ensures AllMean(statements, match role case Some(r) => [Datalog.Fact("role", r)] case None => [])
  {
    statements := [];
    if role.Some? {
      var s := FactIsStatement(ROLE, role.value);
      statements := [s];
    }
  }

  lemma ExpiryIsWritten(expires: Option<nat>) returns (statements: seq<string>)
    requires expires.Some? ==> expires.value <= Calendar.LAST_SECOND
    ensures AreStatements(CheckLines(Stamp(expires)), statements)
    ensures AllMean(statements, match expires case Some(t) => [Datalog.Before(t)] case None => [])
  {
    statements := [];
    if expires.Some? {
      var s := CheckIsStatement(expires.value);
      statements := [s];
    }
  }

  lemma Together(
      a: seq<string>, s: seq<string>, c: seq<Datalog.Clause>, b: seq<string>, t: seq<string>, d: seq<Datalog.Clause>)
    requires AreStatements(a, s) && AllMean(s, c) && AreStatements(b, t) && AllMean(t, d)
    ensures AreStatements(a + b, s + t) && AllMean(s + t, c + d)
  {
  }

  /**
    The block says who the user is, the role and the time of expiry, and nothing else, whatever
    the user and the role contain: no quote, backslash or line break leaves its literal.
   */
  lemma BlockSays(user: string, role: Option<string>, expires: Option<nat>)
    requires expires.Some? ==> expires.value <= Calendar.LAST_SECOND
    ensures Datalog.Says(Source(user, role, expires), Clauses(user, role, expires))
  {
    var u := FactIsStatement(USER, user);
    var r := RoleIsWritten(role);
    var e := ExpiryIsWritten(expires);
    var roles := match role case Some(r) => [Datalog.Fact("role", r)] case None => [];
    var checks := match expires case Some(t) => [Datalog.Before(t)] case None => [];
    var lines := LinesFor(USER, Some(user)) + LinesFor(ROLE, role);
    Together(LinesFor(USER, Some(user)), [u], [Datalog.Fact("user", user)], LinesFor(ROLE, role), r, roles);
    Together(lines, [u] + r, [Datalog.Fact("user", user)] + roles, CheckLines(Stamp(expires)), e, checks);
    JoinedStatements(lines + CheckLines(Stamp(expires)), [u] + r + e);
  }

  lemma OnlyItsTime(statement: string, clause: Datalog.Clause, time: int)
    requires Datalog.Means(statement, clause) && Datalog.Means(statement, Datalog.Before(time))
    requires clause.Fact? ==> clause.name == "user" || clause.name == "role"
    ensures clause == Datalog.Before(time)
  {
    match clause
    case Fact(name, value) => Datalog.CheckIsNoFact(statement, name, value);
    case Before(t) => Datalog.OneTime(statement, t, time);
  }

  lemma TimesAre(statements: seq<string>, clauses: seq<Datalog.Clause>, i: int, time: int)
    requires AllMean(statements, clauses) && 0 <= i < |statements|
    requires forall c :: c in clauses && c.Fact? ==> c.name == "user" || c.name == "role"
    ensures Datalog.Means(statements[i], Datalog.Before(time)) <==> clauses[i] == Datalog.Before(time)
  {
    if Datalog.Means(statements[i], Datalog.Before(time)) {
      OnlyItsTime(statements[i], clauses[i], time);
    }
  }

  /** A source that says `clauses` holds at `x` exactly when `x` is before all their times. */
  lemma AcceptsIff(source: string, clauses: seq<Datalog.Clause>, x: int)
    requires Datalog.Says(source, clauses)
    requires forall c :: c in clauses && c.Fact? ==> c.name == "user" || c.name == "role"
    ensures Datalog.AcceptsAt(source, x) <==> forall time: int :: Datalog.Before(time) in clauses ==> x < time
  {
    var statements := Datalog.Statements(source);
    forall i, time: int | 0 <= i < |statements|
      ensures Datalog.Means(statements[i], Datalog.Before(time)) <==> clauses[i] == Datalog.Before(time)
    {
      TimesAre(statements, clauses, i, time);
    }
  }

  lemma TimesSaid(clauses: seq<Datalog.Clause>, user: string, role: Option<string>, expires: Option<nat>)
    requires clauses == Clauses(user, role, expires)
    ensures forall c :: c in clauses && c.Fact? ==> c.name == "user" || c.name == "role"
    ensures forall time: int :: Datalog.Before(time) in clauses <==> expires.Some? && time == expires.value
  {
  }

  /** The block's own checks hold exactly before the time of expiry. */
  lemma BlockExpires(user: string, role: Option<string>, expires: Option<nat>, x: int)
    requires expires.Some? ==> expires.value <= Calendar.LAST_SECOND
    ensures Datalog.AcceptsAt(Source(user, role, expires), x) <==> (expires.Some? ==> x < expires.value)
  {
    BlockSays(user, role, expires);
    var clauses := Clauses(user, role, expires);
    TimesSaid(clauses, user, role, expires);
    AcceptsIff(Source(user, role, expires), clauses, x);
  }
}
