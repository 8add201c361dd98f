/**
  Attenuating a token for a user (`attenuate_for_user`): the envelope, the block that is appended,
  and what the facts of the child token are. Signing is not modelled; a block's source is taken
  to come back as it was written, and the child's payload is given.
 */
module Attenuate {
  import opened Wrappers
  import opened FactLines
  import opened FactPattern
  import opened FactSource
  import opened Block
  import Calendar
  import Datalog
  import Decimal
  import Unicode
  import Integers

  // ---- envelopes ----

  const PREFIX := "fty"

  predicate NoUnderscore(s: string) {
    forall i :: 0 <= i < |s| ==> s[i] != '_'
  }

  /** What stands before the first underscore and what after it. */
  function SplitOnce(s: string): (r: Option<(string, string)>)
    ensures r.Some? ==> s == r.value.0 + "_" + r.value.1 && NoUnderscore(r.value.0)
    ensures r.None? ==> NoUnderscore(s)
  {
    if s == "" then None
    else if s[0] == '_' then Some(("", s[1..]))
    else
      match SplitOnce(s[1..])
      case Some((head, rest)) => Some((s[..1] + head, rest))
      case None => None
  }

  /** The exceptions that are raised. */
  datatype Error = TokenError | TokenSignatureError | OverflowError

  datatype Envelope = Envelope(env: string, project: string, payload: string)

  function PrintEnvelope(e: Envelope): string {
    PREFIX + "_" + e.env + "_" + e.project + "_" + e.payload
  }

  /** `parse_envelope`: split at the first three underscores. */
  function ParseEnvelope(s: string): Result<Envelope, Error> {
    match SplitOnce(s)
    case None => Failure(TokenError)
    case Some((prefix, rest)) =>
      match SplitOnce(rest)
      case None => Failure(TokenError)
      case Some((env, rest2)) =>
        match SplitOnce(rest2)
        case None => Failure(TokenError)
        case Some((project, payload)) =>
          if prefix == PREFIX then Success(Envelope(env, project, payload))
          else Failure(TokenError)
  }

  lemma {:induction false} SplitOnceAt(head: string, rest: string)
    requires NoUnderscore(head)
    ensures SplitOnce(head + "_" + rest) == Some((head, rest))
  {
    var s := head + "_" + rest;
    if head == "" {
    } else {
      assert s[1..] == head[1..] + "_" + rest;
      SplitOnceAt(head[1..], rest);
      assert s[..1] + head[1..] == head;
    }
  }

  /** An envelope parses back exactly when its env and project have no underscore; the payload may. */
  lemma ParsePrintEnvelope(e: Envelope)
    ensures ParseEnvelope(PrintEnvelope(e)) == Success(e) <==> NoUnderscore(e.env) && NoUnderscore(e.project)
  {
    var afterPrefix := e.env + "_" + e.project + "_" + e.payload;
    assert PrintEnvelope(e) == PREFIX + "_" + afterPrefix;
    SplitOnceAt(PREFIX, afterPrefix);
    if NoUnderscore(e.env) {
      var afterEnv := e.project + "_" + e.payload;
      assert afterPrefix == e.env + "_" + afterEnv;
      SplitOnceAt(e.env, afterEnv);
      if NoUnderscore(e.project) {
        SplitOnceAt(e.project, e.payload);
      }
    }
  }

  /** The parser takes exactly the prefix, two segments without underscores, and the rest as the payload. */
  lemma ParseEnvelopeIff(s: string, env: string, project: string, payload: string)
    ensures ParseEnvelope(s).Failure? ==> ParseEnvelope(s) == Failure(TokenError)
    ensures ParseEnvelope(s) == Success(Envelope(env, project, payload))
            <==> s == "fty_" + env + "_" + project + "_" + payload && '_' !in env && '_' !in project
  {
    var e := Envelope(env, project, payload);
    assert PREFIX + "_" == "fty_";
    assert NoUnderscore(env) <==> '_' !in env;
    assert NoUnderscore(project) <==> '_' !in project;
    ParsePrintEnvelope(e);
    if ParseEnvelope(s) == Success(e) {
      PrintParseEnvelope(s);
    }
  }

  /** Whatever parses was printed from what it parses to. */
  lemma PrintParseEnvelope(s: string)
    requires ParseEnvelope(s).Success?
    ensures PrintEnvelope(ParseEnvelope(s).value) == s
    ensures NoUnderscore(ParseEnvelope(s).value.env) && NoUnderscore(ParseEnvelope(s).value.project)
  {
    var (prefix, rest) := SplitOnce(s).value;
    var (env, rest2) := SplitOnce(rest).value;
    var (project, payload) := SplitOnce(rest2).value;
    Joined(env, project, payload);
  }

  lemma Joined(env: string, project: string, payload: string)
    ensures PrintEnvelope(Envelope(env, project, payload))
         == PREFIX + "_" + (env + "_" + (project + "_" + payload))
  {
    var tail := project + "_" + payload;
    assert PREFIX + "_" + (env + "_" + tail) == PREFIX + "_" + env + "_" + tail;
    assert PREFIX + "_" + env + "_" + tail == PREFIX + "_" + env + "_" + project + "_" + payload;
  }

  // ---- attenuation ----

  /** A token: its envelope and the sources of its blocks. */
  datatype Token = Token(envelope: string, blocks: seq<Option<string>>)

  /** `child` has the parent's env and project and one more block than the parent. */
  ghost predicate IsChild(parent: Token, user: string, role: Option<string>, expiry: Option<string>, child: Token) {
    && ParseEnvelope(parent.envelope).Success?
    && ParseEnvelope(child.envelope).Success?
    && ParseEnvelope(child.envelope).value.env == ParseEnvelope(parent.envelope).value.env
    && ParseEnvelope(child.envelope).value.project == ParseEnvelope(parent.envelope).value.project
    && child.blocks == parent.blocks + [Some(JoinLines(BlockLines(user, role, expiry)))]
  }

  /** There is no lifetime, or it is positive and ends at a time that a `datetime` can hold. */
  predicate LifetimeOk(now: nat, ttlSeconds: Option<int>) {
    ttlSeconds.Some? ==> 0 < ttlSeconds.value <= Calendar.LAST_SECOND - now
  }

  function Max(a: int, b: int): int {
    if a < b then b else a
  }

  /** The time of expiry, if there is a lifetime. */
  function Expires(now: nat, ttlSeconds: Option<int>): (r: Option<nat>)
    requires LifetimeOk(now, ttlSeconds)
    ensures r.Some? ==> r.value <= Calendar.LAST_SECOND
  {
    match ttlSeconds case Some(ttl) => Some(now + ttl) case None => None
  }

  /** Who holds `child` is `user`, in `role`, until `expires`: that and no more is what its last block says. */
  ghost predicate NarrowsTo(child: Token, user: string, role: Option<string>, expires: Option<nat>) {
    && child.blocks != [] && child.blocks[|child.blocks| - 1].Some?
    && var source := child.blocks[|child.blocks| - 1].value;
       && Datalog.Says(source, Clauses(user, role, expires))
       && forall x: int :: Datalog.AcceptsAt(source, x) <==> (expires.Some? ==> x < expires.value)
  }

  lemma ChildNarrows(parent: Token, user: string, role: Option<string>, expires: Option<nat>, child: Token)
    requires expires.Some? ==> expires.value <= Calendar.LAST_SECOND
    requires IsChild(parent, user, role, Stamp(expires), child)
    ensures NarrowsTo(child, user, role, expires)
  {
    BlockSays(user, role, expires);
    forall x: int
      ensures Datalog.AcceptsAt(Source(user, role, expires), x) <==> (expires.Some? ==> x < expires.value)
    {
      BlockExpires(user, role, expires, x);
    }
  }

  /** The lines of the block, the role and the lifetime checked on the way. */
  method SourceLines(user: string, role: Option<string>, now: nat, ttlSeconds: Option<int>)
    returns (r: Result<seq<string>, Error>)
    ensures r == Failure(OverflowError) <==>
            role != Some("") && ttlSeconds.Some? && ttlSeconds.value > Max(0, Calendar.LAST_SECOND - now)
    ensures r != Failure(TokenSignatureError)
    ensures r.Success? <==> role != Some("") && LifetimeOk(now, ttlSeconds)
    ensures r.Success? ==> r.value == BlockLines(user, role, Stamp(Expires(now, ttlSeconds)))
  {
    var sourceLines := [FactLine("user", user)];
    if role.Some? {
      if role.value == "" {
        return Failure(TokenError);
      }
      sourceLines := sourceLines + [FactLine("role", role.value)];
    }
    assert sourceLines == LinesFor(USER, Some(user)) + LinesFor(ROLE, role);
    if ttlSeconds.Some? {
      if ttlSeconds.value <= 0 {
        return Failure(TokenError);
      }
      if now + ttlSeconds.value > Calendar.LAST_SECOND {
        return Failure(OverflowError);
      }
      sourceLines := sourceLines + [ExpiryCheck(Stamp(Expires(now, ttlSeconds)).value)];
    }
    return Success(sourceLines);
  }

  lemma NewChild(
      parent: Token, user: string, role: Option<string>, expiry: Option<string>, payload: string, child: Token)
    requires ParseEnvelope(parent.envelope).Success?
    requires var parsed := ParseEnvelope(parent.envelope).value;
             child.envelope == PrintEnvelope(Envelope(parsed.env, parsed.project, payload))
    requires child.blocks == parent.blocks + [Some(JoinLines(BlockLines(user, role, expiry)))]
    ensures IsChild(parent, user, role, expiry, child)
    ensures ParseEnvelope(child.envelope).value.payload == payload
  {
    var parsed := ParseEnvelope(parent.envelope).value;
    PrintParseEnvelope(parent.envelope);
    ParsePrintEnvelope(Envelope(parsed.env, parsed.project, payload));
  }

  /**
    `verifies` is whether the parent's signature chain holds, `now` the clock in whole seconds from
    1970, and `childPayload` what the signed child encodes to.
   */
  method AttenuateForUser(parent: Token, verifies: bool, user: string, role: Option<string>, now: nat,
                          ttlSeconds: Option<int>, childPayload: string)
    returns (r: Result<Token, Error>)
    ensures r == Failure(TokenSignatureError) <==> ParseEnvelope(parent.envelope).Success? && !verifies
    ensures r == Failure(OverflowError) <==>
            && ParseEnvelope(parent.envelope).Success? && verifies && role != Some("")
            && ttlSeconds.Some? && ttlSeconds.value > Max(0, Calendar.LAST_SECOND - now)
    ensures r.Success? <==>
            && ParseEnvelope(parent.envelope).Success? && verifies && role != Some("")
            && LifetimeOk(now, ttlSeconds)
    ensures r.Success? ==> IsChild(parent, user, role, Stamp(Expires(now, ttlSeconds)), r.value)
    ensures r.Success? ==> NarrowsTo(r.value, user, role, Expires(now, ttlSeconds))
    ensures r.Success? ==> ParseEnvelope(r.value.envelope).value.payload == childPayload
  {
    var parsed := ParseEnvelope(parent.envelope);
    if parsed.Failure? {
      return Failure(parsed.error);
    }
    if !verifies {
      return Failure(TokenSignatureError);
    }
    var lines := SourceLines(user, role, now, ttlSeconds);
    if lines.Failure? {
      return Failure(lines.error);
    }
    var envelope := Envelope(parsed.value.env, parsed.value.project, childPayload);
    var child := Token(PrintEnvelope(envelope), parent.blocks + [Some(JoinLines(lines.value))]);
    NewChild(parent, user, role, Stamp(Expires(now, ttlSeconds)), childPayload, child);
    ChildNarrows(parent, user, role, Expires(now, ttlSeconds), child);
    return Success(child);
  }

  // ---- the facts of the appended block ----

  /** The values that the appended block gives `name`. */
  function BlockFacts(user: string, role: Option<string>, expiry: Option<string>, name: string): seq<Value> {
    ValuesOf(SplitLines(JoinLines(BlockLines(user, role, expiry))), name)
  }

  /** One more block: its values come after those there were. */
  lemma BlockAdds(blocks: seq<Option<string>>, source: string, name: string)
    ensures ValuesOf(LinesOf(blocks + [Some(source)]), name)
         == ValuesOf(LinesOf(blocks), name) + ValuesOf(SplitLines(source), name)
  {
    assert (blocks + [Some(source)])[..|blocks|] == blocks;
    ValuesConcat(LinesOf(blocks), SplitLines(source), name);
  }

  /** Attenuation only adds: every predicate's facts are, in order, the parent's and then the block's. */
  lemma AttenuationOnlyAdds(
      parent: Token, user: string, role: Option<string>, expiry: Option<string>, child: Token, name: string)
    requires IsChild(parent, user, role, expiry, child)
    ensures ValuesOf(LinesOf(child.blocks), name)
         == ValuesOf(LinesOf(parent.blocks), name) + BlockFacts(user, role, expiry, name)
  {
    BlockAdds(parent.blocks, JoinLines(BlockLines(user, role, expiry)), name);
  }

  lemma DropFeedShift(c: char, t: string, x: string)
    requires t != ""
    ensures DropFeed(c, t + x) == DropFeed(c, t) + x
  {
    assert (t + x)[1..] == t[1..] + x;
  }

  lemma AfterFirstBreak(w: string, x: string)
    requires |w| > 1 && IsBreak(w[0])
    ensures FirstLine(w + x) == "" && AfterLine(w + x) == AfterBreak(w, 0) + x
  {
    BreakInFront(w + x);
    DropFeedShift(w[0], w[1..], x);
    assert (w + x)[1..] == w[1..] + x;
  }

  /** The last character is no break, so what follows the first break ends with it. */
  lemma AfterKeepsEnd(w: string)
    requires |w| > 1 && IsBreak(w[0]) && !IsBreak(w[|w| - 1])
    ensures var rest := AfterBreak(w, 0); rest != "" && rest[|rest| - 1] == w[|w| - 1] && |rest| < |w|
  {
  }

  lemma JoinedWhole(a: string, b: string)
    requires a != "" && OneLine(a)
    ensures FirstLine(a + ("\n" + b)) == a && AfterLine(a + ("\n" + b)) == b
  {
    var x := "\n" + b;
    SplitAfterHead(a, x);
    BreakInFront(x);
    assert a + "" == a && x[1..] == b;
  }

  lemma JoinedParts(first: string, w: string, x: string)
    requires OneLine(first) && |w| > 1 && IsBreak(w[0]) && !IsBreak(w[|w| - 1])
    ensures FirstLine(first + w + x) == first && AfterLine(first + w + x) == AfterBreak(w, 0) + x
  {
    SplitAfterHead(first, w + x);
    AfterFirstBreak(w, x);
    assert first + "" == first;
    assert first + w + x == first + (w + x);
  }

  /** The first line and the rest of a text with a break, and of the text with more behind it. */
  lemma JoinedBroken(a: string, x: string) returns (first: string, rest: string)
    requires a != "" && !IsBreak(a[|a| - 1]) && BreakAt(a) < |a|
    ensures FirstLine(a) == first && AfterLine(a) == rest
    ensures FirstLine(a + x) == first && AfterLine(a + x) == rest + x
    ensures rest != "" && !IsBreak(rest[|rest| - 1]) && |rest| < |a|
  {
    var w: string;
    first, w := Halves(a);
    rest := AfterBreak(w, 0);
    EndOfHalf(first, w);
    AfterKeepsEnd(w);
    JoinedParts(first, w, x);
  }

  lemma EndOfHalf(first: string, w: string)
    requires w != ""
    ensures (first + w)[|first + w| - 1] == w[|w| - 1]
  {
  }

  lemma SplitStep(s: string, first: string, after: string)
    requires s != "" && FirstLine(s) == first && AfterLine(s) == after
    ensures SplitLines(s) == [first] + SplitLines(after)
  {
  }

  lemma LinesAssoc(a: seq<string>, b: seq<string>, c: seq<string>)
    ensures a + (b + c) == a + b + c
  {
  }

  /** A text that does not end in a break, joined to another by a line feed, keeps its lines. */
  lemma {:induction false} SplitJoined(a: string, b: string)
    requires a != "" && !IsBreak(a[|a| - 1])
    ensures SplitLines(a + ("\n" + b)) == SplitLines(a) + SplitLines(b)
    decreases |a|
  {
    var x := "\n" + b;
    if BreakAt(a) == |a| {
      WholeIsOneLine(a);
      UnbrokenLine(a);
      JoinedWhole(a, b);
      SplitStep(a + x, a, b);
    } else {
      var first, rest := JoinedBroken(a, x);
      SplitStep(a, first, rest);
      SplitStep(a + x, first, rest + x);
      SplitJoined(rest, b);
      LinesAssoc([first], SplitLines(rest), SplitLines(b));
    }
  }

  /** The values of a source that is joined from `lines`, one after the other. */
  function AllValues(lines: seq<string>, name: string): seq<Value> {
    if lines == [] then [] else ValuesOf(SplitLines(lines[0]), name) + AllValues(lines[1..], name)
  }

  lemma ValuesAssoc(a: seq<Value>, b: seq<Value>, c: seq<Value>)
    ensures a + (b + c) == a + b + c
  {
  }

  lemma {:induction false} AllValuesConcat(a: seq<string>, b: seq<string>, name: string)
    ensures AllValues(a + b, name) == AllValues(a, name) + AllValues(b, name)
  {
    if a == [] {
      assert a + b == b;
    } else {
      assert (a + b)[1..] == a[1..] + b;
      AllValuesConcat(a[1..], b, name);
      ValuesAssoc(ValuesOf(SplitLines(a[0]), name), AllValues(a[1..], name), AllValues(b, name));
    }
  }

  ghost predicate Ended(lines: seq<string>) {
    forall i :: 0 <= i < |lines| ==> lines[i] != "" && !IsBreak(lines[i][|lines[i]| - 1])
  }

  lemma {:induction false} JoinedValues(lines: seq<string>, name: string)
    requires Ended(lines)
    ensures ValuesOf(SplitLines(JoinLines(lines)), name) == AllValues(lines, name)
  {
    if |lines| == 1 {
      assert AllValues(lines[1..], name) == [];
    } else if |lines| > 1 {
      JoinedValues(lines[1..], name);
      FirstOfJoined(lines[0], JoinLines(lines[1..]), name);
    }
  }

  lemma FirstOfJoined(first: string, rest: string, name: string)
    requires first != "" && !IsBreak(first[|first| - 1])
    ensures ValuesOf(SplitLines(first + "\n" + rest), name)
         == ValuesOf(SplitLines(first), name) + ValuesOf(SplitLines(rest), name)
  {
    assert first + "\n" + rest == first + ("\n" + rest);
    SplitJoined(first, rest);
    ValuesConcat(SplitLines(first), SplitLines(rest), name);
  }

  lemma ExpiryCheckIsNoFact(expiry: string)
    requires IsTimestamp(expiry)
    ensures ExpiryCheck(expiry) != "" && OneLine(ExpiryCheck(expiry)) && FactOn(ExpiryCheck(expiry)).None?
  {
    var line, opening := ExpiryCheck(expiry), "check if time($t), $t < ";
    assert line == opening + (expiry + ";");
    OpeningPlain(opening);
    OneLineConcat(opening, expiry + ";");
    OneLineConcat(expiry, ";");
    assert line[0] == 'c' && line[|line| - 1] == ';';
    assert Strip(line) == line;
    assert "check " <= opening;
    PrefixChars("check ", opening);
    PrefixChars("check ", line);
  }

  lemma OpeningPlain(s: string)
    requires s == "check if time($t), $t < "
    ensures OneLine(s) && "check " <= s
  {
  }

  lemma BlockLinesAreEnded(user: string, role: Option<string>, expiry: Option<string>)
    ensures Ended(BlockLines(user, role, expiry))
  {
    assert forall i :: 0 <= i < |BlockLines(user, role, expiry)| ==>
        BlockLines(user, role, expiry)[i][|BlockLines(user, role, expiry)[i]| - 1] == ';';
  }

  lemma CheckValues(expiry: Option<string>, name: string)
    requires expiry.Some? ==> IsTimestamp(expiry.value)
    ensures AllValues(CheckLines(expiry), name) == []
  {
    if expiry.Some? {
      var line := ExpiryCheck(expiry.value);
      ExpiryCheckIsNoFact(expiry.value);
      UnbrokenLine(line);
      OneLineValues(line, name);
    }
  }

  /** What a user or role contributes: itself if it is clean, and the integers on whole lines inside it. */
  function Contributed(predicateName: string, value: Option<string>, name: string): seq<Value> {
    match value
    case None => []
    case Some(v) =>
      (if name == predicateName && Clean(v) then [Text(v)] else []) + IntegersOf(InnerLines(v), name)
  }

  lemma LineContributes(predicateName: string, value: Option<string>, name: string)
    requires IsName(predicateName)
    ensures AllValues(LinesFor(predicateName, value), name) == Contributed(predicateName, value, name)
  {
    if value.Some? {
      FactValuesAre(predicateName, value.value, name);
    }
  }

  lemma NamesAreNames(name: string)
    requires name == USER || name == ROLE
    ensures IsName(name)
  {
  }

  /** All the facts of the block, for every user and role. */
  lemma BlockFactsAre(user: string, role: Option<string>, expiry: Option<string>, name: string)
    requires expiry.Some? ==> IsTimestamp(expiry.value)
    ensures BlockFacts(user, role, expiry, name) == Contributed(USER, Some(user), name) + Contributed(ROLE, role, name)
  {
    var a, b, c := LinesFor(USER, Some(user)), LinesFor(ROLE, role), CheckLines(expiry);
    BlockLinesAreEnded(user, role, expiry);
    JoinedValues(a + b + c, name);
    AllValuesConcat(a + b, c, name);
    AllValuesConcat(a, b, name);
    NamesAreNames(USER);
    NamesAreNames(ROLE);
    LineContributes(USER, Some(user), name);
    LineContributes(ROLE, role, name);
    CheckValues(expiry, name);
  }

  /** The user's fact and the role's, if there is one. */
  function OwnFacts(user: string, role: Option<string>, name: string): seq<Value> {
    (if name == USER then [Text(user)] else [])
    + (if name == ROLE && role.Some? then [Text(role.value)] else [])
  }

  predicate AllClean(user: string, role: Option<string>) {
    Clean(user) && (role.Some? ==> Clean(role.value))
  }

  /** No text is forged: the block adds the user's own under `user`, the role's own under `role`, and no other. */
  lemma NoForgedText(user: string, role: Option<string>, expiry: Option<string>, name: string, text: string)
    requires expiry.Some? ==> IsTimestamp(expiry.value)
    ensures Text(text) in BlockFacts(user, role, expiry, name)
            <==> Clean(text) && ((name == USER && text == user) || (name == ROLE && role == Some(text)))
  {
    BlockFactsAre(user, role, expiry, name);
    OnlyIntegers(InnerLines(user), name);
    if role.Some? {
      OnlyIntegers(InnerLines(role.value), name);
    }
  }

  lemma CleanContributes(predicateName: string, value: string, name: string)
    requires Clean(value)
    ensures Contributed(predicateName, Some(value), name) == if name == predicateName then [Text(value)] else []
  {
    NoBreakAt(value);
  }

  /** A block adds exactly the user's fact and the role's when, and only when, both are clean. */
  lemma BlockIsExactIff(user: string, role: Option<string>, expiry: Option<string>)
    requires expiry.Some? ==> IsTimestamp(expiry.value)
    ensures (forall name :: BlockFacts(user, role, expiry, name) == OwnFacts(user, role, name))
            <==> AllClean(user, role)
  {
    if AllClean(user, role) {
      forall name ensures BlockFacts(user, role, expiry, name) == OwnFacts(user, role, name) {
        BlockFactsAre(user, role, expiry, name);
        CleanContributes(USER, user, name);
        if role.Some? {
          CleanContributes(ROLE, role.value, name);
        }
      }
    } else if !Clean(user) {
      NoForgedText(user, role, expiry, USER, user);
      assert Text(user) in OwnFacts(user, role, USER);
      assert BlockFacts(user, role, expiry, USER) != OwnFacts(user, role, USER);
    } else {
      NoForgedText(user, role, expiry, ROLE, role.value);
      assert Text(role.value) in OwnFacts(user, role, ROLE);
      assert BlockFacts(user, role, expiry, ROLE) != OwnFacts(user, role, ROLE);
    }
  }

  /** The child's facts are the parent's and exactly the user's and the role's when, and only when, both are clean. */
  lemma AttenuationAddsExactly(
      parent: Token, user: string, role: Option<string>, expiry: Option<string>, child: Token)
    requires IsChild(parent, user, role, expiry, child)
    requires expiry.Some? ==> IsTimestamp(expiry.value)
    ensures (forall name :: ValuesOf(LinesOf(child.blocks), name)
                         == ValuesOf(LinesOf(parent.blocks), name) + OwnFacts(user, role, name))
            <==> AllClean(user, role)
  {
    BlockIsExactIff(user, role, expiry);
    forall name
      ensures ValuesOf(LinesOf(child.blocks), name)
           == ValuesOf(LinesOf(parent.blocks), name) + OwnFacts(user, role, name)
           <==> BlockFacts(user, role, expiry, name) == OwnFacts(user, role, name)
    {
      AttenuationOnlyAdds(parent, user, role, expiry, child, name);
      var before := ValuesOf(LinesOf(parent.blocks), name);
      SameTail(before, BlockFacts(user, role, expiry, name), OwnFacts(user, role, name));
    }
  }

  lemma SameTail(a: seq<Value>, b: seq<Value>, c: seq<Value>)
    ensures a + b == a + c <==> b == c
  {
    if a + b == a + c {
      assert (a + b)[|a|..] == b && (a + c)[|a|..] == c;
    }
  }

  // ---- facts that nobody meant to add ----

  /** No whole line inside the user or the role says an integer. */
  ghost predicate HidesNothing(user: string, role: Option<string>) {
    forall name :: IntegersOf(InnerLines(user), name) == []
      && (role.Some? ==> IntegersOf(InnerLines(role.value), name) == [])
  }

  /** A block adds no fact beyond the user's and the role's exactly when neither hides an integer. */
  lemma NothingInjectedIff(user: string, role: Option<string>, expiry: Option<string>)
    requires expiry.Some? ==> IsTimestamp(expiry.value)
    ensures (forall name, value ::
               value in BlockFacts(user, role, expiry, name) ==> value in OwnFacts(user, role, name))
            <==> HidesNothing(user, role)
  {
    forall name
      ensures (forall value :: value in BlockFacts(user, role, expiry, name) ==> value in OwnFacts(user, role, name))
              <==> IntegersOf(InnerLines(user), name) == []
                   && (role.Some? ==> IntegersOf(InnerLines(role.value), name) == [])
    {
      NothingInjectedUnder(user, role, expiry, name);
    }
  }

  lemma NothingInjectedUnder(user: string, role: Option<string>, expiry: Option<string>, name: string)
    requires expiry.Some? ==> IsTimestamp(expiry.value)
    ensures (forall value :: value in BlockFacts(user, role, expiry, name) ==> value in OwnFacts(user, role, name))
            <==> IntegersOf(InnerLines(user), name) == []
                 && (role.Some? ==> IntegersOf(InnerLines(role.value), name) == [])
  {
    var hidden := IntegersOf(InnerLines(user), name)
                  + (if role.Some? then IntegersOf(InnerLines(role.value), name) else []);
    BlockFactsAre(user, role, expiry, name);
    OnlyIntegers(InnerLines(user), name);
    if role.Some? {
      OnlyIntegers(InnerLines(role.value), name);
    }
    if hidden != [] {
      assert hidden[0] in BlockFacts(user, role, expiry, name) && !hidden[0].Text?;
    }
  }

  /** `name(-12);`, in digits of any script. */
  function IntegerLine(name: string, negative: bool, digits: string): string {
    name + "(" + ((if negative then "-" else "") + digits) + ");"
  }

  lemma IntegerLineIsWritten(l: Layout, name: string, negative: bool, digits: string)
    requires l == Layout("", name, "", "", Integer(negative, digits), "", "", "")
    ensures Written(l) == IntegerLine(name, negative, digits)
  {
    assert Closing(l) == ");";
    assert Argument(l) == "(" + ((if negative then "-" else "") + digits) + ");";
  }

  lemma IntegerLineMatches(name: string, negative: bool, digits: string)
    requires IsName(name) && digits != "" && Unicode.AllDigits(digits)
    ensures MatchFact(IntegerLine(name, negative, digits)) == Some((name, IntegerOf(negative, digits)))
  {
    var l := Layout("", name, "", "", Integer(negative, digits), "", "", "");
    IntegerLineIsWritten(l, name, negative, digits);
    WrittenIsMatched(l);
    IntegerIsParsed(negative, digits);
  }

  lemma IntegerLineSays(name: string, negative: bool, digits: string)
    requires IsName(name) && digits != "" && Unicode.AllDigits(digits)
    ensures OneLine(IntegerLine(name, negative, digits))
    ensures FactOn(IntegerLine(name, negative, digits)) == Some((name, IntegerOf(negative, digits)))
  {
    var line := IntegerLine(name, negative, digits);
    IntegerLineMatches(name, negative, digits);
    IntegerLineIsBare(line, name, (if negative then "-" else "") + digits);
    BareLineIsRead(line);
  }

  /** A printed integer is extracted as that integer. */
  lemma PrintedIntegerIsRead(name: string, n: int)
    requires IsName(name) && Integers.PrintInt(n).Some?
    ensures FactOn(name + "(" + Integers.PrintInt(n).value + ");") == Some((name, Number(n)))
  {
    var digits := Decimal.Print(if n < 0 then 0 - n else n);
    PrintedInteger(n, digits);
    IntegerLineSays(name, n < 0, digits);
  }

  lemma PrintedInteger(n: int, digits: string)
    requires digits == Decimal.Print(if n < 0 then 0 - n else n) && |digits| <= Decimal.MAX_DIGITS
    ensures Unicode.AllDigits(digits) && IntegerOf(n < 0, digits) == Number(n)
  {
    Decimal.ParsePrint(if n < 0 then 0 - n else n);
    Unicode.ParseAscii(digits);
  }

  lemma BareLineIsRead(line: string)
    requires line != "" && Strip(line) == line && !HasArrow(line) && !("//" <= line) && !("check " <= line)
    ensures FactOn(line) == MatchFact(line)
  {
  }

  lemma IntegerLineIsBare(line: string, name: string, integer: string)
    requires line == name + "(" + integer + ");"
    requires IsName(name) && forall i :: 0 <= i < |integer| ==> integer[i] == '-' || Unicode.IsDigit(integer[i])
    ensures line != "" && OneLine(line) && Strip(line) == line && !HasArrow(line)
    ensures !("//" <= line) && !("check " <= line)
  {
    forall i | 0 <= i < |line| ensures !IsBreak(line[i]) && line[i] != '<' {
      if i < |name| {
        NamePlain(name, i);
      }
    }
    assert line[0] == name[0] && line[|line| - 1] == ';' && line[|name|] == '(';
    var check := "check ";
    assert check[5] == ' ' && forall i :: 0 <= i < 6 ==> check[i] != '(';
    PrefixChars(check, line);
    forall i | 0 <= i < |name| ensures line[i] != ' ' {
      NamePlain(name, i);
    }
  }

  lemma AfterLineFeed(head: string, rest: string)
    requires OneLine(head)
    ensures var s := head + ("\n" + rest);
            BreakAt(s) < |s| && FirstLine(s) == head && AfterLine(s) == rest && !OneLine(s)
  {
    var x := "\n" + rest;
    SplitAfterHead(head, x);
    BreakInFront(x);
    BreakAfterHead(head, x);
    assert x[1..] == rest && head + "" == head;
    assert (head + x)[|head|] == '\n';
  }

  /** A line on its own between two line feeds is the only inner line. */
  lemma OneInnerLine(a: string, line: string, b: string)
    requires OneLine(a) && OneLine(line) && OneLine(b)
    ensures var s := a + ("\n" + (line + ("\n" + b))); InnerLines(s) == [line] && !OneLine(s)
  {
    var tail := line + ("\n" + b);
    AfterLineFeed(a, tail);
    AfterLineFeed(line, b);
    NoBreakAt(b);
    assert EndedLines(b) == [];
    assert EndedLines(tail) == [line] + EndedLines(b);
  }

  function InjectingUser(predicateName: string, negative: bool, digits: string): string {
    "x" + ("\n" + (IntegerLine(predicateName, negative, digits) + ("\n" + "y")))
  }

  lemma InjectedContribution(predicateName: string, negative: bool, digits: string, name: string)
    requires IsName(predicateName) && digits != "" && Unicode.AllDigits(digits)
    ensures Contributed(USER, Some(InjectingUser(predicateName, negative, digits)), name)
         == if name == predicateName then [IntegerOf(negative, digits)] else []
  {
    var line := IntegerLine(predicateName, negative, digits);
    IntegerLineSays(predicateName, negative, digits);
    OneInnerLine("x", line, "y");
    IntegersOfOne(line, name);
  }

  lemma IntegersOfOne(line: string, name: string)
    ensures IntegersOf([line], name) == IntegersOn(line, name)
  {
    assert [line][1..] == [];
  }

  /**
    Escaping quotes and backslashes does not keep a line feed from adding facts: for every
    predicate and integer, in digits of any script, there is a user whose block says just that,
    and not who the user is.
   */
  lemma LineFeedInjects(
      parent: Token, predicateName: string, negative: bool, digits: string, child: Token, name: string)
    requires IsName(predicateName) && digits != "" && Unicode.AllDigits(digits)
    requires IsChild(parent, InjectingUser(predicateName, negative, digits), None, None, child)
    ensures ValuesOf(LinesOf(child.blocks), name)
         == ValuesOf(LinesOf(parent.blocks), name)
            + (if name == predicateName then [IntegerOf(negative, digits)] else [])
  {
    var user := InjectingUser(predicateName, negative, digits);
    AttenuationOnlyAdds(parent, user, None, None, child, name);
    BlockFactsAre(user, None, None, name);
    InjectedContribution(predicateName, negative, digits, name);
  }

  // ---- integers that `int` refuses ----

  /** Some whole line inside `value` says an integer of too many digits. */
  ghost predicate HidesTooLong(value: string) {
    exists name :: TooLong in IntegersOf(InnerLines(value), name)
  }

  /**
    Extraction raises on the child exactly when it does on the parent, or the user or the role
    hides an integer of too many digits: then none of the child's facts can be read.
   */
  lemma ExtractionStopsIff(
      parent: Token, user: string, role: Option<string>, expiry: Option<string>, child: Token)
    requires IsChild(parent, user, role, expiry, child)
    requires expiry.Some? ==> IsTimestamp(expiry.value)
    ensures AnyRefused(LinesOf(child.blocks))
            <==> AnyRefused(LinesOf(parent.blocks)) || HidesTooLong(user) || (role.Some? && HidesTooLong(role.value))
  {
    forall name
      ensures TooLong in ValuesOf(LinesOf(child.blocks), name)
              <==> TooLong in ValuesOf(LinesOf(parent.blocks), name)
                   || TooLong in IntegersOf(InnerLines(user), name)
                   || (role.Some? && TooLong in IntegersOf(InnerLines(role.value), name))
    {
      TooLongInChild(parent, user, role, expiry, child, name);
    }
  }

  lemma TooLongInChild(
      parent: Token, user: string, role: Option<string>, expiry: Option<string>, child: Token, name: string)
    requires IsChild(parent, user, role, expiry, child)
    requires expiry.Some? ==> IsTimestamp(expiry.value)
    ensures TooLong in ValuesOf(LinesOf(child.blocks), name)
            <==> TooLong in ValuesOf(LinesOf(parent.blocks), name)
                 || TooLong in IntegersOf(InnerLines(user), name)
                 || (role.Some? && TooLong in IntegersOf(InnerLines(role.value), name))
  {
    AttenuationOnlyAdds(parent, user, role, expiry, child, name);
    BlockFactsAre(user, role, expiry, name);
  }
}
