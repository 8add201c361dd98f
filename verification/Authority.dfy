/** Printing and splitting a CONNECT authority (section 3.2.2 of RFC 3986 for the bracket form). */
module Authority {
  import opened Wrappers
  import Integers

  function Display(host: string): string {
    if ':' in host then "[" + host + "]" else host
  }

  /** The authority part of the URL that `connect_to_args` builds; `None` for a port too long to print. */
  function Print(host: string, port: int): Option<string> {
    match Integers.PrintInt(port)
    case Some(digits) => Some(Display(host) + (":" + digits))
    case None => None
  }

  function ParsePort(s: string): Result<int, string> {
    match Integers.ParseInt(s)
    case Some(port) => Success(port)
    case None => Failure("ValueError")
  }

  /** Index of the first `c`, or the length. */
  function IndexOf(s: string, c: char): (i: nat)
    ensures i <= |s| && c !in s[..i] && (i < |s| ==> s[i] == c)
  {
    if s == "" || s[0] == c then 0 else 1 + IndexOf(s[1..], c)
  }

  /** Index of the last `c`, or -1. */
  function LastIndexOf(s: string, c: char): (i: int)
    ensures -1 <= i < |s| && c !in s[i + 1..] && (i >= 0 ==> s[i] == c)
  {
    if s == "" then -1 else if s[|s| - 1] == c then |s| - 1 else LastIndexOf(s[..|s| - 1], c)
  }

  /** `split_authority`: a bracketed or a plain host, the port after it or 443. */
  function Split(target: string): Result<(string, int), string> {
    if target != "" && target[0] == '[' then
      var end := IndexOf(target, ']');
      if end == |target| then Failure("unterminated bracket")
      else
        AfterBracket(target[1..end], target[end + 1..])
    else
      var colon := LastIndexOf(target, ':');
      if colon < 0 then Success((target, 443)) else WithPort(target[..colon], target[colon + 1..])
  }

  function AfterBracket(host: string, rest: string): Result<(string, int), string> {
    if rest == "" then Success((host, 443))
    else if rest[0] == ':' then WithPort(host, rest[1..])
    else Failure("malformed IPv6 authority")
  }

  function WithPort(host: string, port: string): Result<(string, int), string> {
    match ParsePort(port)
    case Success(p) => Success((host, p))
    case Failure(e) => Failure(e)
  }

  lemma FirstBracket(host: string, rest: string)
    ensures IndexOf("[" + host + "]" + rest, ']') <= |host| + 1
    ensures IndexOf("[" + host + "]" + rest, ']') == |host| + 1 <==> ']' !in host
  {
    var t := "[" + host + "]" + rest;
    var i := IndexOf(t, ']');
    NotBefore(t, i);
    assert t[|host| + 1] == ']';
    assert forall k :: 0 <= k < |host| ==> t[k + 1] == host[k];
    if ']' !in host {
      assert forall k :: 0 <= k < |host| ==> host[k] != ']';
    }
  }

  lemma NotBefore(t: string, i: nat)
    requires i == IndexOf(t, ']')
    ensures forall k :: 0 <= k < i ==> t[k] != ']'
  {
    assert forall k :: 0 <= k < i ==> t[..i][k] == t[k];
  }

  /** A first bracket closed at `end`: what is between is the host. */
  lemma BracketParts(target: string, end: nat)
    requires target != "" && target[0] == '[' && end == IndexOf(target, ']') && end < |target|
    ensures end > 0 && Split(target) == AfterBracket(target[1..end], target[end + 1..])
    ensures ']' !in target[1..end] && target == "[" + target[1..end] + "]" + target[end + 1..]
  {
    InBracket(target, end);
    Regroup(target, end);
  }

  lemma InBracket(target: string, end: nat)
    requires target != "" && target[0] == '[' && end == IndexOf(target, ']') && end < |target|
    ensures end > 0 && ']' !in target[1..end]
  {
    NotBefore(target, end);
  }

  lemma Regroup(s: string, end: nat)
    requires 0 < end < |s| && s[0] == '[' && s[end] == ']'
    ensures s == "[" + s[1..end] + "]" + s[end + 1..]
  {
    assert s == [s[0]] + s[1..end] + [s[end]] + s[end + 1..];
  }

  // ---- what an authority means ----

  /** A colon and a text that writes `port`; nothing for the default. */
  ghost predicate PortPart(tail: string, port: int) {
    if tail == "" then port == 443
    else tail[0] == ':' && Integers.Writes(tail[1..], port)
  }

  /** `target` writes `host` in brackets, or bare, followed by `tail`. */
  predicate HostPart(target: string, host: string, tail: string) {
    if target != "" && target[0] == '[' then ']' !in host && target == "[" + host + "]" + tail
    else target == host + tail && (tail == "" ==> ':' !in host)
  }

  ghost predicate Means(target: string, host: string, port: int) {
    exists tail :: HostPart(target, host, tail) && PortPart(tail, port)
  }

  lemma AfterBracketMeans(host: string, tail: string, h: string, port: int)
    ensures AfterBracket(host, tail) == Success((h, port)) <==> h == host && PortPart(tail, port)
  {
    if tail != "" {
      Integers.ParseIntIff(tail[1..], port);
    }
  }

  /** After a host in brackets the rest decides the port. */
  lemma SplitBracket(target: string, host: string, tail: string)
    requires ']' !in host && target == "[" + host + "]" + tail
    ensures Split(target) == AfterBracket(host, tail)
  {
    FirstBracket(host, tail);
    assert target[1..|host| + 1] == host && target[|host| + 2..] == tail;
  }

  lemma LastColonAt(target: string, i: nat)
    requires i < |target| && target[i] == ':' && ':' !in target[i + 1..]
    ensures LastIndexOf(target, ':') == i
  {
    var j := LastIndexOf(target, ':');
    assert forall k :: j < k < |target| ==> target[k] == target[j + 1..][k - j - 1];
    assert forall k :: i < k < |target| ==> target[k] == target[i + 1..][k - i - 1];
  }

  /** After a bare host a last colon decides the port. */
  lemma SplitBare(target: string, host: string, port: string)
    requires target == host + ":" + port && target[0] != '[' && ':' !in port
    ensures Split(target) == WithPort(host, port)
  {
    assert target[|host| + 1..] == port && target[..|host|] == host;
    LastColonAt(target, |host|);
  }

  lemma MeaningIsSplit(target: string, host: string, tail: string, port: int)
    requires HostPart(target, host, tail) && PortPart(tail, port)
    ensures Split(target) == Success((host, port))
  {
    if target != "" && target[0] == '[' {
      SplitBracket(target, host, tail);
      AfterBracketMeans(host, tail, host, port);
    } else if tail == "" {
      assert target == host;
    } else {
      assert target == host + ":" + tail[1..];
      Integers.ParseIntIff(tail[1..], port);
      Integers.NoColon(tail[1..]);
      SplitBare(target, host, tail[1..]);
    }
  }

  lemma SplitIsMeaning(target: string, host: string, port: int)
    requires Split(target) == Success((host, port))
    ensures Means(target, host, port)
  {
    if target != "" && target[0] == '[' {
      var end := IndexOf(target, ']');
      var tail := target[end + 1..];
      BracketParts(target, end);
      AfterBracketMeans(target[1..end], tail, host, port);
      assert HostPart(target, host, tail);
    } else {
      BareMeaning(target, host, port);
    }
  }

  lemma BareMeaning(target: string, host: string, port: int)
    requires (target == "" || target[0] != '[') && Split(target) == Success((host, port))
    ensures Means(target, host, port)
  {
    var colon := LastIndexOf(target, ':');
    if colon < 0 {
      WithoutColonMeans(target, host, port);
    } else {
      ColonMeans(target, colon, host, port);
    }
  }

  lemma WithoutColonMeans(target: string, host: string, port: int)
    requires (target == "" || target[0] != '[') && Split(target) == Success((host, port))
    requires LastIndexOf(target, ':') < 0
    ensures Means(target, host, port)
  {
    NoColon(target);
    SplitWithoutColon(target);
    NoPortMeans(target, host, port);
  }

  lemma ColonMeans(target: string, colon: nat, host: string, port: int)
    requires (target == "" || target[0] != '[') && Split(target) == Success((host, port))
    requires colon == LastIndexOf(target, ':')
    ensures Means(target, host, port)
  {
    SplitAtColon(target, colon);
    WithPortIs(target[..colon], target[colon + 1..], host, port);
    TailOf(target, colon);
    TailMeans(target, host, target[colon..], port);
  }

  lemma NoColon(target: string)
    requires LastIndexOf(target, ':') < 0
    ensures ':' !in target
  {
    assert target[0..] == target;
  }

  lemma SplitWithoutColon(target: string)
    requires (target == "" || target[0] != '[') && LastIndexOf(target, ':') < 0
    ensures Split(target) == Success((target, 443))
  {
  }

  lemma SplitAtColon(target: string, colon: nat)
    requires (target == "" || target[0] != '[') && colon == LastIndexOf(target, ':')
    ensures Split(target) == WithPort(target[..colon], target[colon + 1..])
  {
  }

  lemma WithPortIs(h: string, s: string, host: string, port: int)
    requires WithPort(h, s) == Success((host, port))
    ensures h == host && Integers.ParseInt(s) == Some(port)
  {
  }

  lemma NoPortMeans(target: string, host: string, port: int)
    requires (target == "" || target[0] != '[') && ':' !in target && host == target && port == 443
    ensures Means(target, host, port)
  {
    assert target == host + "";
    assert HostPart(target, host, "") && PortPart("", port);
  }

  lemma TailMeans(target: string, host: string, tail: string, port: int)
    requires target == "" || target[0] != '['
    requires target == host + tail && tail != "" && tail[0] == ':' && Integers.ParseInt(tail[1..]) == Some(port)
    ensures Means(target, host, port)
  {
    Integers.ParseIntIff(tail[1..], port);
    assert HostPart(target, host, tail) && PortPart(tail, port);
  }

  lemma TailOf(target: string, colon: nat)
    requires colon < |target|
    ensures target == target[..colon] + target[colon..] && target[colon..][1..] == target[colon + 1..]
    ensures target[colon..][0] == target[colon]
  {
  }

  /** Splitting succeeds exactly on the written forms of an authority, and gives back their host and port. */
  lemma SplitIff(target: string, host: string, port: int)
    ensures Split(target) == Success((host, port)) <==> Means(target, host, port)
  {
    if Split(target) == Success((host, port)) {
      SplitIsMeaning(target, host, port);
    } else if Means(target, host, port) {
      var tail :| HostPart(target, host, tail) && PortPart(tail, port);
      MeaningIsSplit(target, host, tail, port);
    }
  }

  // ---- printing and splitting ----

  lemma PrintedPort(port: int)
    requires Integers.PrintInt(port).Some?
    ensures PortPart(":" + Integers.PrintInt(port).value, port)
  {
    var digits := Integers.PrintInt(port).value;
    Integers.ParsePrint(port);
    Integers.ParseIntIff(digits, port);
    assert (":" + digits)[1..] == digits;
  }

  lemma SplitColonHost(host: string, port: int)
    requires ':' in host && Print(host, port).Some?
    ensures Split(Print(host, port).value) == Success((host, port)) <==> ']' !in host
  {
    var t := Print(host, port).value;
    var tail := t[|host| + 2..];
    PrintedPort(port);
    assert t == "[" + host + "]" + tail && tail == ":" + Integers.PrintInt(port).value;
    if ']' !in host {
      MeaningIsSplit(t, host, tail, port);
    } else if Split(t) == Success((host, port)) {
      SplitIsMeaning(t, host, port);
    }
  }

  lemma SplitPlainHost(host: string, port: int)
    requires ':' !in host && Print(host, port).Some?
    ensures Split(Print(host, port).value) == Success((host, port)) <==> host == "" || host[0] != '['
  {
    var t := Print(host, port).value;
    var tail := t[|host|..];
    PrintedPort(port);
    assert t == host + tail && tail == ":" + Integers.PrintInt(port).value;
    assert t[0] == if host == "" then ':' else host[0];
    if host == "" || host[0] != '[' {
      MeaningIsSplit(t, host, tail, port);
    } else if Split(t) == Success((host, port)) {
      SplitIsMeaning(t, host, port);
    }
  }

  /**
    For every port that prints, splitting gives back what was printed exactly when a host with a
    colon has no closing bracket and a host without one does not open with a bracket.
   */
  lemma SplitPrintIff(host: string, port: int)
    requires Print(host, port).Some?
    ensures Split(Print(host, port).value) == Success((host, port))
            <==> if ':' in host then ']' !in host else host == "" || host[0] != '['
  {
    if ':' in host {
      SplitColonHost(host, port);
    } else {
      SplitPlainHost(host, port);
    }
  }
}
