/**
  The reader reads exactly JSON text: `JsonLoads.Parse` gives `v` for the texts that
  `JsonGrammar.Denotes` says mean `v`, and for no others.
 */
module JsonReads {
  import opened Wrappers
  import opened Json
  import opened JsonGrammar
  import opened JsonLoads
  import Decimal
  import Utf8

  // ---- blanks ----

  lemma {:induction false} BlanksAreSkipped(b: string, s: string)
    requires Blank(b) && (s == "" || !IsSpace(s[0]))
    ensures SkipSpace(b + s) == s
  {
    if b == "" {
      assert b + s == s;
    } else {
      assert (b + s)[1..] == b[1..] + s;
      BlanksAreSkipped(b[1..], s);
    }
  }

  lemma {:induction false} SkippedAreBlanks(s: string) returns (b: string)
    ensures Blank(b) && s == b + SkipSpace(s) && (SkipSpace(s) == "" || !IsSpace(SkipSpace(s)[0]))
  {
    b := "";
    if s != "" && IsSpace(s[0]) {
      var rest := SkippedAreBlanks(s[1..]);
      b := [s[0]] + rest;
    }
  }

  // ---- strings ----

  lemma NibbleIsRead(c: char)
    ensures HexValue(c) == if IsHexDigit(c) then Some(Nibble(c)) else None
  {
  }

  lemma HexIsRead(hex: string, rest: string)
    requires IsHex(hex)
    ensures ReadHex4(hex + rest) == Some(HexNumber(hex)) && (hex + rest)[4..] == rest
  {
    var s := hex + rest;
    assert s[0] == hex[0] && s[1] == hex[1] && s[2] == hex[2] && s[3] == hex[3];
    NibbleIsRead(s[0]);
    NibbleIsRead(s[1]);
    NibbleIsRead(s[2]);
    NibbleIsRead(s[3]);
  }

  lemma ReadIsHex(s: string)
    requires ReadHex4(s).Some?
    ensures IsHex(s[..4]) && HexNumber(s[..4]) == ReadHex4(s).value
  {
    NibbleIsRead(s[0]);
    NibbleIsRead(s[1]);
    NibbleIsRead(s[2]);
    NibbleIsRead(s[3]);
  }

  lemma PointIsScalar(p: Piece)
    requires IsPiece(p)
    ensures Utf8.IsScalar(CodePoint(p))
  {
  }

  lemma LetterIsRead(letter: char, rest: string)
    requires LetterPoint(letter) >= 0
    ensures ReadEscape([letter] + rest) == Some((LetterPoint(letter) as char, rest))
  {
    assert ([letter] + rest)[1..] == rest;
  }

  lemma UnitIsRead(hex: string, rest: string)
    requires IsPiece(Unit(hex))
    ensures ReadUnicodeEscape(hex + rest) == Some((HexNumber(hex) as char, rest))
  {
    HexIsRead(hex, rest);
  }

  lemma PairIsRead(high: string, low: string, rest: string)
    requires IsPiece(Pair(high, low))
    ensures ReadUnicodeEscape(high + ("\\u" + (low + rest))) == Some((CodePoint(Pair(high, low)) as char, rest))
  {
    var tail := "\\u" + (low + rest);
    HexIsRead(high, tail);
    HexIsRead(low, rest);
    assert tail[2..] == low + rest;
    assert tail[6..] == rest;
    assert (high + tail)[10..] == tail[6..];
  }

  /** A backslash and what it escapes. */
  lemma EscapeIsRead(escaped: string, c: char, rest: string, rest': string)
    requires ReadEscape(escaped + rest) == Some((c, rest'))
    ensures ReadString("\\" + escaped + rest) == Prefixed(c, ReadString(rest'))
  {
    assert ("\\" + escaped + rest)[1..] == escaped + rest;
  }

  lemma PlainIsRead(c: char, rest: string)
    requires IsPiece(Plain(c))
    ensures ReadString([c] + rest) == Prefixed(c, ReadString(rest))
  {
    assert ([c] + rest)[1..] == rest;
  }

  lemma ShortIsRead(letter: char, rest: string)
    requires IsPiece(Short(letter))
    ensures ReadString(PieceText(Short(letter)) + rest) == Prefixed(LetterPoint(letter) as char, ReadString(rest))
  {
    LetterIsRead(letter, rest);
    EscapeIsRead([letter], LetterPoint(letter) as char, rest, rest);
  }

  lemma UnitPieceIsRead(hex: string, rest: string)
    requires IsPiece(Unit(hex))
    ensures ReadString(PieceText(Unit(hex)) + rest) == Prefixed(HexNumber(hex) as char, ReadString(rest))
  {
    UnitIsRead(hex, rest);
    UnicodeIsRead(hex + rest, HexNumber(hex) as char, rest);
    Assoc("\\u", hex, rest);
  }

  lemma PairPieceIsRead(high: string, low: string, rest: string)
    requires IsPiece(Pair(high, low)) && Utf8.IsScalar(CodePoint(Pair(high, low)))
    ensures ReadString(PieceText(Pair(high, low)) + rest)
         == Prefixed(CodePoint(Pair(high, low)) as char, ReadString(rest))
  {
    PairIsRead(high, low, rest);
    UnicodeIsRead(high + ("\\u" + (low + rest)), CodePoint(Pair(high, low)) as char, rest);
    Assoc("\\u" + high, "\\u" + low, rest);
    Assoc("\\u", low, rest);
    Assoc("\\u", high, "\\u" + (low + rest));
  }

  lemma PieceIsRead(p: Piece, rest: string)
    requires IsPiece(p)
    ensures Utf8.IsScalar(CodePoint(p))
    ensures ReadString(PieceText(p) + rest) == Prefixed(CodePoint(p) as char, ReadString(rest))
  {
    PointIsScalar(p);
    match p
    case Plain(c) => PlainIsRead(c, rest);
    case Short(letter) => ShortIsRead(letter, rest);
    case Unit(hex) => UnitPieceIsRead(hex, rest);
    case Pair(high, low) => PairPieceIsRead(high, low, rest);
  }

  lemma UnicodeIsRead(s: string, c: char, rest: string)
    requires ReadUnicodeEscape(s) == Some((c, rest))
    ensures ReadString("\\u" + s) == Prefixed(c, ReadString(rest))
  {
    var t := "\\u" + s;
    assert t[1..] == "u" + s && t[1..][1..] == s;
  }

  lemma {:induction false} BodyIsRead(body: seq<Piece>, text: string, rest: string)
    requires Spells(body, text)
    ensures ReadString(BodyText(body, rest)) == Some((text, rest))
  {
    if body == [] {
      assert ("\"" + rest)[1..] == rest;
    } else {
      BodyIsRead(body[1..], text[1..], rest);
      PieceIsRead(body[0], BodyText(body[1..], rest));
      assert [text[0]] + text[1..] == text;
    }
  }

  // ---- what a string is read from ----

  lemma ReadLetter(s: string)
    requires ReadEscape(s).Some? && s[0] != 'u'
    ensures LetterPoint(s[0]) == ReadEscape(s).value.0 as int && ReadEscape(s).value.1 == s[1..]
  {
  }

  lemma ReadUnicode(s: string) returns (p: Piece)
    requires ReadUnicodeEscape(s).Some?
    ensures IsPiece(p) && CodePoint(p) == ReadUnicodeEscape(s).value.0 as int
    ensures PieceText(p) + ReadUnicodeEscape(s).value.1 == "\\u" + s
  {
    ReadIsHex(s);
    var v := HexNumber(s[..4]);
    if 0xD800 <= v < 0xDC00 {
      var tail := s[4..];
      ReadIsHex(tail[2..]);
      p := Pair(s[..4], tail[2..][..4]);
      SplitPair(s, s[..4], tail[2..][..4]);
    } else {
      p := Unit(s[..4]);
      assert "\\u" + s[..4] + s[4..] == "\\u" + s;
    }
  }

  lemma SplitPair(s: string, high: string, low: string)
    requires |s| >= 10 && high == s[..4] && s[4] == '\\' && s[5] == 'u' && low == s[4..][2..][..4]
    ensures "\\u" + high + ("\\u" + low) + s[10..] == "\\u" + s
  {
    assert low == s[6..10];
    assert s == high + ("\\u" + (low + s[10..]));
  }

  lemma ReadPiece(s: string) returns (p: Piece, rest: string)
    requires s != "" && s[0] != '\"' && ReadString(s).Some?
    ensures IsPiece(p) && Utf8.IsScalar(CodePoint(p)) && s == PieceText(p) + rest && |rest| < |s|
    ensures ReadString(s) == Prefixed(CodePoint(p) as char, ReadString(rest))
  {
    if s[0] != '\\' {
      p, rest := Plain(s[0]), s[1..];
    } else if s[1] != 'u' {
      ReadLetter(s[1..]);
      p, rest := Short(s[1]), s[2..];
      assert s == PieceText(p) + rest;
    } else {
      p := ReadUnicode(s[1..][1..]);
      rest := ReadEscape(s[1..]).value.1;
      assert s == "\\u" + s[1..][1..];
    }
    PointIsScalar(p);
  }

  lemma {:induction false} ReadBody(s: string) returns (body: seq<Piece>)
    requires ReadString(s).Some?
    ensures Spells(body, ReadString(s).value.0) && s == BodyText(body, ReadString(s).value.1)
    decreases |s|
  {
    if s[0] == '\"' {
      body := [];
      assert s == "\"" + s[1..];
    } else {
      var p, rest := ReadPiece(s);
      var more := ReadBody(rest);
      body := [p] + more;
      assert body[1..] == more;
    }
  }

  // ---- numbers ----

  lemma {:induction false} DigitsEndAt(s: string, i: nat, j: nat)
    requires i <= j <= |s| && (forall k :: i <= k < j ==> Decimal.IsDigit(s[k]))
    requires j < |s| ==> !Decimal.IsDigit(s[j])
    ensures DigitsEnd(s, i) == j
    decreases j - i
  {
    if i == j {
    } else {
      DigitsEndAt(s, i + 1, j);
    }
  }

  lemma WholeEndsAt(s: string, i: nat, whole: string, tail: string)
    requires i <= |s| && s[i..] == whole + tail
    requires Digits(whole) && (whole == "0" || whole[0] != '0') && (tail == "" || !Decimal.IsDigit(tail[0]))
    ensures IntegerEnd(s, i) == i + |whole|
  {
    assert forall k :: 0 <= k < |whole| ==> s[i + k] == s[i..][k] == whole[k];
    assert forall k :: i <= k < i + |whole| ==> s[k] == whole[k - i];
    assert tail != "" ==> s[i + |whole|] == s[i..][|whole|] == tail[0];
    if whole != "0" {
      DigitsEndAt(s, i, i + |whole|);
    }
  }

  lemma FractionEndsAt(s: string, i: nat, fraction: string, tail: string)
    requires i <= |s| && s[i..] == fraction + tail
    requires IsFraction(fraction) && (tail == "" || (!Decimal.IsDigit(tail[0]) && tail[0] != '.'))
    ensures FractionEnd(s, i) == i + |fraction|
  {
    assert forall k :: 0 <= k < |fraction| ==> s[i + k] == s[i..][k] == fraction[k];
    assert forall k :: i <= k < i + |fraction| ==> s[k] == fraction[k - i];
    assert tail != "" ==> s[i + |fraction|] == s[i..][|fraction|] == tail[0];
    if fraction != "" {
      assert forall k :: 1 <= k < |fraction| ==> fraction[k] == fraction[1..][k - 1];
      DigitsEndAt(s, i + 1, i + |fraction|);
    }
  }

  lemma ExponentEndsAt(s: string, i: nat, exponent: string)
    requires i <= |s| && s[i..] == exponent && IsExponent(exponent)
    ensures ExponentEnd(s, i) == |s|
  {
    if exponent != "" {
      var d := if |exponent| > 1 && exponent[1] in {'+', '-'} then 2 else 1;
      assert s[i] == exponent[0] && s[i + 1] == exponent[1];
      SignedDigits(exponent, d);
      assert forall k :: i + d <= k < |s| ==> s[k] == exponent[k - i];
      DigitsEndAt(s, i + d, |s|);
    }
  }

  lemma SignedDigits(exponent: string, d: nat)
    requires exponent != "" && IsExponent(exponent)
    requires d == if |exponent| > 1 && exponent[1] in {'+', '-'} then 2 else 1
    ensures |exponent| > d && forall k :: d <= k < |exponent| ==> Decimal.IsDigit(exponent[k])
  {
    if d == 2 {
      assert exponent[1..][0] == exponent[1];
    }
    assert forall k :: d <= k < |exponent| ==> exponent[k] == exponent[d..][k - d];
  }

  lemma Suffixes(a: string, b: string, c: string, d: string, s: string)
    requires s == a + (b + (c + d))
    ensures |s| == |a| + |b| + |c| + |d|
    ensures s[|a|..] == b + (c + d) && s[|a| + |b|..] == c + d && s[|a| + |b| + |c|..] == d
  {
  }

  lemma TailStarts(fraction: string, exponent: string)
    requires IsFraction(fraction) && IsExponent(exponent)
    ensures fraction + exponent == "" || !Decimal.IsDigit((fraction + exponent)[0])
    ensures exponent == "" || (!Decimal.IsDigit(exponent[0]) && exponent[0] != '.')
  {
    if fraction == "" {
      assert fraction + exponent == exponent;
    }
  }

  lemma NumberEndsAt(s: string, i: nat, n: nat, f: nat)
    requires s != "" && i == if s[0] == '-' then 1 else 0
    requires i < n <= f <= |s| && IntegerEnd(s, i) == n && FractionEnd(s, n) == f && ExponentEnd(s, f) == |s|
    ensures NumberEnd(s) == |s|
  {
  }

  lemma NumeralEnds(s: string, minus: string, whole: string, fraction: string, exponent: string)
    requires IsNumeral(Numeral(minus, whole, fraction, exponent)) && s == minus + (whole + (fraction + exponent))
    ensures s != "" && NumberEnd(s) == |s|
  {
    var i, n, f := |minus|, |minus| + |whole|, |minus| + |whole| + |fraction|;
    Suffixes(minus, whole, fraction, exponent, s);
    TailStarts(fraction, exponent);
    WholeEndsAt(s, i, whole, fraction + exponent);
    FractionEndsAt(s, n, fraction, exponent);
    ExponentEndsAt(s, f, exponent);
    StartsWithSign(s, minus, whole, fraction + exponent);
    NumberEndsAt(s, i, n, f);
  }

  lemma StartsWithSign(s: string, minus: string, whole: string, tail: string)
    requires s == minus + (whole + tail) && Digits(whole) && (minus == "" || minus == "-")
    ensures s != "" && |minus| == if s[0] == '-' then 1 else 0
  {
    assert s[0] == if minus == "" then whole[0] else '-';
  }

  lemma NumeralIsNumber(n: Numeral)
    requires IsNumeral(n)
    ensures IsNumber(NumeralText(n))
  {
    if n.Numeral? {
      NumeralEnds(NumeralText(n), n.minus, n.whole, n.fraction, n.exponent);
    }
  }

  lemma WholePart(s: string, i: nat)
    requires i <= |s| && IntegerEnd(s, i) > i
    ensures var whole := s[i..IntegerEnd(s, i)]; Digits(whole) && (whole == "0" || whole[0] != '0')
  {
  }

  lemma FractionPart(s: string, i: nat)
    requires i <= |s|
    ensures IsFraction(s[i..FractionEnd(s, i)])
  {
    var f := FractionEnd(s, i);
    if f > i {
      assert s[i..f][1..] == s[i + 1..f];
    }
  }

  lemma ExponentPart(s: string, i: nat)
    requires i <= |s| && ExponentEnd(s, i) == |s|
    ensures IsExponent(s[i..])
  {
    var e := s[i..];
    if e != "" {
      assert e[1..] == s[i + 1..] && e[0] == s[i];
      if |e| > 1 && (e[1] == '+' || e[1] == '-') {
        assert e[2..] == s[i + 2..] && e[1] == s[i + 1];
      }
    }
  }

  lemma CutInFour(s: string, i: nat, j: nat, k: nat)
    requires i <= j <= k <= |s|
    ensures s == s[..i] + (s[i..j] + (s[j..k] + s[k..]))
  {
  }

  lemma NumberIsNumeral(s: string) returns (n: Numeral)
    requires IsNumber(s)
    ensures IsNumeral(n) && NumeralText(n) == s
  {
    if IsConstant(s) {
      n := Named(s);
    } else {
      var i := if s[0] == '-' then 1 else 0;
      var j := IntegerEnd(s, i);
      var k := FractionEnd(s, j);
      WholePart(s, i);
      FractionPart(s, j);
      ExponentPart(s, k);
      CutInFour(s, i, j, k);
      n := Numeral(if i == 1 then "-" else "", s[i..j], s[j..k], s[k..]);
      assert s[..i] == n.minus;
    }
  }

  // ---- values: what is written is read ----

  /** A tree's text starts with no blank and no closing bracket. */
  lemma TreeStarts(t: Tree, rest: string)
    requires IsTree(t)
    ensures var s := TreeText(t, rest); s != "" && !IsSpace(s[0]) && s[0] != ']' && s[0] != '}'
  {
    if t.Number? {
      var n := t.numeral;
      assert NumeralText(n) != "" && (n.Numeral? ==> NumeralText(n)[0] == if n.minus == "" then n.whole[0] else '-');
    }
  }

  lemma NameIsRead(v: Json, rest: string)
    requires v in NAMES
    ensures ReadValue(NAMES[v] + rest) == Some((v, rest))
  {
    var s := NAMES[v] + rest;
    assert s[|NAMES[v]|..] == rest;
    assert s[0] == NAMES[v][0];
  }

  lemma {:induction false} TreeIsRead(t: Tree, rest: string)
    requires IsTree(t) && EndsNumber(rest)
    ensures ReadValue(TreeText(t, rest)) == Some((Meaning(t), rest))
    decreases t, 0
  {
    match t
    case Name(value) => NameIsRead(value, rest);
    case Number(numeral) =>
      NumeralIsNumber(numeral);
      NumberRead(NumeralText(numeral), rest);
    case Text(body, text) =>
      BodyIsRead(body, text, rest);
      assert ("\"" + BodyText(body, rest))[1..] == BodyText(body, rest);
    case Array(inner, items) =>
      ArrayIsRead(inner, items, rest);
    case Object(inner, members) =>
      ObjectIsRead(inner, members, rest);
  }

  lemma AfterSpace(b: string, c: char, tail: string)
    requires Blank(b) && !IsSpace(c)
    ensures SkipSpace(b + ([c] + tail)) == [c] + tail && ([c] + tail)[1..] == tail
    ensures EndsNumber([c] + tail) ==> EndsNumber(b + ([c] + tail))
  {
    BlanksAreSkipped(b, [c] + tail);
    if b == "" {
      assert b + ([c] + tail) == [c] + tail;
    }
  }

  lemma {:induction false} ArrayIsRead(inner: string, items: seq<Item>, rest: string)
    requires Blank(inner) && AreItems(items)
    ensures ReadValue(TreeText(Array(inner, items), rest)) == Some((List(ItemMeanings(items)), rest))
    decreases items, 2
  {
    if items == [] {
      AfterSpace(inner, ']', rest);
      assert ("[" + (inner + ("]" + rest)))[1..] == inner + ("]" + rest);
    } else {
      var s := ItemsText(items, rest);
      assert ("[" + s)[1..] == s;
      var next := if |items| == 1 then "]" + rest else "," + ItemsText(items[1..], rest);
      TreeStarts(items[0].value, items[0].after + next);
      BlanksAreSkipped(items[0].before, TreeText(items[0].value, items[0].after + next));
      ItemsAreRead(items, rest);
    }
  }

  /** Items are read from the first one's text on. */
  lemma {:induction false} ItemsAreRead(items: seq<Item>, rest: string)
    requires AreItems(items) && items != []
    ensures ReadItems(SkipSpace(ItemsText(items, rest))) == Some((ItemMeanings(items), rest))
    decreases items, 1
  {
    var item := items[0];
    var next := if |items| == 1 then "]" + rest else "," + ItemsText(items[1..], rest);
    TreeStarts(item.value, item.after + next);
    BlanksAreSkipped(item.before, TreeText(item.value, item.after + next));
    if |items| == 1 {
      AfterSpace(item.after, ']', rest);
      TreeIsRead(item.value, item.after + next);
      assert ItemMeanings(items) == [Meaning(item.value)];
    } else {
      AfterSpace(item.after, ',', ItemsText(items[1..], rest));
      TreeIsRead(item.value, item.after + next);
      ItemsAreRead(items[1..], rest);
    }
  }

  lemma {:induction false} ObjectIsRead(inner: string, members: seq<Member>, rest: string)
    requires Blank(inner) && AreMembers(members)
    ensures ReadValue(TreeText(Object(inner, members), rest)) == Some((Dict(MemberMeanings(members)), rest))
    decreases members, 3
  {
    if members == [] {
      AfterSpace(inner, '}', rest);
      assert ("{" + (inner + ("}" + rest)))[1..] == inner + ("}" + rest);
    } else {
      var s := MembersText(members, rest);
      assert ("{" + s)[1..] == s;
      MemberStarts(members[0], if |members| == 1 then "}" + rest else "," + MembersText(members[1..], rest));
      MembersAreRead(members, rest);
    }
  }

  lemma MemberStarts(m: Member, rest: string)
    requires IsMember(m)
    ensures var s := SkipSpace(MemberText(m, rest)); s != "" && s[0] == '\"'
  {
    var body := BodyText(m.body, m.afterKey + (":" + (m.beforeValue + TreeText(m.value, m.after + rest))));
    AfterSpace(m.before, '\"', body);
  }

  lemma {:induction false} MemberIsRead(m: Member, rest: string)
    requires IsMember(m) && EndsNumber(m.after + rest)
    ensures ReadField(SkipSpace(MemberText(m, rest))) == Some((Field(m.key, Meaning(m.value)), m.after + rest))
    decreases m, 1
  {
    var value := TreeText(m.value, m.after + rest);
    var tail := m.afterKey + (":" + (m.beforeValue + value));
    AfterSpace(m.before, '\"', BodyText(m.body, tail));
    BodyIsRead(m.body, m.key, tail);
    AfterSpace(m.afterKey, ':', m.beforeValue + value);
    TreeStarts(m.value, m.after + rest);
    BlanksAreSkipped(m.beforeValue, value);
    TreeIsRead(m.value, m.after + rest);
  }

  lemma {:induction false} MembersAreRead(members: seq<Member>, rest: string)
    requires AreMembers(members) && members != []
    ensures ReadFields(SkipSpace(MembersText(members, rest))) == Some((MemberMeanings(members), rest))
    decreases members, 2
  {
    var m := members[0];
    if |members| == 1 {
      AfterSpace(m.after, '}', rest);
      MemberIsRead(m, "}" + rest);
      assert MemberMeanings(members) == [Field(m.key, Meaning(m.value))];
    } else {
      var more := MembersText(members[1..], rest);
      AfterSpace(m.after, ',', more);
      MemberIsRead(m, "," + more);
      MembersAreRead(members[1..], rest);
    }
  }

  // ---- values: what is read was written ----

  lemma ReadNumeral(s: string) returns (t: Tree)
    requires ReadNumber(s).Some?
    ensures IsTree(t) && Meaning(t) == ReadNumber(s).value.0 && s == TreeText(t, ReadNumber(s).value.1)
  {
    var literal := ReadNumber(s).value.0.literal;
    var numeral := NumberIsNumeral(literal);
    t := Number(numeral);
    NumberIsPrefix(s);
  }

  lemma Prefix(a: string, s: string)
    requires a <= s
    ensures s == a + s[|a|..]
  {
  }

  lemma NumberIsPrefix(s: string)
    requires ReadNumber(s).Some?
    ensures s == ReadNumber(s).value.0.literal + ReadNumber(s).value.1
  {
    if "NaN" <= s {
      Prefix("NaN", s);
    } else if "Infinity" <= s {
      Prefix("Infinity", s);
    } else if "-Infinity" <= s {
      Prefix("-Infinity", s);
    } else {
      Prefix(s[..NumberEnd(s)], s);
    }
  }

  lemma ReadName(s: string) returns (t: Tree)
    requires ReadWord(s).Some?
    ensures IsTree(t) && Meaning(t) == ReadWord(s).value.0 && s == TreeText(t, ReadWord(s).value.1)
  {
    if "null" <= s {
      t := Name(Null);
    } else if "true" <= s {
      t := Name(Bool(true));
    } else if "false" <= s {
      t := Name(Bool(false));
    } else {
      t := ReadNumeral(s);
    }
  }

  lemma {:induction false} ReadTree(s: string) returns (t: Tree)
    requires ReadValue(s).Some?
    ensures IsTree(t) && Meaning(t) == ReadValue(s).value.0 && s == TreeText(t, ReadValue(s).value.1)
    decreases |s|, 1
  {
    var rest := ReadValue(s).value.1;
    if s[0] == '\"' {
      var body := ReadBody(s[1..]);
      t := Text(body, ReadString(s[1..]).value.0);
      assert s == "\"" + s[1..];
    } else if s[0] == '[' {
      t := ReadArray(s);
    } else if s[0] == '{' {
      t := ReadObject(s);
    } else {
      t := ReadName(s);
    }
  }

  lemma Then(s: string, b: string, c: char)
    requires Blank(b) && s == b + SkipSpace(s) && SkipSpace(s) != "" && SkipSpace(s)[0] == c
    ensures s == b + ([c] + SkipSpace(s)[1..])
  {
  }

  lemma {:induction false} ReadArray(s: string) returns (t: Tree)
    requires s != "" && s[0] == '[' && ReadValue(s).Some?
    ensures IsTree(t) && Meaning(t) == ReadValue(s).value.0 && s == TreeText(t, ReadValue(s).value.1)
    decreases |s|, 0
  {
    var tail := s[1..];
    assert s == "[" + tail;
    var inner := SkippedAreBlanks(tail);
    var u := SkipSpace(tail);
    if u != "" && u[0] == ']' {
      t := Array(inner, []);
      Then(tail, inner, ']');
    } else {
      var items := ReadItemTrees(tail);
      t := Array("", items);
    }
  }

  /** Items from before the first one's blanks on. */
  lemma {:induction false} ReadItemTrees(s: string) returns (items: seq<Item>)
    requires ReadItems(SkipSpace(s)).Some?
    ensures items != [] && AreItems(items)
    ensures ItemMeanings(items) == ReadItems(SkipSpace(s)).value.0
    ensures s == ItemsText(items, ReadItems(SkipSpace(s)).value.1)
    decreases |s|, 2
  {
    var before := SkippedAreBlanks(s);
    var u := SkipSpace(s);
    var v := ReadTree(u);
    var after := SkippedAreBlanks(ReadValue(u).value.1);
    var w := SkipSpace(ReadValue(u).value.1);
    Then(ReadValue(u).value.1, after, w[0]);
    if w[0] == ']' {
      items := [Item(before, v, after)];
      assert items[1..] == [];
    } else {
      var more := ReadItemTrees(w[1..]);
      items := [Item(before, v, after)] + more;
      assert items[1..] == more;
    }
  }

  lemma {:induction false} ReadObject(s: string) returns (t: Tree)
    requires s != "" && s[0] == '{' && ReadValue(s).Some?
    ensures IsTree(t) && Meaning(t) == ReadValue(s).value.0 && s == TreeText(t, ReadValue(s).value.1)
    decreases |s|, 0
  {
    var tail := s[1..];
    assert s == "{" + tail;
    var inner := SkippedAreBlanks(tail);
    var u := SkipSpace(tail);
    if u != "" && u[0] == '}' {
      t := Object(inner, []);
      Then(tail, inner, '}');
    } else {
      var members := ReadMemberTrees(tail);
      t := Object("", members);
    }
  }

  /** A member up to the blanks after its value, and those. */
  lemma {:induction false} ReadMember(s: string) returns (m: Member)
    requires ReadField(SkipSpace(s)).Some?
    ensures IsMember(m)
    ensures Field(m.key, Meaning(m.value)) == ReadField(SkipSpace(s)).value.0
    ensures s == MemberText(m, SkipSpace(ReadField(SkipSpace(s)).value.1))
    decreases |s|, 2
  {
    var before := SkippedAreBlanks(s);
    var u := SkipSpace(s);
    Then(s, before, '\"');
    var body := ReadBody(u[1..]);
    var key, rest := ReadString(u[1..]).value.0, ReadString(u[1..]).value.1;
    var afterKey := SkippedAreBlanks(rest);
    Then(rest, afterKey, ':');
    var tail := SkipSpace(rest)[1..];
    var beforeValue := SkippedAreBlanks(tail);
    var v := ReadTree(SkipSpace(tail));
    var end := ReadValue(SkipSpace(tail)).value.1;
    var after := SkippedAreBlanks(end);
    m := Member(before, body, key, afterKey, beforeValue, v, after);
  }

  lemma {:induction false} ReadMemberTrees(s: string) returns (members: seq<Member>)
    requires ReadFields(SkipSpace(s)).Some?
    ensures members != [] && AreMembers(members)
    ensures MemberMeanings(members) == ReadFields(SkipSpace(s)).value.0
    ensures s == MembersText(members, ReadFields(SkipSpace(s)).value.1)
    decreases |s|, 3
  {
    var m := ReadMember(s);
    var w := SkipSpace(ReadField(SkipSpace(s)).value.1);
    assert w == [w[0]] + w[1..];
    if w[0] == '}' {
      members := [m];
      assert members[1..] == [];
    } else {
      var more := ReadMemberTrees(w[1..]);
      members := [m] + more;
      assert members[1..] == more;
    }
  }

  // ---- the whole text ----

  /** Every layout of every document is read, and read as that document. */
  lemma LayoutIsRead(s: string, before: string, t: Tree, after: string)
    requires Lays(s, before, t, after)
    ensures Parse(s) == Some(Meaning(t))
  {
    TreeStarts(t, after);
    BlanksAreSkipped(before, TreeText(t, after));
    TreeIsRead(t, after);
    BlanksAreSkipped(after, "");
    assert after + "" == after;
  }

  /** The reader reads exactly JSON text, and reads it as what it means. */
  lemma ParseIff(s: string, v: Json)
    ensures Parse(s) == Some(v) <==> Denotes(s, v)
  {
    if Parse(s) == Some(v) {
      var before := SkippedAreBlanks(s);
      var t := ReadTree(SkipSpace(s));
      var after := ReadValue(SkipSpace(s)).value.1;
      var blanks := SkippedAreBlanks(after);
      assert blanks + "" == blanks;
      assert Lays(s, before, t, after);
    } else if Denotes(s, v) {
      var before, t, after :| Lays(s, before, t, after) && Meaning(t) == v;
      LayoutIsRead(s, before, t, after);
    }
  }
}
