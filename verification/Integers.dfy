/** Reading an integer from text: `int(s)`, for every text. */
module Integers {
  import opened Wrappers
  import Decimal
  import Unicode

  /** The white space that `int` allows around a number; the separators U+001C to U+001F are not part of it. */
  predicate IsBlank(c: char) {
    Unicode.IsSpace(c) && !(28 <= c as int <= 31)
  }

  function SkipBlanks(s: string): (r: string)
    ensures |r| <= |s|
  {
    if s != "" && IsBlank(s[0]) then SkipBlanks(s[1..]) else s
  }

  function DropBlanks(s: string): (r: string)
    ensures |r| <= |s|
  {
    if s != "" && IsBlank(s[|s| - 1]) then DropBlanks(s[..|s| - 1]) else s
  }

  /** The digits of a numeral, which may have single underscores between them. */
  function Ungrouped(s: string): (r: Option<string>)
    ensures r.Some? ==> r.value != "" && Unicode.AllDigits(r.value)
  {
    if s == "" || !Unicode.IsDigit(s[0]) then None
    else if |s| == 1 then Some(s)
    else
      match Ungrouped(if s[1] == '_' then s[2..] else s[1..])
      case Some(digits) => Some([s[0]] + digits)
      case None => None
  }

  /** The value of a numeral after a sign. */
  function SignedValue(sign: string, numeral: string): Option<int> {
    if sign != "" && sign != "+" && sign != "-" then None
    else
      match Ungrouped(numeral)
      case None => None
      case Some(digits) =>
        if |digits| > Decimal.MAX_DIGITS then None else Some(Signed(sign == "-", Unicode.Parse(digits)))
  }

  /** A numeral with a sign or without. */
  function ReadSigned(t: string): Option<int> {
    var k := if t != "" && (t[0] == '+' || t[0] == '-') then 1 else 0;
    SignedValue(t[..k], t[k..])
  }

  /** `int(s)`; `None` for the `ValueError` it raises. */
  function ParseInt(s: string): Option<int> {
    ReadSigned(DropBlanks(SkipBlanks(s)))
  }

  function Signed(negative: bool, n: nat): int {
    if negative then 0 - n else n
  }

  // ---- the written form ----

  /** White space, said code point by code point. */
  predicate IsWhite(c: char) {
    var v := c as int;
    || v == 0x09 || v == 0x0A || v == 0x0B || v == 0x0C || v == 0x0D || v == 0x20
    || v == 0x85 || v == 0xA0 || v == 0x1680 || 0x2000 <= v <= 0x200A
    || v == 0x2028 || v == 0x2029 || v == 0x202F || v == 0x205F || v == 0x3000
  }

  predicate Blank(s: string) {
    forall i :: 0 <= i < |s| ==> IsWhite(s[i])
  }

  predicate NumeralChar(c: char) {
    Unicode.IsDigit(c) || c == '_'
  }

  /** Digits and underscores, a digit at both ends, no two underscores together. */
  predicate Grouped(s: string) {
    && s != "" && Unicode.IsDigit(s[0]) && Unicode.IsDigit(s[|s| - 1])
    && (forall i :: 0 <= i < |s| ==> NumeralChar(s[i]))
    && (forall i :: 0 < i < |s| ==> s[i - 1] != '_' || s[i] != '_')
  }

  /** `s` without its underscores. */
  function DigitsOf(s: string): (r: string)
    ensures (forall i :: 0 <= i < |s| ==> NumeralChar(s[i])) ==> Unicode.AllDigits(r)
  {
    if s == "" then "" else (if s[0] == '_' then "" else [s[0]]) + DigitsOf(s[1..])
  }

  /** `s` writes `n`: blanks, a sign, a numeral of at most 4300 digits, blanks. */
  ghost predicate Writes(s: string, n: int) {
    exists before, sign, numeral, after :: Spells(s, n, before, sign, numeral, after)
  }

  predicate Spells(s: string, n: int, before: string, sign: string, numeral: string, after: string) {
    && s == before + (sign + numeral) + after
    && Blank(before) && Blank(after)
    && (sign == "" || sign == "+" || sign == "-")
    && Grouped(numeral)
    && |DigitsOf(numeral)| <= Decimal.MAX_DIGITS
    && n == Signed(sign == "-", Unicode.Parse(DigitsOf(numeral)))
  }

  // ---- blanks ----

  lemma {:induction false} SkippedBlanks(s: string) returns (b: string)
    ensures Blank(b) && s == b + SkipBlanks(s)
    ensures SkipBlanks(s) == "" || !IsBlank(SkipBlanks(s)[0])
  {
    b := "";
    if s != "" && IsBlank(s[0]) {
      var rest := SkippedBlanks(s[1..]);
      b := [s[0]] + rest;
    }
  }

  lemma {:induction false} DroppedBlanks(s: string) returns (b: string)
    ensures Blank(b) && s == DropBlanks(s) + b
    ensures DropBlanks(s) == "" || !IsBlank(DropBlanks(s)[|DropBlanks(s)| - 1])
  {
    b := "";
    if s != "" && IsBlank(s[|s| - 1]) {
      var init := DroppedBlanks(s[..|s| - 1]);
      b := init + [s[|s| - 1]];
    }
  }

  lemma {:induction false} SkipsBlanks(b: string, t: string)
    requires Blank(b) && t != "" && !IsBlank(t[0])
    ensures SkipBlanks(b + t) == t
  {
    if b == "" {
      assert b + t == t;
    } else {
      assert (b + t)[1..] == b[1..] + t;
      SkipsBlanks(b[1..], t);
    }
  }

  lemma {:induction false} DropsBlanks(t: string, b: string)
    requires Blank(b) && t != "" && !IsBlank(t[|t| - 1])
    ensures DropBlanks(t + b) == t
  {
    if b == "" {
      assert t + b == t;
    } else {
      var n := |b| - 1;
      assert (t + b)[..|t + b| - 1] == t + b[..n];
      DropsBlanks(t, b[..n]);
    }
  }

  lemma StripsBlanks(before: string, t: string, after: string)
    requires Blank(before) && Blank(after) && t != "" && !IsBlank(t[0]) && !IsBlank(t[|t| - 1])
    ensures DropBlanks(SkipBlanks(before + t + after)) == t
  {
    assert before + t + after == before + (t + after);
    SkipsBlanks(before, t + after);
    DropsBlanks(t, after);
  }

  // ---- numerals ----

  /** The reader takes exactly the grouped numerals, and of them the digits. */
  lemma {:induction false} UngroupedIsGrouped(s: string)
    ensures Ungrouped(s) == if Grouped(s) then Some(DigitsOf(s)) else None
  {
    if s == "" || !Unicode.IsDigit(s[0]) {
    } else if |s| == 1 {
      OneDigit(s);
    } else {
      var k := if s[1] == '_' then 2 else 1;
      GroupedStep(s, k);
      DigitsStep(s, k);
      UngroupedIsGrouped(s[k..]);
    }
  }

  lemma OneDigit(s: string)
    requires |s| == 1 && Unicode.IsDigit(s[0])
    ensures Grouped(s) && DigitsOf(s) == s
  {
    DigitIsPlain(s[0]);
    assert s[1..] == "" && s == [s[0]];
  }

  lemma GroupedStep(s: string, k: nat)
    requires |s| > 1 && Unicode.IsDigit(s[0]) && k == if s[1] == '_' then 2 else 1
    ensures Grouped(s) <==> Grouped(s[k..])
  {
    var rest := s[k..];
    assert rest != "" ==> rest[|rest| - 1] == s[|s| - 1];
    assert forall i :: 0 <= i < |rest| ==> rest[i] == s[i + k];
    if Grouped(s) {
      assert |s| > k && NumeralChar(s[k]);
    }
    if Grouped(rest) {
      forall i | 0 <= i < |s| ensures NumeralChar(s[i]) {
        assert i >= k ==> s[i] == rest[i - k];
      }
      forall i | 0 < i < |s| ensures s[i - 1] != '_' || s[i] != '_' {
        assert i > k ==> s[i] == rest[i - k] && s[i - 1] == rest[i - k - 1];
      }
    }
  }

  lemma DigitsStep(s: string, k: nat)
    requires |s| > 1 && Unicode.IsDigit(s[0]) && k == if s[1] == '_' then 2 else 1
    ensures DigitsOf(s) == [s[0]] + DigitsOf(s[k..])
  {
    DigitIsPlain(s[0]);
    if k == 2 {
      DigitsAfterUnderscore(s[1..], s[2..]);
    }
  }

  lemma DigitsAfterUnderscore(s: string, rest: string)
    requires s != "" && s[0] == '_' && rest == s[1..]
    ensures DigitsOf(s) == DigitsOf(rest)
  {
    assert "" + DigitsOf(rest) == DigitsOf(rest);
  }

  lemma DigitIsPlain(c: char)
    requires Unicode.IsDigit(c)
    ensures !IsBlank(c) && c != '+' && c != '-' && c != ':' && c != '_'
  {
  }

  lemma SignedIsRead(sign: string, numeral: string)
    requires (sign == "" || sign == "+" || sign == "-") && Grouped(numeral)
    ensures ReadSigned(sign + numeral) == SignedValue(sign, numeral)
  {
    var t := sign + numeral;
    DigitIsPlain(numeral[0]);
    assert t[0] == if sign == "" then numeral[0] else sign[0];
    assert t[..|sign|] == sign && t[|sign|..] == numeral;
  }

  lemma SignedEnds(sign: string, numeral: string)
    requires (sign == "" || sign == "+" || sign == "-") && Grouped(numeral)
    ensures var t := sign + numeral; t != "" && !IsBlank(t[0]) && !IsBlank(t[|t| - 1])
  {
    var t := sign + numeral;
    DigitIsPlain(numeral[0]);
    DigitIsPlain(numeral[|numeral| - 1]);
    assert t[|t| - 1] == numeral[|numeral| - 1];
    assert t[0] == if sign == "" then numeral[0] else sign[0];
  }

  lemma SpelledIsRead(s: string, n: int, before: string, sign: string, numeral: string, after: string)
    requires Spells(s, n, before, sign, numeral, after)
    ensures ParseInt(s) == Some(n)
  {
    UngroupedIsGrouped(numeral);
    SignedEnds(sign, numeral);
    StripsBlanks(before, sign + numeral, after);
    SignedIsRead(sign, numeral);
  }

  lemma Stripped(s: string) returns (before: string, t: string, after: string)
    ensures t == DropBlanks(SkipBlanks(s)) && s == before + t + after && Blank(before) && Blank(after)
  {
    before := SkippedBlanks(s);
    after := DroppedBlanks(SkipBlanks(s));
    t := DropBlanks(SkipBlanks(s));
    assert before + (t + after) == before + t + after;
  }

  lemma SplitSign(t: string) returns (sign: string, numeral: string)
    ensures t == sign + numeral && ReadSigned(t) == SignedValue(sign, numeral)
  {
    var k := if t != "" && (t[0] == '+' || t[0] == '-') then 1 else 0;
    sign, numeral := t[..k], t[k..];
  }

  lemma ReadIsSpelled(s: string)
    requires ParseInt(s).Some?
    ensures Writes(s, ParseInt(s).value)
  {
    var before, t, after := Stripped(s);
    var sign, numeral := SplitSign(t);
    UngroupedIsGrouped(numeral);
    assert Spells(s, ParseInt(s).value, before, sign, numeral, after);
  }

  /** `int` reads exactly the texts that write an integer, and reads what they write. */
  lemma ParseIntIff(s: string, n: int)
    ensures ParseInt(s) == Some(n) <==> Writes(s, n)
  {
    if ParseInt(s) == Some(n) {
      ReadIsSpelled(s);
    } else if Writes(s, n) {
      var before, sign, numeral, after :| Spells(s, n, before, sign, numeral, after);
      SpelledIsRead(s, n, before, sign, numeral, after);
    }
  }

  // ---- printing ----

  /** `str(n)`; `None` for the `ValueError` it raises on more than 4300 digits. */
  function PrintInt(n: int): Option<string> {
    var digits := Decimal.Print(if n < 0 then 0 - n else n);
    if |digits| > Decimal.MAX_DIGITS then None
    else Some((if n < 0 then "-" else "") + digits)
  }

  lemma {:induction false} NoUnderscores(digits: string)
    requires Unicode.AllDigits(digits)
    ensures DigitsOf(digits) == digits
  {
    if digits == "" {
    } else {
      NoUnderscores(digits[1..]);
    }
  }

  /** What prints reads back. */
  lemma ParsePrint(n: int)
    requires PrintInt(n).Some?
    ensures ParseInt(PrintInt(n).value) == Some(n)
  {
    var digits := Decimal.Print(if n < 0 then 0 - n else n);
    Decimal.ParsePrint(if n < 0 then 0 - n else n);
    Unicode.ParseAscii(digits);
    DigitsAreParsed(if n < 0 then "-" else "", digits);
  }

  /** Digits after a sign or none are read, of any script, up to the limit. */
  lemma DigitsAreParsed(sign: string, digits: string)
    requires sign == "" || sign == "-"
    requires digits != "" && Unicode.AllDigits(digits)
    ensures ParseInt(sign + digits)
         == if |digits| > Decimal.MAX_DIGITS then None else Some(Signed(sign == "-", Unicode.Parse(digits)))
  {
    PlainNumeral(digits);
    NumeralIsRead(sign, digits);
    ValueOfDigits(sign, digits);
  }

  lemma NumeralIsRead(sign: string, numeral: string)
    requires (sign == "" || sign == "+" || sign == "-") && Grouped(numeral)
    ensures ParseInt(sign + numeral) == SignedValue(sign, numeral)
  {
    SignedEnds(sign, numeral);
    UnpaddedIsRead(sign + numeral);
    SignedIsRead(sign, numeral);
  }

  lemma ValueOfDigits(sign: string, digits: string)
    requires sign == "" || sign == "-"
    requires Ungrouped(digits) == Some(digits)
    ensures SignedValue(sign, digits)
         == if |digits| > Decimal.MAX_DIGITS then None else Some(Signed(sign == "-", Unicode.Parse(digits)))
  {
  }

  lemma PlainNumeral(digits: string)
    requires digits != "" && Unicode.AllDigits(digits)
    ensures Grouped(digits) && Ungrouped(digits) == Some(digits)
  {
    NoUnderscores(digits);
    DigitsAreGrouped(digits);
    UngroupedIsGrouped(digits);
  }

  lemma DigitsAreGrouped(digits: string)
    requires digits != "" && Unicode.AllDigits(digits)
    ensures Grouped(digits)
  {
    forall i | 0 <= i < |digits| ensures digits[i] != '_' {
      DigitIsPlain(digits[i]);
    }
  }

  lemma UnpaddedIsRead(t: string)
    requires t != "" && !IsBlank(t[0]) && !IsBlank(t[|t| - 1])
    ensures ParseInt(t) == ReadSigned(t)
  {
    assert SkipBlanks(t) == t;
    assert DropBlanks(t) == t;
  }

  /** No text of an integer has a colon. */
  lemma NoColon(s: string)
    requires ParseInt(s).Some?
    ensures ':' !in s
  {
    ReadIsSpelled(s);
    var before, sign, numeral, after :| Spells(s, ParseInt(s).value, before, sign, numeral, after);
    forall c | c in s ensures c != ':' {
      assert c in before || c in sign || c in numeral || c in after;
    }
  }
}
