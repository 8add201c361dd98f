/** Decimal numerals of natural numbers: what `str(n)` prints and `int(s)` reads back. */
module Decimal {

  /** `int` refuses a text of more digits, and `str` an integer of more: Python's default limit. */
  const MAX_DIGITS: nat := 4300

  function Digit(d: nat): char
    requires d < 10
  {
    "0123456789"[d]
  }

  predicate IsDigit(c: char) {
    '0' <= c <= '9'
  }

  predicate AllDigits(s: string) {
    forall i :: 0 <= i < |s| ==> IsDigit(s[i])
  }

  function DigitValue(c: char): nat
    requires IsDigit(c)
  {
    c as int - '0' as int
  }

  function Print(n: nat): (s: string)
    ensures |s| >= 1 && AllDigits(s)
  {
    if n < 10 then [Digit(n)] else Print(n / 10) + [Digit(n % 10)]
  }

  /** The value of a digit string, most significant digit first. */
  function Parse(s: string): nat
    requires AllDigits(s)
  {
    if s == "" then 0 else 10 * Parse(s[..|s| - 1]) + DigitValue(s[|s| - 1])
  }

  lemma {:induction false} ParsePrint(n: nat)
    ensures Parse(Print(n)) == n
  {
    if n >= 10 {
      ParsePrint(n / 10);
      var s := Print(n);
      assert s[..|s| - 1] == Print(n / 10);
    } else {
      assert Print(n)[..0] == "";
    }
  }

  /** A digit string without leading zeros. */
  predicate IsNumeral(s: string) {
    s != "" && AllDigits(s) && (s == "0" || s[0] != '0')
  }

  /** A numeral without leading zeros is what its value prints as. */
  lemma {:induction false} PrintParse(s: string)
    requires IsNumeral(s)
    ensures Print(Parse(s)) == s
    ensures s != "0" ==> Parse(s) > 0
  {
    if |s| == 1 {
      OneDigit(s);
    } else {
      var first, last := s[..|s| - 1], s[|s| - 1];
      assert s == first + [last];
      InitialNumeral(first, last);
      PrintParse(first);
      DigitOfValue(last);
      PrintMore(Parse(first), DigitValue(last));
      ParseMore(first, last);
    }
  }

  lemma InitialNumeral(first: string, last: char)
    requires first != "" && IsNumeral(first + [last])
    ensures IsNumeral(first) && first != "0" && IsDigit(last)
  {
    var s := first + [last];
    assert s[0] == first[0] && s[|first|] == last;
    assert forall i :: 0 <= i < |first| ==> first[i] == s[i];
  }

  lemma ParseMore(first: string, last: char)
    requires AllDigits(first) && IsDigit(last)
    ensures AllDigits(first + [last]) && Parse(first + [last]) == 10 * Parse(first) + DigitValue(last)
  {
    assert (first + [last])[..|first|] == first;
  }

  lemma OneDigit(s: string)
    requires |s| == 1 && AllDigits(s)
    ensures Parse(s) == DigitValue(s[0]) && Print(Parse(s)) == s && (s != "0" ==> Parse(s) > 0)
  {
    assert s[..0] == "" && s == [s[0]];
    DigitOfValue(s[0]);
  }

  lemma DigitOfValue(c: char)
    requires IsDigit(c)
    ensures DigitValue(c) < 10 && Digit(DigitValue(c)) == c
  {
  }

  lemma PrintMore(a: nat, d: nat)
    requires a > 0 && d < 10
    ensures Print(10 * a + d) == Print(a) + [Digit(d)]
  {
  }

  lemma {:induction false} WidthAtMostValue(n: nat)
    requires n >= 1
    ensures |Print(n)| <= n
  {
    if n >= 10 {
      WidthAtMostValue(n / 10);
    }
  }

  /** A larger number is at least as wide, and no wider than the distance allows. */
  lemma {:induction false} WidthGrowsSlowly(a: nat, b: nat)
    requires a <= b
    ensures |Print(a)| <= |Print(b)| <= |Print(a)| + (b - a)
  {
    if b >= 10 {
      if a >= 10 {
        WidthGrowsSlowly(a / 10, b / 10);
      } else {
        WidthAtMostValue(b / 10);
      }
    }
  }
}
