/**
  White space and decimal digits of Unicode 15.1: what `\s` and `\d` match and what `int` reads.
  Digits come in blocks of ten in order, each from a zero on; the ASCII block is the first.
 */
module Unicode {
  import opened Wrappers
  import Decimal

  predicate IsSpace(c: char) {
    var v := c as int;
    9 <= v <= 13 || 28 <= v <= 32 || v == 0x85 || v == 0xA0 || v == 0x1680 || 0x2000 <= v <= 0x200A
    || v == 0x2028 || v == 0x2029 || v == 0x202F || v == 0x205F || v == 0x3000
  }

  /** Zeros up to U+1090. */
  const LOW_ZEROS: seq<int> := [
    0x0660, 0x06F0, 0x07C0, 0x0966, 0x09E6, 0x0A66, 0x0AE6, 0x0B66, 0x0BE6, 0x0C66,
    0x0CE6, 0x0D66, 0x0DE6, 0x0E50, 0x0ED0, 0x0F20, 0x1040, 0x1090]

  /** Zeros from U+17E0 to U+1C50. */
  const MIDDLE_ZEROS: seq<int> := [
    0x17E0, 0x1810, 0x1946, 0x19D0, 0x1A80, 0x1A90, 0x1B50, 0x1BB0, 0x1C40, 0x1C50]

  /** Zeros from U+A620 on. */
  const HIGH_ZEROS: seq<int> := [
    0xA620, 0xA8D0, 0xA900, 0xA9D0, 0xA9F0, 0xAA50, 0xABF0, 0xFF10, 0x104A0, 0x10D30,
    0x11066, 0x110F0, 0x11136, 0x111D0, 0x112F0, 0x11450, 0x114D0, 0x11650, 0x116C0, 0x11730,
    0x118E0, 0x11950, 0x11C50, 0x11D50, 0x11DA0, 0x11F50, 0x16A60, 0x16AC0, 0x16B50, 0x1D7CE,
    0x1D7D8, 0x1D7E2, 0x1D7EC, 0x1D7F6, 0x1E140, 0x1E2F0, 0x1E4F0, 0x1E950, 0x1FBF0]

  /** The digit that code point `v` is in one of the blocks from `zeros`. */
  function InBlocks(v: int, zeros: seq<int>): (r: Option<nat>)
    ensures r.Some? ==> r.value < 10 && v - r.value in zeros
  {
    if zeros == [] then None
    else if zeros[0] <= v < zeros[0] + 10 then Some(v - zeros[0])
    else InBlocks(v, zeros[1..])
  }

  function DigitOf(c: char): (r: Option<nat>)
    ensures r.Some? ==> r.value < 10
    ensures Decimal.IsDigit(c) ==> r == Some(Decimal.DigitValue(c))
    ensures r.Some? ==> Decimal.IsDigit(c) || c as int >= 0x660
    ensures r.Some? ==> !IsSpace(c)
  {
    if Decimal.IsDigit(c) then Some(Decimal.DigitValue(c)) else InBlocks(c as int, ZerosNear(c as int))
  }

  /** The zeros of the blocks that `v` may be in. */
  function ZerosNear(v: int): seq<int> {
    if 0x660 <= v < 0x10A0 then LOW_ZEROS
    else if 0x17E0 <= v < 0x1C60 then MIDDLE_ZEROS
    else if 0xA620 <= v then HIGH_ZEROS
    else []
  }

  predicate IsDigit(c: char) {
    DigitOf(c).Some?
  }

  predicate AllDigits(s: string) {
    forall i :: 0 <= i < |s| ==> IsDigit(s[i])
  }

  /** The value of a digit string, most significant digit first. */
  function Parse(s: string): nat
    requires AllDigits(s)
  {
    if s == "" then 0 else 10 * Parse(s[..|s| - 1]) + DigitOf(s[|s| - 1]).value
  }

  lemma {:induction false} ParseAscii(s: string)
    requires Decimal.AllDigits(s)
    ensures AllDigits(s) && Parse(s) == Decimal.Parse(s)
  {
    if s == "" {
    } else {
      ParseAscii(s[..|s| - 1]);
    }
  }

  // ---- the digits, said one by one ----

  /** The zeros of Unicode 15.1, category Nd. */
  predicate IsZero(v: int) {
    || v == 0x0030 || v == 0x0660 || v == 0x06F0 || v == 0x07C0 || v == 0x0966 || v == 0x09E6
    || v == 0x0A66 || v == 0x0AE6 || v == 0x0B66 || v == 0x0BE6 || v == 0x0C66 || v == 0x0CE6
    || v == 0x0D66 || v == 0x0DE6 || v == 0x0E50 || v == 0x0ED0 || v == 0x0F20 || v == 0x1040
    || v == 0x1090 || v == 0x17E0 || v == 0x1810 || v == 0x1946 || v == 0x19D0 || v == 0x1A80
    || v == 0x1A90 || v == 0x1B50 || v == 0x1BB0 || v == 0x1C40 || v == 0x1C50 || v == 0xA620
    || v == 0xA8D0 || v == 0xA900 || v == 0xA9D0 || v == 0xA9F0 || v == 0xAA50 || v == 0xABF0
    || v == 0xFF10 || v == 0x104A0 || v == 0x10D30 || v == 0x11066 || v == 0x110F0 || v == 0x11136
    || v == 0x111D0 || v == 0x112F0 || v == 0x11450 || v == 0x114D0 || v == 0x11650 || v == 0x116C0
    || v == 0x11730 || v == 0x118E0 || v == 0x11950 || v == 0x11C50 || v == 0x11D50 || v == 0x11DA0
    || v == 0x11F50 || v == 0x16A60 || v == 0x16AC0 || v == 0x16B50 || v == 0x1D7CE || v == 0x1D7D8
    || v == 0x1D7E2 || v == 0x1D7EC || v == 0x1D7F6 || v == 0x1E140 || v == 0x1E2F0 || v == 0x1E4F0
    || v == 0x1E950 || v == 0x1FBF0
  }

  lemma {:induction false} BlockIsFound(v: int, z: int, zeros: seq<int>)
    requires z in zeros && z <= v < z + 10
    ensures InBlocks(v, zeros).Some?
  {
    if zeros[0] != z {
      assert z in zeros[1..];
      BlockIsFound(v, z, zeros[1..]);
    }
  }

  lemma ZerosAre(z: int)
    ensures IsZero(z) <==> z == 0x30 || z in LOW_ZEROS || z in MIDDLE_ZEROS || z in HIGH_ZEROS
  {
  }

  lemma ZerosInOrder(z: int)
    ensures z in LOW_ZEROS ==> 0x660 <= z < 0x1091
    ensures z in MIDDLE_ZEROS ==> 0x17E0 <= z < 0x1C51
    ensures z in HIGH_ZEROS ==> 0xA620 <= z
  {
  }

  lemma DigitFromZero(c: char, z: int)
    requires IsZero(z) && z <= c as int < z + 10
    ensures DigitOf(c).Some?
  {
    ZerosAre(z);
    ZerosInOrder(z);
    if z != 0x30 {
      BlockIsFound(c as int, z, ZerosNear(c as int));
    }
  }

  lemma NearAreZeros(v: int, zeros: seq<int>)
    requires zeros == ZerosNear(v)
    ensures forall z :: z in zeros ==> IsZero(z)
  {
    forall z | z in zeros ensures IsZero(z) {
      ZerosAre(z);
    }
  }

  lemma ZeroOfBlock(v: int, d: nat, zeros: seq<int>)
    requires InBlocks(v, zeros) == Some(d) && forall z :: z in zeros ==> IsZero(z)
    ensures IsZero(v - d)
  {
  }

  lemma ZeroOfDigit(v: int, d: nat, zeros: seq<int>)
    requires zeros == ZerosNear(v) && InBlocks(v, zeros) == Some(d)
    ensures IsZero(v - d)
  {
    NearAreZeros(v, zeros);
    ZeroOfBlock(v, d, zeros);
  }

  lemma ZeroOfAscii(c: char)
    requires Decimal.IsDigit(c)
    ensures IsZero(c as int - Decimal.DigitValue(c))
  {
  }

  lemma DigitHasZero(c: char, d: nat)
    requires DigitOf(c) == Some(d)
    ensures IsZero(c as int - d)
  {
    if Decimal.IsDigit(c) {
      ZeroOfAscii(c);
    } else {
      ZeroOfDigit(c as int, d, ZerosNear(c as int));
    }
  }

  /** A digit is one of the ten characters from a zero on, its value how far it is from it; nothing else is a digit. */
  lemma DigitIff(c: char)
    ensures match DigitOf(c)
            case Some(d) => d < 10 && IsZero(c as int - d)
            case None => forall z :: IsZero(z) ==> !(z <= c as int < z + 10)
  {
    match DigitOf(c)
    case Some(d) => DigitHasZero(c, d);
    case None => NoDigitNoZero(c);
  }

  lemma NoDigitNoZero(c: char)
    requires DigitOf(c).None?
    ensures forall z :: IsZero(z) ==> !(z <= c as int < z + 10)
  {
    forall z | IsZero(z) ensures !(z <= c as int < z + 10) {
      if z <= c as int < z + 10 {
        DigitFromZero(c, z);
      }
    }
  }
}
