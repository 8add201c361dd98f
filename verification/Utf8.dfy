/**
  UTF-8 (section 3 of RFC 3629) over Unicode scalar values, with the decoder that drops what
  it cannot read. Dafny's `char` is exactly a scalar value, so `string` plays Python's `str`.

  `DecodeIgnore` gives up one byte of an ill-formed sequence at a time. Every further byte of
  such a sequence is a continuation byte, which no sequence starts with, so giving up the
  whole ill-formed sequence at once leaves the same text.
 */
module Utf8 {
  import opened Wrappers

  type byte = b: int | 0 <= b < 256

  /** Bytes that `c` takes. */
  function Width(c: char): (w: nat)
    ensures 1 <= w <= 4
  {
    var v := c as int;
    if v < 0x80 then 1 else if v < 0x800 then 2 else if v < 0x10000 then 3 else 4
  }

  predicate IsContinuation(b: byte) {
    0x80 <= b < 0xC0
  }

  predicate IsScalar(v: int) {
    0 <= v < 0xD800 || 0xE000 <= v < 0x110000
  }

  /** The number whose base-64 digits are a lead byte's payload and up to three continuation bytes. */
  function Join(lead: int, cs: seq<byte>): int
    requires |cs| <= 3
  {
    var digits: seq<int> := cs;
    if |cs| == 0 then lead
    else if |cs| == 1 then lead * 64 + (digits[0] - 0x80)
    else if |cs| == 2 then lead * 4096 + (digits[0] - 0x80) * 64 + (digits[1] - 0x80)
    else lead * 262144 + (digits[0] - 0x80) * 4096 + (digits[1] - 0x80) * 64 + (digits[2] - 0x80)
  }

  function EncodeChar(c: char): (bs: seq<byte>)
    ensures |bs| == Width(c)
  {
    var v := c as int;
    if v < 0x80 then
      [v]
    else if v < 0x800 then
      [0xC0 + v / 64, 0x80 + v % 64]
    else if v < 0x10000 then
      [0xE0 + v / 4096, 0x80 + v / 64 % 64, 0x80 + v % 64]
    else
      [0xF0 + v / 262144, 0x80 + v / 4096 % 64, 0x80 + v / 64 % 64, 0x80 + v % 64]
  }

  function Encode(s: string): seq<byte> {
    if s == "" then [] else EncodeChar(s[0]) + Encode(s[1..])
  }

  /** Length in bytes, counted character by character. */
  function Utf8Len(s: string): nat {
    if s == "" then 0 else Width(s[0]) + Utf8Len(s[1..])
  }

  /** The character that `bs` starts with and its width, if `bs` starts with a well-formed sequence. */
  function DecodeFirst(bs: seq<byte>): (r: Option<(char, nat)>)
    requires bs != []
    ensures r.Some? ==> 1 <= r.value.1 <= |bs|
  {
    var b0: int := bs[0];
    if b0 < 0x80 then
      Some((b0 as char, 1))
    else if 0xC2 <= b0 < 0xE0 && |bs| >= 2 && IsContinuation(bs[1]) then
      Some((Join(b0 - 0xC0, bs[1..2]) as char, 2))
    else if 0xE0 <= b0 < 0xF0 && |bs| >= 3 && IsContinuation(bs[1]) && IsContinuation(bs[2]) then
      var v := Join(b0 - 0xE0, bs[1..3]);
      if v >= 0x800 && IsScalar(v) then Some((v as char, 3)) else None
    else if 0xF0 <= b0 < 0xF5 && |bs| >= 4
            && IsContinuation(bs[1]) && IsContinuation(bs[2]) && IsContinuation(bs[3]) then
      var v := Join(b0 - 0xF0, bs[1..4]);
      if v >= 0x10000 && IsScalar(v) then Some((v as char, 4)) else None
    else
      None
  }

  /** `bs.decode("utf-8", errors="ignore")` */
  function DecodeIgnore(bs: seq<byte>): string {
    if bs == [] then ""
    else match DecodeFirst(bs)
      case Some((c, n)) => [c] + DecodeIgnore(bs[n..])
      case None => DecodeIgnore(bs[1..])
  }

  lemma {:induction false} EncodeLength(s: string)
    ensures |Encode(s)| == Utf8Len(s)
  {
    if s == "" {
    } else {
      EncodeLength(s[1..]);
    }
  }

  lemma {:induction false} Utf8LenConcat(a: string, b: string)
    ensures Utf8Len(a + b) == Utf8Len(a) + Utf8Len(b)
  {
    if a == "" {
      assert a + b == b;
    } else {
      assert (a + b)[1..] == a[1..] + b;
      Utf8LenConcat(a[1..], b);
    }
  }

  lemma JoinSplit(v: nat)
    ensures v / 64 * 64 + v % 64 == v
    ensures v / 4096 * 4096 + v / 64 % 64 * 64 + v % 64 == v
    ensures v / 262144 * 262144 + v / 4096 % 64 * 4096 + v / 64 % 64 * 64 + v % 64 == v
  {
    var a := v / 64;
    var b := a / 64;
    assert b == v / 4096 && b / 64 == v / 262144;
  }

  /** A whole character decodes to itself, whatever follows it. */
  lemma DecodeFirstOfEncoded(c: char, rest: seq<byte>)
    ensures DecodeFirst(EncodeChar(c) + rest) == Some((c, Width(c)))
  {
    var v := c as int;
    var bs := EncodeChar(c) + rest;
    JoinSplit(v);
    if 0x80 <= v < 0x800 {
      assert bs[1..2] == [0x80 + v % 64];
    } else if 0x800 <= v < 0x10000 {
      assert bs[1..3] == [0x80 + v / 64 % 64, 0x80 + v % 64];
    } else if v >= 0x10000 {
      assert bs[1..4] == [0x80 + v / 4096 % 64, 0x80 + v / 64 % 64, 0x80 + v % 64];
    }
  }

  lemma SplitJoin(a: int, x: int, y: int, z: int)
    requires 0 <= a && 0 <= x < 64 && 0 <= y < 64 && 0 <= z < 64
    ensures (a * 64 + x) / 64 == a && (a * 64 + x) % 64 == x
    ensures var v := a * 4096 + x * 64 + y; v / 4096 == a && v / 64 % 64 == x && v % 64 == y
    ensures var v := a * 262144 + x * 4096 + y * 64 + z;
            v / 262144 == a && v / 4096 % 64 == x && v / 64 % 64 == y && v % 64 == z
  {
    var two, three := a * 64 + x, a * 4096 + x * 64 + y;
    assert two / 64 == a && three / 64 == two && (three * 64 + z) / 64 == three;
    assert three / 4096 == three / 64 / 64;
    assert (three * 64 + z) / 4096 == three / 64 && (three * 64 + z) / 262144 == three / 64 / 64;
  }

  lemma DecodedParts(bs: seq<byte>)
    requires bs != [] && DecodeFirst(bs).Some?
    ensures bs[..DecodeFirst(bs).value.1] == EncodeChar(DecodeFirst(bs).value.0)
  {
    var b0: int := bs[0];
    if b0 < 0x80 {
    } else if b0 < 0xE0 {
      SplitJoin(b0 - 0xC0, bs[1] - 0x80, 0, 0);
    } else if b0 < 0xF0 {
      SplitJoin(b0 - 0xE0, bs[1] - 0x80, bs[2] - 0x80, 0);
    } else {
      SplitJoin(b0 - 0xF0, bs[1] - 0x80, bs[2] - 0x80, bs[3] - 0x80);
    }
  }

  /** The decoder takes exactly the encoded characters, and every one. */
  lemma DecodeFirstIff(bs: seq<byte>, c: char, n: nat)
    requires bs != []
    ensures DecodeFirst(bs) == Some((c, n)) <==> EncodeChar(c) <= bs && n == Width(c)
  {
    if DecodeFirst(bs) == Some((c, n)) {
      DecodedParts(bs);
    }
    if EncodeChar(c) <= bs {
      DecodeFirstOfEncoded(c, bs[Width(c)..]);
      assert bs == EncodeChar(c) + bs[Width(c)..];
    }
  }

  /** Continuation bytes in front of a text are dropped and nothing else is. */
  lemma {:induction false} SkipContinuations(cs: seq<byte>, rest: seq<byte>)
    requires forall i :: 0 <= i < |cs| ==> IsContinuation(cs[i])
    ensures DecodeIgnore(cs + rest) == DecodeIgnore(rest)
  {
    if cs == [] {
      assert cs + rest == rest;
    } else {
      assert (cs + rest)[0] == cs[0];
      assert (cs + rest)[1..] == cs[1..] + rest;
      SkipContinuations(cs[1..], rest);
    }
  }

  /** Part of a character decodes to nothing: UTF-8 is self-synchronising. */
  lemma PartialChar(c: char, k: nat)
    requires k < Width(c)
    ensures DecodeIgnore(EncodeChar(c)[..k]) == ""
    ensures k > 0 ==> forall i :: 0 <= i < Width(c) - k ==> IsContinuation(EncodeChar(c)[k..][i])
  {
    var bs := EncodeChar(c)[..k];
    if k > 0 {
      assert bs[0] >= 0xC2;
      assert DecodeFirst(bs) == None;
      SkipContinuations(bs[1..], []);
      assert bs[1..] + [] == bs[1..];
    }
  }

  lemma {:induction false} DecodeEncode(s: string)
    ensures DecodeIgnore(Encode(s)) == s
  {
    if s == "" {
    } else {
      DecodeFirstOfEncoded(s[0], Encode(s[1..]));
      assert Encode(s)[Width(s[0])..] == Encode(s[1..]);
      DecodeEncode(s[1..]);
    }
  }

  /** The longest whole-character prefix of `s` within `n` bytes; `FitPrefixIsLongest` says why. */
  function FitPrefix(s: string, n: nat): string {
    if s == "" || Width(s[0]) > n then "" else [s[0]] + FitPrefix(s[1..], n - Width(s[0]))
  }

  /** The longest whole-character suffix of `s` within `n` bytes; `FitSuffixIsLongest` says why. */
  function FitSuffix(s: string, n: nat): string {
    if Utf8Len(s) <= n then s else FitSuffix(s[1..], n)
  }

  lemma {:induction false} FitPrefixIsLongest(s: string, n: nat)
    ensures FitPrefix(s, n) <= s && Utf8Len(FitPrefix(s, n)) <= n
    ensures forall k :: 0 <= k <= |s| && Utf8Len(s[..k]) <= n ==> k <= |FitPrefix(s, n)|
  {
    if s == "" {
    } else {
      if Width(s[0]) <= n {
        FitPrefixIsLongest(s[1..], n - Width(s[0]));
      }
      forall k | 0 <= k <= |s| && Utf8Len(s[..k]) <= n
        ensures k <= |FitPrefix(s, n)|
      {
        if k > 0 {
          assert s[..k][1..] == s[1..][..k - 1];
        }
      }
    }
  }

  lemma {:induction false} FitSuffixIsLongest(s: string, n: nat)
    ensures |FitSuffix(s, n)| <= |s| && FitSuffix(s, n) == s[|s| - |FitSuffix(s, n)|..]
    ensures Utf8Len(FitSuffix(s, n)) <= n
    ensures forall k :: 0 <= k <= |s| && Utf8Len(s[k..]) <= n ==> |s| - k <= |FitSuffix(s, n)|
  {
    if Utf8Len(s) > n {
      FitSuffixIsLongest(s[1..], n);
      forall k | 0 <= k <= |s| && Utf8Len(s[k..]) <= n
        ensures |s| - k <= |FitSuffix(s, n)|
      {
        assert k > 0 by {
          assert s[0..] == s;
        }
        assert s[k..] == s[1..][k - 1..];
      }
    }
  }

  /** Cutting the bytes anywhere and decoding keeps the longest whole-character prefix. */
  lemma {:induction false} DecodeHead(s: string, n: nat)
    requires n <= |Encode(s)|
    ensures DecodeIgnore(Encode(s)[..n]) == FitPrefix(s, n)
  {
    if s == "" {
    } else {
      var w := Width(s[0]);
      if w <= n {
        DecodeHead(s[1..], n - w);
        assert Encode(s)[..n] == EncodeChar(s[0]) + Encode(s[1..])[..n - w];
        DecodeFirstOfEncoded(s[0], Encode(s[1..])[..n - w]);
        assert Encode(s)[..n][w..] == Encode(s[1..])[..n - w];
      } else {
        assert Encode(s)[..n] == EncodeChar(s[0])[..n];
        PartialChar(s[0], n);
      }
    }
  }

  /** The two shapes that the bytes from `k` on can have, for a cut after the start. */
  lemma CutTail(s: string, k: nat)
    requires s != "" && k <= |Encode(s)|
    ensures Width(s[0]) <= k ==> Encode(s)[k..] == Encode(s[1..])[k - Width(s[0])..]
    ensures k < Width(s[0]) ==> Encode(s)[k..] == EncodeChar(s[0])[k..] + Encode(s[1..])
  {
    JoinTail(EncodeChar(s[0]), Encode(s[1..]), k);
  }

  lemma JoinTail(first: seq<byte>, rest: seq<byte>, k: nat)
    requires k <= |first| + |rest|
    ensures |first| <= k ==> (first + rest)[k..] == rest[k - |first|..]
    ensures k < |first| ==> (first + rest)[k..] == first[k..] + rest
  {
  }

  /** A cut inside the first character loses that character and no other. */
  lemma CutInsideFirst(s: string, k: nat)
    requires s != "" && 0 < k < Width(s[0])
    ensures DecodeIgnore(EncodeChar(s[0])[k..] + Encode(s[1..])) == s[1..]
  {
    PartialChar(s[0], k);
    SkipContinuations(EncodeChar(s[0])[k..], Encode(s[1..]));
    DecodeEncode(s[1..]);
  }

  /** The text that the bytes from `k` on decode to. */
  function TailText(s: string, k: nat): string
    requires k <= |Encode(s)|
  {
    DecodeIgnore(Encode(s)[k..])
  }

  lemma TailOfAll(s: string)
    ensures TailText(s, 0) == s
  {
    assert Encode(s)[0..] == Encode(s);
    DecodeEncode(s);
  }

  lemma TailPastFirst(s: string, k: nat)
    requires s != "" && Width(s[0]) <= k <= |Encode(s)|
    ensures TailText(s, k) == TailText(s[1..], k - Width(s[0]))
  {
    CutTail(s, k);
  }

  lemma TailInFirst(s: string, k: nat)
    requires s != "" && 0 < k < Width(s[0])
    ensures TailText(s, k) == s[1..]
  {
    CutTail(s, k);
    CutInsideFirst(s, k);
  }

  lemma {:induction false} TailFits(s: string, k: nat)
    requires k <= Utf8Len(s) == |Encode(s)|
    ensures TailText(s, k) == FitSuffix(s, Utf8Len(s) - k)
  {
    if k == 0 {
      TailOfAll(s);
    } else {
      EncodeLength(s[1..]);
      SuffixStep(s, Utf8Len(s) - k);
      if Width(s[0]) <= k {
        TailPastFirst(s, k);
        TailFits(s[1..], k - Width(s[0]));
      } else {
        TailInFirst(s, k);
      }
    }
  }

  /** Cutting the bytes anywhere and decoding keeps the longest whole-character suffix. */
  lemma DecodeTail(s: string, n: nat)
    requires n <= Utf8Len(s) == |Encode(s)|
    ensures DecodeIgnore(Encode(s)[Utf8Len(s) - n..]) == FitSuffix(s, n)
  {
    TailFits(s, Utf8Len(s) - n);
  }

  lemma SuffixStep(s: string, n: nat)
    requires s != "" && n < Utf8Len(s)
    ensures FitSuffix(s, n) == FitSuffix(s[1..], n)
    ensures Utf8Len(s[1..]) <= n ==> FitSuffix(s, n) == s[1..]
  {
  }

  predicate Ascii(s: string) {
    forall i :: 0 <= i < |s| ==> s[i] as int < 0x80
  }

  /** ASCII text is its own bytes: one byte a character, and a byte cut is a character cut. */
  lemma {:induction false} AsciiBytes(s: string, n: nat)
    requires Ascii(s)
    ensures Utf8Len(s) == |s|
    ensures FitPrefix(s, n) == s[..if n <= |s| then n else |s|]
  {
    if s == "" {
    } else {
      AsciiBytes(s[1..], if n > 0 then n - 1 else 0);
    }
  }
}
