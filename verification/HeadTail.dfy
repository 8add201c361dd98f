/** Shrinking one text to a byte budget, keeping its head and its tail (`_truncate_head_tail`). */
module HeadTail {
  import Decimal
  import opened Utf8
  import Json

  function Marker(omitted: nat): string {
    " ...[truncated " + Decimal.Print(omitted) + " bytes]... "
  }

  const MARKER_TEXT: nat := 26

  /** `raw[:n].decode("utf-8", errors="ignore")`; a negative `n` counts from the end. */
  function DecodeUpTo(raw: seq<byte>, n: int): string {
    var stop := if n < 0 then |raw| + n else n;
    DecodeIgnore(raw[..if stop < 0 then 0 else if stop > |raw| then |raw| else stop])
  }

  /** `raw[-n:].decode("utf-8", errors="ignore")` for a positive `n`. */
  function DecodeLast(raw: seq<byte>, n: nat): string
    requires n > 0
  {
    DecodeIgnore(raw[if n > |raw| then 0 else |raw| - n..])
  }

  /** Room left for text once the widest marker that `raw` could need is set aside. */
  function Budget(length: nat, maxBytes: int): int {
    maxBytes - |Encode(Marker(length))|
  }

  lemma PlainConcat(a: string, b: string)
    requires Plain(a) && Plain(b)
    ensures Plain(a + b)
  {
  }

  lemma PlainParts(before: string, digits: string, after: string)
    requires before == " ...[truncated " && after == " bytes]... " && Decimal.AllDigits(digits)
    ensures Plain(before + digits + after) && |before + digits + after| == MARKER_TEXT + |digits|
  {
    assert Plain(before) && Plain(digits) && Plain(after);
    PlainConcat(before, digits);
    PlainConcat(before + digits, after);
  }

  lemma MarkerLength(n: nat)
    ensures Ascii(Marker(n)) && Plain(Marker(n))
    ensures |Marker(n)| == MARKER_TEXT + |Decimal.Print(n)|
    ensures Utf8Len(Marker(n)) == |Encode(Marker(n))| == |Marker(n)|
  {
    PlainParts(" ...[truncated ", Decimal.Print(n), " bytes]... ");
    AsciiBytes(Marker(n), 0);
    EncodeLength(Marker(n));
  }

  /** The marker gives the number that it was made for. */
  lemma MarkerReports(n: nat)
    ensures exists digits: string ::
      Marker(n) == " ...[truncated " + digits + " bytes]... " && Decimal.AllDigits(digits) && Decimal.Parse(digits) == n
  {
    Decimal.ParsePrint(n);
    assert Marker(n) == " ...[truncated " + Decimal.Print(n) + " bytes]... ";
  }

  /** The text between the longest head and the longest tail that fit their budgets. */
  function Middle(text: string, headN: nat, tailN: nat): string {
    var h, t := |FitPrefix(text, headN)|, |FitSuffix(text, tailN)|;
    if h <= |text| - t then text[h..|text| - t] else ""
  }

  /** Head, middle and tail are consecutive: nothing overlaps and every byte is accounted for. */
  lemma SplitsText(text: string, headN: nat, tailN: nat)
    requires headN + tailN < Utf8Len(text)
    ensures text == FitPrefix(text, headN) + Middle(text, headN, tailN) + FitSuffix(text, tailN)
    ensures Utf8Len(text)
         == Utf8Len(FitPrefix(text, headN)) + Utf8Len(Middle(text, headN, tailN)) + Utf8Len(FitSuffix(text, tailN))
  {
    var head, mid, tail := FitPrefix(text, headN), Middle(text, headN, tailN), FitSuffix(text, tailN);
    FitPrefixIsLongest(text, headN);
    FitSuffixIsLongest(text, tailN);
    var k := |text| - |tail|;
    assert text == text[..k] + tail;
    Utf8LenConcat(text[..k], tail);
    if |head| > k {
      assert head == text[..k] + head[k..];
      Utf8LenConcat(text[..k], head[k..]);
      assert false;
    }
    assert text[..k] == head + mid;
    Utf8LenConcat(head, mid);
  }

  /** Decoding a byte cut of the encoded text is the same as cutting the text. */
  lemma ByteCuts(text: string, n: nat)
    requires n <= Utf8Len(text)
    ensures DecodeUpTo(Encode(text), n) == FitPrefix(text, n)
    ensures n > 0 ==> DecodeLast(Encode(text), n) == FitSuffix(text, n)
  {
    EncodeLength(text);
    DecodeHead(text, n);
    DecodeTail(text, n);
  }

  lemma OmittedIsMiddle(text: string, headN: nat, tailN: nat)
    requires headN + tailN < Utf8Len(text) && tailN > 0
    ensures |Encode(text)| - |Encode(DecodeUpTo(Encode(text), headN))| - |Encode(DecodeLast(Encode(text), tailN))|
         == Utf8Len(Middle(text, headN, tailN))
  {
    ByteCuts(text, headN);
    ByteCuts(text, tailN);
    EncodeLength(text);
    EncodeLength(FitPrefix(text, headN));
    EncodeLength(FitSuffix(text, tailN));
    SplitsText(text, headN, tailN);
  }

  /** Head and tail of the encoded text, joined by a marker that reports what they leave out. */
  function KeepEnds(text: string, headN: nat, tailN: nat): string
    requires headN + tailN < Utf8Len(text) && tailN > 0
  {
    var raw := Encode(text);
    var head := DecodeUpTo(raw, headN);
    var tail := DecodeLast(raw, tailN);
    var omitted := |raw| - |Encode(head)| - |Encode(tail)|;
    assert omitted >= 0 by {
      OmittedIsMiddle(text, headN, tailN);
    }
    head + Marker(omitted) + tail
  }

  lemma KeepEndsForm(text: string, headN: nat, tailN: nat)
    requires headN + tailN < Utf8Len(text) && tailN > 0
    ensures KeepEnds(text, headN, tailN)
         == FitPrefix(text, headN) + Marker(Utf8Len(Middle(text, headN, tailN))) + FitSuffix(text, tailN)
  {
    OmittedIsMiddle(text, headN, tailN);
    ByteCuts(text, headN);
    ByteCuts(text, tailN);
  }

  /** The cut when `budget` bytes are left for text beside the marker. */
  function WithBudget(text: string, maxBytes: int, budget: int): string
    requires budget < Utf8Len(text)
  {
    if budget < 2 then
      DecodeUpTo(Encode(text), maxBytes)
    else
      var headN := budget / 2;
      KeepEnds(text, headN, budget - headN)
  }

  function TruncateHeadTail(text: string, maxBytes: int): string {
    var raw := Encode(text);
    if |raw| <= maxBytes then text
    else
      assert |raw| == Utf8Len(text) by {
        EncodeLength(text);
      }
      WithBudget(text, maxBytes, Budget(|raw|, maxBytes))
  }

  // ---- what the cut keeps ----

  ghost predicate LongestHead(text: string, head: string, n: int) {
    && head <= text
    && Utf8Len(head) <= n
    && forall k :: 0 <= k <= |text| && Utf8Len(text[..k]) <= n ==> k <= |head|
  }

  ghost predicate LongestTail(text: string, tail: string, n: int) {
    && |tail| <= |text|
    && tail == text[|text| - |tail|..]
    && Utf8Len(tail) <= n
    && forall k :: 0 <= k <= |text| && Utf8Len(text[k..]) <= n ==> |text| - k <= |tail|
  }

  lemma KeepEndsParts(text: string, headN: nat, tailN: nat) returns (head: string, mid: string, tail: string)
    requires headN + tailN < Utf8Len(text) && tailN > 0
    ensures KeepEnds(text, headN, tailN) == head + Marker(Utf8Len(mid)) + tail
    ensures text == head + mid + tail
    ensures Utf8Len(text) == Utf8Len(head) + Utf8Len(mid) + Utf8Len(tail)
    ensures LongestHead(text, head, headN) && LongestTail(text, tail, tailN)
  {
    head, mid, tail := FitPrefix(text, headN), Middle(text, headN, tailN), FitSuffix(text, tailN);
    KeepEndsForm(text, headN, tailN);
    SplitsText(text, headN, tailN);
    FitPrefixIsLongest(text, headN);
    FitSuffixIsLongest(text, tailN);
  }

  lemma WithBudgetParts(text: string, maxBytes: int, budget: int) returns (head: string, mid: string, tail: string)
    requires 2 <= budget < Utf8Len(text)
    ensures WithBudget(text, maxBytes, budget) == head + Marker(Utf8Len(mid)) + tail
    ensures text == head + mid + tail
    ensures Utf8Len(text) == Utf8Len(head) + Utf8Len(mid) + Utf8Len(tail)
    ensures LongestHead(text, head, budget / 2) && LongestTail(text, tail, (budget + 1) / 2)
  {
    assert budget - budget / 2 == (budget + 1) / 2;
    head, mid, tail := KeepEndsParts(text, budget / 2, (budget + 1) / 2);
  }

  /** The head, middle and tail that such a result is made of. */
  lemma CutWithMarker(text: string, maxBytes: int) returns (head: string, mid: string, tail: string)
    requires maxBytes < Utf8Len(text) && Budget(Utf8Len(text), maxBytes) >= 2
    ensures TruncateHeadTail(text, maxBytes) == head + Marker(Utf8Len(mid)) + tail
    ensures text == head + mid + tail
    ensures Utf8Len(text) == Utf8Len(head) + Utf8Len(mid) + Utf8Len(tail)
    ensures LongestHead(text, head, Budget(Utf8Len(text), maxBytes) / 2)
    ensures LongestTail(text, tail, (Budget(Utf8Len(text), maxBytes) + 1) / 2)
  {
    EncodeLength(text);
    head, mid, tail := WithBudgetParts(text, maxBytes, Budget(Utf8Len(text), maxBytes));
  }

  /** With no room for a marker the result is the longest head that fits; a negative budget counts from the end. */
  lemma CutWithoutMarker(text: string, maxBytes: int)
    requires maxBytes < Utf8Len(text) && Budget(Utf8Len(text), maxBytes) < 2
    ensures maxBytes >= 0 ==> LongestHead(text, TruncateHeadTail(text, maxBytes), maxBytes)
    ensures maxBytes < 0 < Utf8Len(text) + maxBytes ==>
              LongestHead(text, TruncateHeadTail(text, maxBytes), Utf8Len(text) + maxBytes)
    ensures Utf8Len(text) + maxBytes <= 0 && maxBytes < 0 ==> TruncateHeadTail(text, maxBytes) == ""
  {
    EncodeLength(text);
    var stop: int := if maxBytes < 0 then Utf8Len(text) + maxBytes else maxBytes;
    var n: nat := if stop < 0 then 0 else stop;
    ByteCuts(text, n);
    FitPrefixIsLongest(text, n);
    NothingFits(text);
  }

  lemma NothingFits(text: string)
    ensures FitPrefix(text, 0) == ""
  {
    FitPrefixIsLongest(text, 0);
    if FitPrefix(text, 0) != "" {
      EncodeLength(FitPrefix(text, 0));
    }
  }

  lemma Uncut(text: string, maxBytes: int)
    requires Utf8Len(text) <= maxBytes
    ensures TruncateHeadTail(text, maxBytes) == text
  {
    EncodeLength(text);
  }

  /** The result fits every budget that anything fits. */
  lemma FitsBudget(text: string, maxBytes: int)
    ensures Utf8Len(TruncateHeadTail(text, maxBytes)) <= maxBytes <==> 0 <= maxBytes
  {
    EncodeLength(text);
    if Utf8Len(text) <= maxBytes {
    } else if maxBytes >= 0 && Budget(Utf8Len(text), maxBytes) < 2 {
      CutWithoutMarker(text, maxBytes);
    } else if maxBytes >= 0 {
      var head, mid, tail := CutWithMarker(text, maxBytes);
      Utf8LenConcat(head + Marker(Utf8Len(mid)), tail);
      Utf8LenConcat(head, Marker(Utf8Len(mid)));
      MarkerLength(Utf8Len(mid));
      MarkerLength(Utf8Len(text));
      Decimal.WidthGrowsSlowly(Utf8Len(mid), Utf8Len(text));
    }
  }

  // ---- the size of the result in JSON ----

  function JsonLen(s: string): nat {
    |Json.Escape(s)|
  }

  lemma JsonLenConcat(a: string, b: string)
    ensures JsonLen(a + b) == JsonLen(a) + JsonLen(b)
  {
    Json.EscapeConcat(a, b);
  }

  /** Text that JSON prints as it is. */
  predicate Plain(s: string) {
    forall i :: 0 <= i < |s| ==> ' ' <= s[i] <= '~' && s[i] != '\"' && s[i] != '\\'
  }

  lemma {:induction false} PlainEscape(s: string)
    requires Plain(s)
    ensures JsonLen(s) == |s|
  {
    if s == "" {
    } else {
      PlainEscape(s[1..]);
    }
  }

  lemma MarkerJsonLen(n: nat)
    ensures JsonLen(Marker(n)) == MARKER_TEXT + |Decimal.Print(n)|
  {
    MarkerLength(n);
    PlainEscape(Marker(n));
  }

  lemma CutJsonLen(head: string, n: nat, tail: string)
    ensures JsonLen(head + Marker(n) + tail)
         == JsonLen(head) + MARKER_TEXT + |Decimal.Print(n)| + JsonLen(tail)
  {
    JsonLenConcat(head + Marker(n), tail);
    JsonLenConcat(head, Marker(n));
    MarkerJsonLen(n);
  }

  /** A longer head grows the JSON text by at least the bytes that it no longer omits. */
  lemma LongerHead(text: string, a: string, b: string)
    requires a <= text && b <= text && |a| <= |b|
    ensures 0 <= Utf8Len(b) - Utf8Len(a) <= JsonLen(b) - JsonLen(a)
  {
    var x := b[|a|..];
    assert b == a + x;
    Utf8LenConcat(a, x);
    JsonLenConcat(a, x);
    Json.EscapeNoShorter(x);
  }

  lemma LongerTail(text: string, a: string, b: string)
    requires |a| <= |b| <= |text| && a == text[|text| - |a|..] && b == text[|text| - |b|..]
    ensures 0 <= Utf8Len(b) - Utf8Len(a) <= JsonLen(b) - JsonLen(a)
  {
    var y := b[..|b| - |a|];
    assert b == y + a;
    Utf8LenConcat(y, a);
    JsonLenConcat(y, a);
    Json.EscapeNoShorter(y);
  }

  /** Longer ends around a marker that counts the rest make the longer JSON text. */
  lemma LongerEnds(h1: string, n1: nat, t1: string, h2: string, n2: nat, t2: string)
    requires Utf8Len(h1) + n1 + Utf8Len(t1) == Utf8Len(h2) + n2 + Utf8Len(t2)
    requires 0 <= Utf8Len(h2) - Utf8Len(h1) <= JsonLen(h2) - JsonLen(h1)
    requires 0 <= Utf8Len(t2) - Utf8Len(t1) <= JsonLen(t2) - JsonLen(t1)
    ensures JsonLen(h1 + Marker(n1) + t1) <= JsonLen(h2 + Marker(n2) + t2)
  {
    CutJsonLen(h1, n1, t1);
    CutJsonLen(h2, n2, t2);
    Decimal.WidthGrowsSlowly(n2, n1);
  }

  /** Two cuts with markers: the larger budget gives the longer JSON text. */
  lemma BothCutMonotone(text: string, a: int, b: int)
    requires a <= b < Utf8Len(text) && Budget(Utf8Len(text), a) >= 2
    ensures JsonLen(TruncateHeadTail(text, a)) <= JsonLen(TruncateHeadTail(text, b))
  {
    var h1, m1, t1 := CutWithMarker(text, a);
    var h2, m2, t2 := CutWithMarker(text, b);
    LongestHeadGrows(text, h1, Budget(Utf8Len(text), a) / 2, h2, Budget(Utf8Len(text), b) / 2);
    LongestTailGrows(text, t1, (Budget(Utf8Len(text), a) + 1) / 2, t2, (Budget(Utf8Len(text), b) + 1) / 2);
    LongerEnds(h1, Utf8Len(m1), t1, h2, Utf8Len(m2), t2);
  }

  lemma LongestHeadGrows(text: string, a: string, m: int, b: string, n: int)
    requires m <= n && LongestHead(text, a, m) && LongestHead(text, b, n)
    ensures 0 <= Utf8Len(b) - Utf8Len(a) <= JsonLen(b) - JsonLen(a)
  {
    assert text[..|a|] == a;
    LongerHead(text, a, b);
  }

  lemma LongestTailGrows(text: string, a: string, m: int, b: string, n: int)
    requires m <= n && LongestTail(text, a, m) && LongestTail(text, b, n)
    ensures 0 <= Utf8Len(b) - Utf8Len(a) <= JsonLen(b) - JsonLen(a)
  {
    LongerTail(text, a, b);
  }

  /** The uncut text is at least as long in JSON as any cut of it with a marker. */
  lemma CutNoLonger(text: string, a: int)
    requires a < Utf8Len(text) && Budget(Utf8Len(text), a) >= 2
    ensures JsonLen(TruncateHeadTail(text, a)) <= JsonLen(text)
  {
    var head, mid, tail := CutWithMarker(text, a);
    CutJsonLen(head, Utf8Len(mid), tail);
    JsonLenConcat(head + mid, tail);
    JsonLenConcat(head, mid);
    Json.EscapeNoShorter(mid);
    MarkerLength(Utf8Len(text));
    Decimal.WidthGrowsSlowly(Utf8Len(mid), Utf8Len(text));
  }

  const FLOOR: nat := 64

  /** Texts whose byte count has at most 36 digits leave room for a marker at the floor. */
  predicate ShortEnough(length: nat) {
    |Decimal.Print(length)| <= 36
  }

  /** From the floor up, a larger allowance never gives a shorter JSON text. */
  lemma LeafMonotone(text: string, a: int, b: int)
    requires FLOOR <= a <= b && ShortEnough(Utf8Len(text))
    ensures JsonLen(TruncateHeadTail(text, a)) <= JsonLen(TruncateHeadTail(text, b))
  {
    MarkerLength(Utf8Len(text));
    if Utf8Len(text) <= a {
      Uncut(text, a);
      Uncut(text, b);
    } else if Utf8Len(text) <= b {
      Uncut(text, b);
      CutNoLonger(text, a);
    } else {
      BothCutMonotone(text, a, b);
    }
  }

  // ---- the bound on the length is exact ----

  ghost predicate MonotoneFromFloor(text: string) {
    forall a: int, b: int :: FLOOR <= a <= b ==>
      JsonLen(TruncateHeadTail(text, a)) <= JsonLen(TruncateHeadTail(text, b))
  }

  function Newlines(n: nat): (s: string)
    ensures |s| == n
  {
    seq(n, i => '\n')
  }

  lemma {:induction false} NewlinesCount(n: nat)
    ensures Utf8Len(Newlines(n)) == n && JsonLen(Newlines(n)) == 2 * n
  {
    if n == 0 {
      assert Newlines(n) == "";
    } else {
      NewlinesCount(n - 1);
      assert Newlines(n)[1..] == Newlines(n - 1);
    }
  }

  lemma NewlinesLengths(n: nat, k: nat)
    requires k <= n
    ensures Utf8Len(Newlines(n)) == n && JsonLen(Newlines(n)) == 2 * n
    ensures Newlines(n)[..k] == Newlines(k) && Newlines(n)[n - k..] == Newlines(k)
  {
    NewlinesCount(n);
  }

  lemma ShortNumeral(n: nat)
    requires n < 1000
    ensures |Decimal.Print(n)| <= 3
  {
    assert |Decimal.Print(n / 10)| <= 2;
  }

  lemma LongNumeral(n: nat)
    requires !ShortEnough(n)
    ensures n > MARKER_TEXT + |Decimal.Print(n)| + 2
  {
    if n < 1000 {
      ShortNumeral(n);
    } else {
      Decimal.WidthAtMostValue(n / 10);
    }
  }

  /** The largest allowance without a marker keeps that many newlines. */
  lemma NewlinesBelow(n: nat, a: nat)
    requires a < n && Budget(n, a) < 2
    ensures TruncateHeadTail(Newlines(n), a) == Newlines(a)
  {
    NewlinesLengths(n, a);
    NewlinesLengths(a, 0);
    CutWithoutMarker(Newlines(n), a);
    var cut := TruncateHeadTail(Newlines(n), a);
    assert cut == Newlines(n)[..|cut|];
    NewlinesLengths(n, |cut|);
    NewlinesLengths(|cut|, 0);
    assert Utf8Len(Newlines(n)[..a]) <= a;
  }

  lemma NewlinesEnd(n: nat, s: string)
    requires |s| <= n && (s == Newlines(n)[..|s|] || s == Newlines(n)[n - |s|..])
    ensures JsonLen(s) == 2 * Utf8Len(s)
  {
    NewlinesLengths(n, |s|);
    NewlinesLengths(|s|, 0);
  }

  /** The next allowance keeps one at most at either end. */
  lemma NewlinesCut(n: nat, a: nat) returns (head: string, omitted: nat, tail: string)
    requires a < n && Budget(n, a) == 2
    ensures TruncateHeadTail(Newlines(n), a) == head + Marker(omitted) + tail && omitted <= n
    ensures JsonLen(head) <= 2 && JsonLen(tail) <= 2
  {
    var mid: string;
    NewlinesLengths(n, 0);
    head, mid, tail := CutWithMarker(Newlines(n), a);
    omitted := Utf8Len(mid);
    NewlinesEnd(n, head);
    NewlinesEnd(n, tail);
  }

  lemma NewlinesAbove(n: nat, a: nat)
    requires a < n && Budget(n, a) == 2
    ensures JsonLen(TruncateHeadTail(Newlines(n), a)) <= 4 + MARKER_TEXT + |Decimal.Print(n)|
  {
    var head, omitted, tail := NewlinesCut(n, a);
    CutJsonLen(head, omitted, tail);
    Decimal.WidthGrowsSlowly(omitted, n);
  }

  /** A text of newlines too long for a marker at the floor shrinks when the marker first fits. */
  lemma TooLongNotMonotone(n: nat)
    requires !ShortEnough(n)
    ensures Utf8Len(Newlines(n)) == n && !MonotoneFromFloor(Newlines(n))
  {
    var a := MARKER_TEXT + |Decimal.Print(n)| + 1;
    NewlinesLengths(n, 0);
    LongNumeral(n);
    MarkerLength(n);
    NewlinesBelow(n, a);
    NewlinesLengths(a, 0);
    NewlinesAbove(n, a + 1);
    assert JsonLen(TruncateHeadTail(Newlines(n), a)) == 2 * a;
  }

  /** Sizes are monotone for every text of `n` bytes exactly when `n` has at most 36 digits. */
  lemma MonotoneIffShortEnough(n: nat)
    ensures (forall text :: Utf8Len(text) == n ==> MonotoneFromFloor(text)) <==> ShortEnough(n)
  {
    if ShortEnough(n) {
      forall text: string, a: int, b: int | Utf8Len(text) == n && FLOOR <= a <= b
        ensures JsonLen(TruncateHeadTail(text, a)) <= JsonLen(TruncateHeadTail(text, b))
      {
        LeafMonotone(text, a, b);
      }
    } else {
      TooLongNotMonotone(n);
    }
  }
}
