/** Replacing an over-long dictionary by a marker and a JSON-text preview (`_truncate_json`). */
module Preview {
  import opened Wrappers
  import Decimal
  import opened Json
  import HeadTail
  import Utf8

  const HEADROOM: nat := 512

  const TRUNCATED := "_truncated"
  const ORIGINAL_BYTES := "original_bytes"
  const PREVIEW := "preview"

  function Bare(originalBytes: nat): Json {
    Dict([Field(TRUNCATED, Bool(true)), Field(ORIGINAL_BYTES, Num(Decimal.Print(originalBytes)))])
  }

  function Wrapper(originalBytes: nat, preview: string): Json {
    Dict([Field(TRUNCATED, Bool(true)),
          Field(ORIGINAL_BYTES, Num(Decimal.Print(originalBytes))),
          Field(PREVIEW, Str(preview))])
  }

  /** The wrapper that carries the first `k` bytes of the payload's JSON text. */
  function WrapperAt(payload: Json, k: nat): Json {
    Wrapper(Size(payload), HeadTail.DecodeUpTo(Utf8.Encode(Dumps(payload)), k))
  }

  predicate Fits(payload: Json, cap: int, k: nat) {
    Size(WrapperAt(payload, k)) <= cap
  }

  function FirstPreviewBytes(cap: int): (k: nat)
    ensures k >= 1 && (k == cap - 512 || (k == 1 && cap - 512 <= 1))
  {
    if cap - HEADROOM > 1 then cap - HEADROOM else 1
  }

  /** `n` halved `j` times, rounding down. */
  function Halved(n: nat, j: nat): nat {
    if j == 0 then n else Halved(n, j - 1) / 2
  }

  /** The preview of `r` is cut after the first of the lengths k, k/2, k/4, ... whose wrapper fits. */
  ghost predicate FirstFittingPreview(payload: Json, cap: int, r: Json, j: nat) {
    var start := FirstPreviewBytes(cap);
    && Halved(start, j) >= 1
    && Fits(payload, cap, Halved(start, j))
    && (forall i: nat :: i < j ==> !Fits(payload, cap, Halved(start, i)))
    && r == WrapperAt(payload, Halved(start, j))
  }

  /** A dictionary that says it was cut, how long the text was, and how it began if a preview fits. */
  ghost predicate Reports(r: Json, originalBytes: nat, preview: Option<string>) {
    exists digits: string ::
      && Decimal.AllDigits(digits) && Decimal.Parse(digits) == originalBytes
      && r == Dict([Field("_truncated", Bool(true)), Field("original_bytes", Num(digits))]
                   + (match preview case Some(text) => [Field("preview", Str(text))] case None => []))
  }

  lemma BareReports(r: Json, n: nat)
    requires r == Bare(n)
    ensures Reports(r, n, None)
  {
    Decimal.ParsePrint(n);
    assert r.fields == [Field("_truncated", Bool(true)), Field("original_bytes", Num(Decimal.Print(n)))] + [];
  }

  lemma WrapperReports(r: Json, n: nat, preview: string)
    requires r == Wrapper(n, preview)
    ensures Reports(r, n, Some(preview))
  {
    Decimal.ParsePrint(n);
    assert r.fields == [Field("_truncated", Bool(true)), Field("original_bytes", Num(Decimal.Print(n)))]
                       + [Field("preview", Str(preview))];
  }

  // ---- sizes ----

  lemma PrintIsNumber(n: nat)
    ensures IsNumber(Decimal.Print(n))
  {
    var s := Decimal.Print(n);
    NoLeadingZero(n);
    AllDigitsEnd(s, 0);
    AllDigitsEnd(s, 1);
  }

  lemma {:induction false} NoLeadingZero(n: nat)
    ensures n > 0 ==> Decimal.Print(n)[0] != '0'
  {
    if n >= 10 {
      NoLeadingZero(n / 10);
    }
  }

  lemma {:induction false} AllDigitsEnd(s: string, i: nat)
    requires i <= |s| && Decimal.AllDigits(s)
    ensures DigitsEnd(s, i) == |s|
    decreases |s| - i
  {
    if i < |s| {
      AllDigitsEnd(s, i + 1);
    }
  }

  lemma PlainKeys(key: string)
    requires key == TRUNCATED || key == ORIGINAL_BYTES || key == PREVIEW
    ensures HeadTail.Plain(key)
  {
  }

  lemma KeyLength(key: string)
    requires key == TRUNCATED || key == ORIGINAL_BYTES || key == PREVIEW
    ensures |Quote(key)| == |key| + 2
  {
    PlainKeys(key);
    HeadTail.PlainEscape(key);
  }

  function FieldLength(f: Field): nat {
    |Quote(f.key)| + 2 + |Dumps(f.value)|
  }

  lemma FieldsLength(f: Field, rest: seq<Field>)
    ensures |DumpsFields([f])| == FieldLength(f)
    ensures rest != [] ==> |DumpsFields([f] + rest)| == FieldLength(f) + 2 + |DumpsFields(rest)|
    ensures WfFields([f] + rest) <==> Wf(f.value) && WfFields(rest)
  {
    assert ([f] + rest)[1..] == rest;
  }

  lemma TwoFields(a: Field, b: Field)
    ensures |Dumps(Dict([a, b]))| == FieldLength(a) + FieldLength(b) + 4
    ensures Wf(Dict([a, b])) <==> Wf(a.value) && Wf(b.value) && a.key != b.key
  {
    FieldsLength(a, [b]);
    FieldsLength(b, []);
    assert [a, b] == [a] + [b] && [b] == [b] + [];
    assert DistinctKeys([a, b]) ==> [a, b][0].key != [a, b][1].key;
  }

  lemma ThreeFields(a: Field, b: Field, c: Field)
    ensures |Dumps(Dict([a, b, c]))| == FieldLength(a) + FieldLength(b) + FieldLength(c) + 6
    ensures Wf(Dict([a, b, c])) <==>
              Wf(a.value) && Wf(b.value) && Wf(c.value) && a.key != b.key && a.key != c.key && b.key != c.key
  {
    FieldsLength(a, [b, c]);
    FieldsLength(b, [c]);
    FieldsLength(c, []);
    assert [a, b, c] == [a] + [b, c] && [b, c] == [b] + [c] && [c] == [c] + [];
    var f := [a, b, c];
    assert DistinctKeys(f) ==> f[0].key != f[1].key && f[0].key != f[2].key && f[1].key != f[2].key;
  }

  lemma KeyLengths(a: string, b: string, c: string)
    requires a == TRUNCATED && b == ORIGINAL_BYTES && c == PREVIEW
    ensures |Quote(a)| == 12 && |Quote(b)| == 16 && |Quote(c)| == 9
  {
    KeyLength(a);
    KeyLength(b);
    KeyLength(c);
  }

  lemma FieldLengths(a: Field, b: Field, c: Field, n: nat, preview: string)
    requires a == Field(TRUNCATED, Bool(true))
    requires b == Field(ORIGINAL_BYTES, Num(Decimal.Print(n)))
    requires c == Field(PREVIEW, Str(preview))
    ensures FieldLength(a) == 18 && FieldLength(b) == 18 + |Decimal.Print(n)|
    ensures FieldLength(c) == 13 + |Escape(preview)|
    ensures Wf(a.value) && Wf(b.value) && Wf(c.value)
    ensures a.key != b.key && a.key != c.key && b.key != c.key
  {
    KeyLengths(a.key, b.key, c.key);
    PrintIsNumber(n);
    assert |a.key| == 10 && |b.key| == 14 && |c.key| == 7;
  }

  /** 55 bytes of structure, the digits of the size, and the escaped preview. */
  lemma WrapperSize(w: Json, n: nat, preview: string)
    requires w == Wrapper(n, preview)
    ensures Size(w) == 55 + |Decimal.Print(n)| + |Escape(preview)|
  {
    var a, b, c := w.fields[0], w.fields[1], w.fields[2];
    FieldLengths(a, b, c, n, preview);
    ThreeFields(a, b, c);
    assert w.fields == [a, b, c];
    WrapperWf(w, n, preview);
    SizeIsTextLength(w);
  }

  lemma WrapperWf(w: Json, n: nat, preview: string)
    requires w == Wrapper(n, preview)
    ensures Wf(w)
  {
    var a, b, c := w.fields[0], w.fields[1], w.fields[2];
    FieldLengths(a, b, c, n, preview);
    ThreeFields(a, b, c);
    assert w.fields == [a, b, c];
  }

  lemma BareSize(w: Json, n: nat)
    requires w == Bare(n)
    ensures Size(w) == 40 + |Decimal.Print(n)|
  {
    var a, b := w.fields[0], w.fields[1];
    FieldLengths(a, b, Field(PREVIEW, Str("")), n, "");
    TwoFields(a, b);
    assert w.fields == [a, b];
    SizeIsTextLength(w);
  }

  /** What the first `k` bytes of the payload's text decode to, and what the wrapper then takes. */
  lemma PreviewText(payload: Json, k: nat)
    requires payload.Dict? && Wf(payload) && 1 <= k <= Size(payload)
    ensures k <= |Dumps(payload)|
    ensures WrapperAt(payload, k) == Wrapper(Size(payload), Dumps(payload)[..k])
    ensures Size(WrapperAt(payload, k)) == 55 + |Decimal.Print(Size(payload))| + |Escape(Dumps(payload)[..k])|
    ensures k <= |Escape(Dumps(payload)[..k])| <= 2 * k
  {
    var text := Dumps(payload);
    SizeIsTextLength(payload);
    DumpsPrintable(payload);
    Utf8.AsciiBytes(text, k);
    HeadTail.ByteCuts(text, k);
    EscapeAtMostDoubles(text[..k]);
    WrapperSize(WrapperAt(payload, k), Size(payload), text[..k]);
  }

  /** The first byte of a dictionary's text is its brace, which needs no escape. */
  lemma FirstByteOnly(payload: Json)
    requires payload.Dict? && Wf(payload)
    ensures Size(payload) >= 2
    ensures Size(WrapperAt(payload, 1)) == 56 + |Decimal.Print(Size(payload))|
  {
    SizeIsTextLength(payload);
    PreviewText(payload, 1);
    assert Dumps(payload)[..1] == "{";
  }

  lemma EscapeGrows(text: string, a: nat, b: nat)
    requires a <= b <= |text|
    ensures |Escape(text[..a])| <= |Escape(text[..b])|
  {
    assert text[..b] == text[..a] + text[a..b];
    EscapeConcat(text[..a], text[a..b]);
  }

  /** A shorter preview never takes more room. */
  lemma ShorterFits(payload: Json, cap: int, a: nat, b: nat)
    requires payload.Dict? && Wf(payload) && 1 <= a <= b <= Size(payload) && Fits(payload, cap, b)
    ensures Fits(payload, cap, a)
  {
    PreviewText(payload, a);
    PreviewText(payload, b);
    EscapeGrows(Dumps(payload), a, b);
  }

  // ---- the search ----

  /** None of the first `j` lengths gives a wrapper that fits. */
  ghost predicate NoneFits(payload: Json, cap: int, j: nat) {
    forall i: nat :: i < j ==> !Fits(payload, cap, Halved(FirstPreviewBytes(cap), i))
  }

  lemma PreviewFound(payload: Json, cap: int, r: Json, j: nat, k: nat)
    requires payload.Dict? && Wf(payload) && 1 <= k <= Size(payload)
    requires k == Halved(FirstPreviewBytes(cap), j) && NoneFits(payload, cap, j)
    requires r == WrapperAt(payload, k) && Size(r) <= cap
    ensures FirstFittingPreview(payload, cap, r, j) && Fits(payload, cap, 1)
  {
    ShorterFits(payload, cap, 1, k);
  }

  /** `json.dumps` raises on an integer of too many digits, and then so does this. */
  method TruncateJson(payload: Json, cap: int) returns (r: Result<Json, string>)
    requires payload.Dict? && Wf(payload)
    ensures r.Success? <==> Prints(payload)
    ensures r.Failure? ==> r.error == "ValueError"
    ensures r.Success? && Size(payload) <= cap ==> r.value == payload
    ensures r.Success? && Size(payload) > cap && Fits(payload, cap, 1) ==>
              exists j: nat :: FirstFittingPreview(payload, cap, r.value, j)
    ensures r.Success? && Size(payload) > cap && !Fits(payload, cap, 1) ==> r.value == Bare(Size(payload))
  {
    if !Prints(payload) {
      return Failure("ValueError");
    }
    var raw := Utf8.Encode(Dumps(payload));
    if |raw| <= cap {
      return Success(payload);
    }
    FirstByteOnly(payload);
    var previewBytes := FirstPreviewBytes(cap);
    ghost var j: nat := 0;
    while true
      invariant previewBytes == Halved(FirstPreviewBytes(cap), j) >= 1
      invariant previewBytes <= |raw|
      invariant NoneFits(payload, cap, j)
      decreases previewBytes
    {
      var wrapper := Wrapper(|raw|, HeadTail.DecodeUpTo(raw, previewBytes));
      if |Utf8.Encode(Dumps(wrapper))| <= cap {
        PreviewFound(payload, cap, wrapper, j, previewBytes);
        return Success(wrapper);
      }
      if previewBytes == 1 {
        return Success(Bare(|raw|));
      }
      previewBytes := previewBytes / 2;
      j := j + 1;
    }
  }

  // ---- what every result is worth ----

  /** The preview of `r` has `k` bytes and fits, and one twice as long does not, or is never tried. */
  ghost predicate HalfTheBestPreview(payload: Json, cap: int, r: Json, k: nat) {
    && 1 <= k <= FirstPreviewBytes(cap)
    && k <= |Dumps(payload)|
    && Reports(r, Size(payload), Some(Dumps(payload)[..k]))
    && Size(r) <= cap
    && (k == FirstPreviewBytes(cap) || !Fits(payload, cap, 2 * k + 1))
  }

  lemma {:induction false} HalvedAtMost(n: nat, j: nat)
    ensures Halved(n, j) <= n
  {
    if j == 0 {
    } else {
      HalvedAtMost(n, j - 1);
    }
  }

  lemma TwiceDoesNotFit(payload: Json, cap: int, j: nat)
    requires payload.Dict? && Wf(payload) && Size(payload) > cap
    requires j > 0 && Halved(FirstPreviewBytes(cap), j) >= 1
    requires !Fits(payload, cap, Halved(FirstPreviewBytes(cap), j - 1))
    ensures !Fits(payload, cap, 2 * Halved(FirstPreviewBytes(cap), j) + 1)
  {
    var before, twice := Halved(FirstPreviewBytes(cap), j - 1), 2 * Halved(FirstPreviewBytes(cap), j) + 1;
    HalvedAtMost(FirstPreviewBytes(cap), j - 1);
    assert before <= twice <= before + 1;
    if Fits(payload, cap, twice) {
      ShorterFits(payload, cap, before, twice);
    }
  }

  lemma PreviewIsWorthIt(payload: Json, cap: int, r: Json, j: nat)
    requires payload.Dict? && Wf(payload) && Size(payload) > cap && FirstFittingPreview(payload, cap, r, j)
    ensures HalfTheBestPreview(payload, cap, r, Halved(FirstPreviewBytes(cap), j))
  {
    HalvedAtMost(FirstPreviewBytes(cap), j);
    FirstByteOnly(payload);
    PreviewText(payload, Halved(FirstPreviewBytes(cap), j));
    WrapperReports(r, Size(payload), Dumps(payload)[..Halved(FirstPreviewBytes(cap), j)]);
    if j > 0 {
      TwiceDoesNotFit(payload, cap, j);
    }
  }

  /** Above the headroom a preview is always shipped, and found with at most one halving. */
  lemma AtMostOneHalving(payload: Json, cap: int, r: Json, j: nat)
    requires payload.Dict? && Wf(payload) && Size(payload) > cap > HEADROOM
    requires |Decimal.Print(Size(payload))| <= 457
    ensures Fits(payload, cap, 1)
    ensures FirstFittingPreview(payload, cap, r, j) ==> j <= 1
  {
    FirstByteOnly(payload);
    var start := FirstPreviewBytes(cap);
    if start > 1 {
      PreviewText(payload, start / 2);
      assert Halved(start, 0) == start;
      assert Fits(payload, cap, Halved(start, 1));
    } else {
      assert Fits(payload, cap, Halved(start, 0));
    }
  }

  /** A preview is shipped exactly when the cap has room for its first byte. */
  lemma PreviewIff(payload: Json, cap: int)
    requires payload.Dict? && Wf(payload)
    ensures Fits(payload, cap, 1) <==> 56 + |Decimal.Print(Size(payload))| <= cap
  {
    FirstByteOnly(payload);
  }
}
