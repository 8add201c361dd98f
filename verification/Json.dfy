/**
  The values that `json.dumps` accepts and the ASCII text it prints for them (RFC 8259, with
  Python's default separators and `ensure_ascii=True`). Dictionaries keep their insertion
  order; a number is kept as the text it prints as.
 */
module Json {
  import Decimal
  import Utf8

  datatype Json =
    | Null
    | Bool(value: bool)
    | Num(literal: string)
    | Str(text: string)
    | List(items: seq<Json>)
    | Tuple(items: seq<Json>)
    | Dict(fields: seq<Field>)

  datatype Field = Field(key: string, value: Json)

  // ---- numbers ----

  /** The first index from `i` on that does not hold a digit. */
  function DigitsEnd(s: string, i: nat): (j: nat)
    requires i <= |s|
    ensures i <= j <= |s|
    ensures forall k :: i <= k < j ==> Decimal.IsDigit(s[k])
    decreases |s| - i
  {
    if i < |s| && Decimal.IsDigit(s[i]) then DigitsEnd(s, i + 1) else i
  }

  function IntegerEnd(s: string, i: nat): (j: nat)
    requires i <= |s|
    ensures i <= j <= |s|
  {
    if i < |s| && s[i] == '0' then i + 1 else DigitsEnd(s, i)
  }

  function FractionEnd(s: string, i: nat): (j: nat)
    requires i <= |s|
    ensures i <= j <= |s|
  {
    if i < |s| && s[i] == '.' && DigitsEnd(s, i + 1) > i + 1 then DigitsEnd(s, i + 1) else i
  }

  function ExponentEnd(s: string, i: nat): (j: nat)
    requires i <= |s|
    ensures i <= j <= |s|
  {
    if i < |s| && (s[i] == 'e' || s[i] == 'E') then
      var d := if i + 1 < |s| && (s[i + 1] == '+' || s[i + 1] == '-') then i + 2 else i + 1;
      if DigitsEnd(s, d) > d then DigitsEnd(s, d) else i
    else
      i
  }

  /** How many characters of `s` its leading number takes; 0 if it has none. */
  function NumberEnd(s: string): (j: nat)
    ensures j <= |s|
  {
    var i := if s != "" && s[0] == '-' then 1 else 0;
    var n := IntegerEnd(s, i);
    if n == i then 0 else ExponentEnd(s, FractionEnd(s, n))
  }

  predicate IsConstant(s: string) {
    s == "NaN" || s == "Infinity" || s == "-Infinity"
  }

  predicate IsNumber(s: string) {
    IsConstant(s) || (s != "" && NumberEnd(s) == |s|)
  }

  /** A number without fraction and exponent, which Python reads and prints as an `int`. */
  predicate IsInteger(s: string) {
    IsNumber(s) && forall i :: 0 <= i < |s| ==> Decimal.IsDigit(s[i]) || (i == 0 && s[i] == '-')
  }

  /** An integer that Python neither reads from text nor prints. */
  predicate TooLong(s: string) {
    IsInteger(s) && |s| > Decimal.MAX_DIGITS + if s[0] == '-' then 1 else 0
  }

  // ---- printing ----

  function HexDigit(d: nat): (c: char)
    requires d < 16
    ensures '0' <= c <= '9' || 'a' <= c <= 'f'
  {
    "0123456789abcdef"[d]
  }

  function Hex4(n: nat): (s: string)
    requires n < 0x10000
    ensures |s| == 4
  {
    [HexDigit(n / 4096), HexDigit(n / 256 % 16), HexDigit(n / 16 % 16), HexDigit(n % 16)]
  }

  /** The short escape of `c`, when it has one. */
  function ShortEscape(c: char): (e: string)
    ensures |e| <= 1
  {
    if c == '\"' then "\"" else if c == '\\' then "\\"
    else if c == '\n' then "n" else if c == '\r' then "r" else if c == '\t' then "t"
    else if c as int == 8 then "b" else if c as int == 12 then "f"
    else ""
  }

  /** The two surrogates that stand for the character at 0x10000 + 0x400 * high + low. */
  function SurrogatePair(high: nat, low: nat): (e: string)
    requires high < 0x400 && low < 0x400
    ensures |e| == 10
  {
    Hex4(0xD800 + high) + "\\u" + Hex4(0xDC00 + low)
  }

  function EscapeChar(c: char): (e: string) {
    var v := c as int;
    if ShortEscape(c) != "" then "\\" + ShortEscape(c)
    else if ' ' <= c <= '~' then [c]
    else if v < 0x10000 then "\\u" + Hex4(v)
    else "\\u" + SurrogatePair((v - 0x10000) / 0x400, (v - 0x10000) % 0x400)
  }

  function Escape(s: string): string {
    if s == "" then "" else EscapeChar(s[0]) + Escape(s[1..])
  }

  function Quote(s: string): string {
    "\"" + Escape(s) + "\""
  }

  /** `json.dumps(v)` */
  function Dumps(v: Json): (s: string)
    decreases v, 0
  {
    match v
    case Null => "null"
    case Bool(b) => if b then "true" else "false"
    case Num(literal) => literal
    case Str(text) => Quote(text)
    case List(items) => "[" + DumpsItems(items) + "]"
    case Tuple(items) => "[" + DumpsItems(items) + "]"
    case Dict(fields) => "{" + DumpsFields(fields) + "}"
  }

  function DumpsItems(items: seq<Json>): string
    decreases items, 1
  {
    if items == [] then ""
    else if |items| == 1 then Dumps(items[0])
    else Dumps(items[0]) + ", " + DumpsItems(items[1..])
  }

  function DumpsFields(fields: seq<Field>): string
    decreases fields, 1
  {
    if fields == [] then ""
    else
      var first := Quote(fields[0].key) + ": " + Dumps(fields[0].value);
      if |fields| == 1 then first else first + ", " + DumpsFields(fields[1..])
  }

  // ---- what a JSON value may hold ----

  predicate DistinctKeys(fields: seq<Field>) {
    forall i, j :: 0 <= i < j < |fields| ==> fields[i].key != fields[j].key
  }

  /** Every number is written as JSON writes numbers and no dictionary repeats a key. */
  predicate Wf(v: Json)
    decreases v, 0
  {
    match v
    case Num(literal) => IsNumber(literal)
    case List(items) => WfItems(items)
    case Tuple(items) => WfItems(items)
    case Dict(fields) => DistinctKeys(fields) && WfFields(fields)
    case _ => true
  }

  predicate WfItems(items: seq<Json>)
    decreases items, 1
  {
    items == [] || (Wf(items[0]) && WfItems(items[1..]))
  }

  predicate WfFields(fields: seq<Field>)
    decreases fields, 1
  {
    fields == [] || (Wf(fields[0].value) && WfFields(fields[1..]))
  }

  /** Every number in `v` has the property `p`. */
  predicate AllNumbers(v: Json, p: string -> bool)
    decreases v, 0
  {
    match v
    case Num(literal) => p(literal)
    case List(items) => AllNumbersIn(items, p)
    case Tuple(items) => AllNumbersIn(items, p)
    case Dict(fields) => AllNumbersUnder(fields, p)
    case _ => true
  }

  predicate AllNumbersIn(items: seq<Json>, p: string -> bool)
    decreases items, 1
  {
    items == [] || (AllNumbers(items[0], p) && AllNumbersIn(items[1..], p))
  }

  predicate AllNumbersUnder(fields: seq<Field>, p: string -> bool)
    decreases fields, 1
  {
    fields == [] || (AllNumbers(fields[0].value, p) && AllNumbersUnder(fields[1..], p))
  }

  function NotTooLong(): string -> bool {
    s => !TooLong(s)
  }

  /** `json.dumps(v)` succeeds; it raises on an integer of too many digits. */
  predicate Prints(v: Json) {
    AllNumbers(v, NotTooLong())
  }

  /** Every tuple turned into a list, which is all that a trip through JSON text changes. */
  function Listed(v: Json): (r: Json)
    decreases v, 0
  {
    match v
    case List(items) => List(ListedItems(items))
    case Tuple(items) => List(ListedItems(items))
    case Dict(fields) => Dict(ListedFields(fields))
    case _ => v
  }

  function ListedItems(items: seq<Json>): (r: seq<Json>)
    ensures |r| == |items|
    decreases items, 1
  {
    if items == [] then [] else [Listed(items[0])] + ListedItems(items[1..])
  }

  function ListedFields(fields: seq<Field>): (r: seq<Field>)
    ensures |r| == |fields|
    decreases fields, 1
  {
    if fields == [] then [] else [Field(fields[0].key, Listed(fields[0].value))] + ListedFields(fields[1..])
  }

  /** Characters held in strings and keys, at any depth. */
  function TextSize(v: Json): nat
    decreases v, 0
  {
    match v
    case Str(text) => |text|
    case List(items) => ItemsTextSize(items)
    case Tuple(items) => ItemsTextSize(items)
    case Dict(fields) => FieldsTextSize(fields)
    case _ => 0
  }

  function ItemsTextSize(items: seq<Json>): nat
    decreases items, 1
  {
    if items == [] then 0 else TextSize(items[0]) + ItemsTextSize(items[1..])
  }

  function FieldsTextSize(fields: seq<Field>): nat
    decreases fields, 1
  {
    if fields == [] then 0 else |fields[0].key| + TextSize(fields[0].value) + FieldsTextSize(fields[1..])
  }

  // ---- sizes ----

  lemma ConcatAssoc(a: string, b: string, c: string)
    ensures a + (b + c) == a + b + c
  {
  }

  lemma {:induction false} EscapeConcat(a: string, b: string)
    ensures Escape(a + b) == Escape(a) + Escape(b)
  {
    if a == "" {
      assert a + b == b;
    } else {
      assert (a + b)[1..] == a[1..] + b;
      EscapeConcat(a[1..], b);
      ConcatAssoc(EscapeChar(a[0]), Escape(a[1..]), Escape(b));
    }
  }

  /** No character takes fewer bytes in JSON than in UTF-8. */
  lemma {:induction false} EscapeNoShorter(s: string)
    ensures Utf8.Utf8Len(s) <= |Escape(s)|
  {
    if s == "" {
    } else {
      EscapeNoShorter(s[1..]);
    }
  }

  predicate Printable(s: string) {
    forall i :: 0 <= i < |s| ==> ' ' <= s[i] <= '~'
  }

  /** Re-escaping printed JSON at most doubles it. */
  lemma {:induction false} EscapeAtMostDoubles(s: string)
    requires Printable(s)
    ensures |s| <= |Escape(s)| <= 2 * |s|
  {
    if s == "" {
    } else {
      EscapeAtMostDoubles(s[1..]);
    }
  }

  lemma Hex4Printable(n: nat)
    requires n < 0x10000
    ensures Printable(Hex4(n))
  {
  }

  lemma SurrogatesPrintable(high: nat, low: nat)
    requires high < 0x400 && low < 0x400
    ensures Printable(SurrogatePair(high, low))
  {
    Hex4Printable(0xD800 + high);
    Hex4Printable(0xDC00 + low);
  }

  lemma EscapeCharPrintable(c: char)
    ensures Printable(EscapeChar(c))
  {
    if ShortEscape(c) != "" || ' ' <= c <= '~' {
    } else if c as int < 0x10000 {
      Hex4Printable(c as int);
    } else {
      SurrogatesPrintable((c as int - 0x10000) / 0x400, (c as int - 0x10000) % 0x400);
    }
  }

  lemma {:induction false} EscapePrintable(s: string)
    ensures Printable(Escape(s))
  {
    if s == "" {
    } else {
      EscapeCharPrintable(s[0]);
      EscapePrintable(s[1..]);
    }
  }

  lemma NumberPrintable(s: string)
    requires IsNumber(s)
    ensures Printable(s)
  {
    if !IsConstant(s) {
      var i := if s[0] == '-' then 1 else 0;
      var n := IntegerEnd(s, i);
      var f := FractionEnd(s, n);
      assert forall k :: i <= k < n ==> Decimal.IsDigit(s[k]);
      assert forall k :: n < k < f ==> Decimal.IsDigit(s[k]);
      assert f == n || s[n] == '.';
    }
  }

  lemma QuotePrintable(text: string)
    ensures Printable(Quote(text))
  {
    EscapePrintable(text);
  }

  lemma WrappedPrintable(a: string, s: string, b: string)
    requires Printable(a) && Printable(s) && Printable(b)
    ensures Printable(a + s + b)
  {
  }

  /** The printed text is printable ASCII, so its bytes are its characters. */
  lemma {:induction false} DumpsPrintable(v: Json)
    requires Wf(v)
    ensures Printable(Dumps(v))
    decreases v, 0
  {
    match v
    case Num(literal) => NumberPrintable(literal);
    case Str(text) => QuotePrintable(text);
    case List(items) => DumpsItemsPrintable(items); WrappedPrintable("[", DumpsItems(items), "]");
    case Tuple(items) => DumpsItemsPrintable(items); WrappedPrintable("[", DumpsItems(items), "]");
    case Dict(fields) => DumpsFieldsPrintable(fields); WrappedPrintable("{", DumpsFields(fields), "}");
    case _ =>
  }

  lemma {:induction false} DumpsItemsPrintable(items: seq<Json>)
    requires WfItems(items)
    ensures Printable(DumpsItems(items))
    decreases items, 1
  {
    if items == [] {
    } else {
      DumpsPrintable(items[0]);
      DumpsItemsPrintable(items[1..]);
    }
  }

  lemma {:induction false} DumpsFieldsPrintable(fields: seq<Field>)
    requires WfFields(fields)
    ensures Printable(DumpsFields(fields))
    decreases fields, 1
  {
    if fields == [] {
    } else {
      QuotePrintable(fields[0].key);
      DumpsPrintable(fields[0].value);
      DumpsFieldsPrintable(fields[1..]);
      WrappedPrintable(Quote(fields[0].key), ": ", Dumps(fields[0].value));
    }
  }

  /** `len(json.dumps(v).encode("utf-8"))` */
  function Size(v: Json): nat {
    |Utf8.Encode(Dumps(v))|
  }

  lemma SizeIsTextLength(v: Json)
    requires Wf(v)
    ensures Size(v) == |Dumps(v)|
  {
    DumpsPrintable(v);
    Utf8.EncodeLength(Dumps(v));
    Utf8.AsciiBytes(Dumps(v), 0);
  }
}
