/**
  Reading JSON text (`json.loads`). A parser takes the text from its first character on and returns
  the value with the text left over. `Parse` is the
  grammar alone: numbers as written, every field of a dictionary. `Loads` is what Python makes of
  it: it raises on an integer of too many digits, merges repeated keys, and holds numbers by value,
  which shows in how it prints them. An escaped lone surrogate, which Python reads but no
  scalar-value text can hold, is a failure here.
 */
module JsonLoads {
  import opened Wrappers
  import opened Json
  import Decimal
  import Utf8

  predicate IsSpace(c: char) {
    c == ' ' || c == '\t' || c == '\n' || c == '\r'
  }

  function SkipSpace(s: string): (r: string)
    ensures |r| <= |s|
  {
    if s != "" && IsSpace(s[0]) then SkipSpace(s[1..]) else s
  }

  // ---- strings ----

  function HexValue(c: char): (r: Option<nat>)
    ensures r.Some? ==> r.value < 16
  {
    if '0' <= c <= '9' then Some(c as int - '0' as int)
    else if 'a' <= c <= 'f' then Some(c as int - 'a' as int + 10)
    else if 'A' <= c <= 'F' then Some(c as int - 'A' as int + 10)
    else None
  }

  function ReadHex4(s: string): (r: Option<nat>)
    ensures r.Some? ==> r.value < 0x10000 && |s| >= 4
  {
    if |s| < 4 then None
    else
      match (HexValue(s[0]), HexValue(s[1]), HexValue(s[2]), HexValue(s[3]))
      case (Some(a), Some(b), Some(c), Some(d)) => Some(a * 4096 + b * 256 + c * 16 + d)
      case _ => None
  }

  /** The second half of a surrogate pair: `\uDC00` to `\uDFFF`, as an offset. */
  function ReadLowSurrogate(s: string): (r: Option<nat>)
    ensures r.Some? ==> r.value < 0x400 && |s| >= 6
  {
    if |s| >= 6 && s[0] == '\\' && s[1] == 'u' then
      match ReadHex4(s[2..])
      case Some(v) => if 0xDC00 <= v < 0xE000 then Some(v - 0xDC00) else None
      case None => None
    else
      None
  }

  /** The character escaped by what follows a backslash. */
  function ReadEscape(s: string): (r: Option<(char, string)>)
    ensures r.Some? ==> |r.value.1| < |s|
  {
    if s == "" then None
    else
      var rest := s[1..];
      match s[0]
      case '\"' => Some(('\"', rest))
      case '\\' => Some(('\\', rest))
      case '/' => Some(('/', rest))
      case 'b' => Some((8 as char, rest))
      case 'f' => Some((12 as char, rest))
      case 'n' => Some(('\n', rest))
      case 'r' => Some(('\r', rest))
      case 't' => Some(('\t', rest))
      case 'u' => ReadUnicodeEscape(rest)
      case _ => None
  }

  function ReadUnicodeEscape(s: string): (r: Option<(char, string)>)
    ensures r.Some? ==> |r.value.1| < |s|
  {
    match ReadHex4(s)
    case None => None
    case Some(v) =>
      if Utf8.IsScalar(v) then Some((v as char, s[4..]))
      else if v < 0xDC00 then
        match ReadLowSurrogate(s[4..])
        case Some(low) => Some(((0x10000 + (v - 0xD800) * 0x400 + low) as char, s[10..]))
        case None => None
      else None
  }

  /** The text up to the closing quote. */
  function ReadString(s: string): (r: Option<(string, string)>)
    ensures r.Some? ==> |r.value.0| + |r.value.1| < |s|
    decreases |s|
  {
    if s == "" then None
    else if s[0] == '\"' then Some(("", s[1..]))
    else if s[0] == '\\' then
      match ReadEscape(s[1..])
      case None => None
      case Some((c, rest)) => Prefixed(c, ReadString(rest))
    else if s[0] < ' ' then None
    else Prefixed(s[0], ReadString(s[1..]))
  }

  function Prefixed(c: char, r: Option<(string, string)>): Option<(string, string)> {
    match r
    case Some((text, rest)) => Some(([c] + text, rest))
    case None => None
  }

  // ---- values ----

  /** Setting a dictionary's key keeps the key's first position and takes the latest value. */
  function Put(fields: seq<Field>, f: Field): (r: seq<Field>)
    ensures forall i :: 0 <= i < |r| ==> r[i].key == f.key || exists j :: 0 <= j < |fields| && fields[j].key == r[i].key
  {
    if fields == [] then [f]
    else if fields[0].key == f.key then [f] + fields[1..]
    else [fields[0]] + Put(fields[1..], f)
  }

  /** The dictionary that key-value pairs in source order make. */
  function PutAll(pairs: seq<Field>): seq<Field> {
    if pairs == [] then [] else Put(PutAll(pairs[..|pairs| - 1]), pairs[|pairs| - 1])
  }

  function ReadNumber(s: string): (r: Option<(Json, string)>)
    ensures r.Some? ==> TextSize(r.value.0) + |r.value.1| < |s|
    ensures r.Some? ==> r.value.0.Num? && IsNumber(r.value.0.literal)
  {
    if "NaN" <= s then Some((Num("NaN"), s[3..]))
    else if "Infinity" <= s then Some((Num("Infinity"), s[8..]))
    else if "-Infinity" <= s then Some((Num("-Infinity"), s[9..]))
    else if NumberEnd(s) > 0 then
      NumberEndOfPrefix(s);
      Some((Num(s[..NumberEnd(s)]), s[NumberEnd(s)..]))
    else None
  }

  /** The three names, or else a number. */
  function ReadWord(s: string): (r: Option<(Json, string)>)
    ensures r.Some? ==> Raw(r.value.0) && TextSize(r.value.0) + |r.value.1| < |s|
  {
    if "null" <= s then Some((Null, s[4..]))
    else if "true" <= s then Some((Bool(true), s[4..]))
    else if "false" <= s then Some((Bool(false), s[5..]))
    else ReadNumber(s)
  }

  function ReadValue(s: string): (r: Option<(Json, string)>)
    ensures r.Some? ==> |r.value.1| < |s|
    decreases |s|, 0
  {
    if s == "" then None
    else if s[0] == '\"' then
      match ReadString(s[1..])
      case Some((text, rest)) => Some((Str(text), rest))
      case None => None
    else if s[0] == '[' then
      var t := SkipSpace(s[1..]);
      if t != "" && t[0] == ']' then Some((List([]), t[1..]))
      else
        match ReadItems(t)
        case Some((items, rest)) => Some((List(items), rest))
        case None => None
    else if s[0] == '{' then
      var t := SkipSpace(s[1..]);
      if t != "" && t[0] == '}' then Some((Dict([]), t[1..]))
      else
        match ReadFields(t)
        case Some((pairs, rest)) => Some((Dict(pairs), rest))
        case None => None
    else ReadWord(s)
  }

  /** One or more values separated by commas, up to the closing bracket. */
  function ReadItems(s: string): (r: Option<(seq<Json>, string)>)
    ensures r.Some? ==> |r.value.1| < |s|
    decreases |s|, 1
  {
    match ReadValue(s)
    case None => None
    case Some((v, rest)) =>
      var t := SkipSpace(rest);
      if t == "" then None
      else if t[0] == ']' then Some(([v], t[1..]))
      else if t[0] == ',' then
        match ReadItems(SkipSpace(t[1..]))
        case Some((items, end)) => Some(([v] + items, end))
        case None => None
      else None
  }

  /** A quoted key, a colon and a value. */
  function ReadField(s: string): (r: Option<(Field, string)>)
    ensures r.Some? ==> |r.value.1| < |s|
    decreases |s|, 1
  {
    if s == "" || s[0] != '\"' then None
    else
      match ReadString(s[1..])
      case None => None
      case Some((key, rest)) =>
        var t := SkipSpace(rest);
        if t == "" || t[0] != ':' then None
        else
          match ReadValue(SkipSpace(t[1..]))
          case Some((v, end)) => Some((Field(key, v), end))
          case None => None
  }

  /** One or more fields separated by commas, up to the closing brace. */
  function ReadFields(s: string): (r: Option<(seq<Field>, string)>)
    ensures r.Some? ==> |r.value.1| < |s|
    decreases |s|, 2
  {
    match ReadField(s)
    case None => None
    case Some((f, rest)) =>
      var t := SkipSpace(rest);
      if t == "" then None
      else if t[0] == '}' then Some(([f], t[1..]))
      else if t[0] == ',' then
        match ReadFields(SkipSpace(t[1..]))
        case Some((pairs, end)) => Some(([f] + pairs, end))
        case None => None
      else None
  }

  /** The text as the grammar has it. */
  function Parse(s: string): Option<Json> {
    match ReadValue(SkipSpace(s))
    case Some((v, rest)) => if SkipSpace(rest) == "" then Some(v) else None
    case None => None
  }

  // ---- what Python makes of it ----

  /** How a number prints once it is read: `-0` loses its sign, `floats` says how a float prints. */
  function Reprinted(literal: string, floats: string -> string): string {
    if !IsInteger(literal) then floats(literal) else if literal == "-0" then "0" else literal
  }

  /** `floats` prints floats: as numbers that are no integers, and read back and printed again the same. */
  ghost predicate PrintsFloats(floats: string -> string) {
    forall l :: IsNumber(l) && !IsInteger(l) ==>
      IsNumber(floats(l)) && !IsInteger(floats(l)) && floats(floats(l)) == floats(l)
  }

  /** Numbers by value, and of a repeated key the latest. */
  function Merged(v: Json, floats: string -> string): Json
    decreases v, 0
  {
    match v
    case Num(literal) => Num(Reprinted(literal, floats))
    case List(items) => List(MergedItems(items, floats))
    case Tuple(items) => Tuple(MergedItems(items, floats))
    case Dict(fields) => Dict(PutAll(MergedFields(fields, floats)))
    case _ => v
  }

  function MergedItems(items: seq<Json>, floats: string -> string): (r: seq<Json>)
    ensures |r| == |items|
    decreases items, 1
  {
    if items == [] then [] else [Merged(items[0], floats)] + MergedItems(items[1..], floats)
  }

  function MergedFields(fields: seq<Field>, floats: string -> string): (r: seq<Field>)
    ensures |r| == |fields|
    ensures forall i :: 0 <= i < |fields| ==> r[i].key == fields[i].key
    decreases fields, 1
  {
    if fields == [] then []
    else [Field(fields[0].key, Merged(fields[0].value, floats))] + MergedFields(fields[1..], floats)
  }

  /** `json.loads(s)`; `None` for the `ValueError` it raises. */
  function Loads(s: string, floats: string -> string): Option<Json> {
    match Parse(s)
    case Some(v) => if Prints(v) then Some(Merged(v, floats)) else None
    case None => None
  }

  // ---- numbers end where they end ----

  /** Text that no number can run into. */
  predicate EndsNumber(rest: string) {
    rest == "" || rest[0] == ',' || rest[0] == ']' || rest[0] == '}' || IsSpace(rest[0])
  }

  lemma {:induction false} DigitsEndOfPrefix(s: string, i: nat, n: nat)
    requires i <= n <= |s|
    ensures DigitsEnd(s, i) <= n ==> DigitsEnd(s[..n], i) == DigitsEnd(s, i)
    ensures DigitsEnd(s, i) > n ==> DigitsEnd(s[..n], i) == n
    decreases n - i
  {
    if i < n && Decimal.IsDigit(s[i]) {
      DigitsEndOfPrefix(s, i + 1, n);
    }
  }

  /** A number cut off the front of a text is a whole number. */
  lemma NumberEndOfPrefix(s: string)
    requires NumberEnd(s) > 0
    ensures IsNumber(s[..NumberEnd(s)])
  {
    var p := s[..NumberEnd(s)];
    var i := if s[0] == '-' then 1 else 0;
    var n := IntegerEnd(s, i);
    var f := FractionEnd(s, n);
    DigitsEndOfPrefix(s, i, |p|);
    assert IntegerEnd(p, i) == n;
    FractionOfPrefix(s, n, |p|);
    ExponentOfPrefix(s, f);
  }

  lemma FractionOfPrefix(s: string, i: nat, n: nat)
    requires i <= n <= |s|
    requires n == ExponentEnd(s, FractionEnd(s, i))
    ensures FractionEnd(s[..n], i) == FractionEnd(s, i)
  {
    if i + 1 <= n && s[i] == '.' {
      DigitsEndOfPrefix(s, i + 1, n);
    }
  }

  lemma ExponentOfPrefix(s: string, i: nat)
    requires i <= |s|
    ensures ExponentEnd(s[..ExponentEnd(s, i)], i) == ExponentEnd(s, i)
  {
    var n := ExponentEnd(s, i);
    if n > i {
      var d := if s[i + 1] == '+' || s[i + 1] == '-' then i + 2 else i + 1;
      DigitsEndOfPrefix(s, d, n);
    }
  }

  lemma {:induction false} DigitsEndAppend(s: string, rest: string, i: nat)
    requires i <= |s| && EndsNumber(rest)
    ensures DigitsEnd(s + rest, i) == DigitsEnd(s, i)
    decreases |s| - i
  {
    if i < |s| {
      assert (s + rest)[i] == s[i];
      if Decimal.IsDigit(s[i]) {
        DigitsEndAppend(s, rest, i + 1);
      }
    } else {
      assert i < |s + rest| ==> (s + rest)[i] == rest[0];
    }
  }

  /** What follows a number leaves the number as it is. */
  lemma NumberEndAppend(s: string, rest: string)
    requires s != "" && EndsNumber(rest)
    ensures NumberEnd(s + rest) == NumberEnd(s)
  {
    var t := s + rest;
    var i := if s[0] == '-' then 1 else 0;
    assert t[0] == s[0];
    DigitsEndAppend(s, rest, i);
    assert i < |t| ==> t[i] == if i < |s| then s[i] else rest[0];
    var n := IntegerEnd(s, i);
    assert IntegerEnd(t, i) == n;
    FractionAppend(s, rest, n);
    ExponentAppend(s, rest, FractionEnd(s, n));
  }

  lemma FractionAppend(s: string, rest: string, i: nat)
    requires i <= |s| && EndsNumber(rest)
    ensures FractionEnd(s + rest, i) == FractionEnd(s, i)
  {
    assert i < |s + rest| ==> (s + rest)[i] == if i < |s| then s[i] else rest[0];
    if i < |s| {
      DigitsEndAppend(s, rest, i + 1);
    }
  }

  lemma ExponentAppend(s: string, rest: string, i: nat)
    requires i <= |s| && EndsNumber(rest)
    ensures ExponentEnd(s + rest, i) == ExponentEnd(s, i)
  {
    var t := s + rest;
    assert i < |t| ==> t[i] == if i < |s| then s[i] else rest[0];
    assert i + 1 < |t| && i < |s| ==> t[i + 1] == if i + 1 < |s| then s[i + 1] else rest[0];
    if i < |s| {
      DigitsEndAppend(s, rest, i + 1);
      if i + 1 < |s| {
        DigitsEndAppend(s, rest, i + 2);
      }
    }
  }

  // ---- numbers and escapes are read ----

  lemma HexDigitRead(d: nat)
    requires d < 16
    ensures HexValue(HexDigit(d)) == Some(d)
  {
  }

  lemma Hex4Read(n: nat, rest: string)
    requires n < 0x10000
    ensures ReadHex4(Hex4(n) + rest) == Some(n)
    ensures (Hex4(n) + rest)[4..] == rest
  {
    HexDigitRead(n / 4096);
    HexDigitRead(n / 256 % 16);
    HexDigitRead(n / 16 % 16);
    HexDigitRead(n % 16);
    var s := Hex4(n) + rest;
    assert s[0] == HexDigit(n / 4096) && s[1] == HexDigit(n / 256 % 16)
           && s[2] == HexDigit(n / 16 % 16) && s[3] == HexDigit(n % 16);
    var a, b := n / 16, n / 256;
    assert a / 16 == b && b / 16 == n / 4096;
  }

  lemma Assoc(a: string, b: string, c: string)
    ensures (a + b) + c == a + (b + c)
  {
  }

  lemma NumberStart(s: string)
    requires IsNumber(s) && !IsConstant(s)
    ensures Decimal.IsDigit(s[0]) || (s[0] == '-' && |s| > 1 && Decimal.IsDigit(s[1]))
  {
    var i := if s[0] == '-' then 1 else 0;
    assert IntegerEnd(s, i) > i;
  }

  lemma WordIsNumber(s: string)
    requires s != "" && s[0] != 'n' && s[0] != 't' && s[0] != 'f'
    ensures ReadWord(s) == ReadNumber(s)
  {
    assert "null"[0] == 'n' && "true"[0] == 't' && "false"[0] == 'f';
  }

  lemma ValueIsNumber(s: string)
    requires s != "" && (Decimal.IsDigit(s[0]) || s[0] == '-' || s[0] == 'N' || s[0] == 'I')
    ensures ReadValue(s) == ReadNumber(s)
  {
    var c := s[0];
    assert c != '\"' && c != '[' && c != '{' && c != 'n' && c != 't' && c != 'f';
    WordIsNumber(s);
  }

  lemma ConstantRead(literal: string, rest: string)
    requires IsConstant(literal)
    ensures ReadNumber(literal + rest) == Some((Num(literal), rest))
  {
    var s := literal + rest;
    assert s[0] == literal[0];
    assert s[1] == literal[1];
    assert literal <= s && s[|literal|..] == rest;
  }

  lemma DigitsAhead(s: string)
    requires s != "" && (Decimal.IsDigit(s[0]) || (|s| > 1 && s[0] == '-' && Decimal.IsDigit(s[1])))
    ensures !("NaN" <= s) && !("Infinity" <= s) && !("-Infinity" <= s)
  {
    assert "NaN"[0] == 'N' && "Infinity"[0] == 'I' && "-Infinity"[1] == 'I';
  }

  lemma LiteralRead(literal: string, rest: string)
    requires IsNumber(literal) && !IsConstant(literal) && EndsNumber(rest)
    ensures ReadNumber(literal + rest) == Some((Num(literal), rest))
  {
    var s := literal + rest;
    assert s[0] == literal[0];
    NumberStart(literal);
    assert s[0] == '-' ==> s[1] == literal[1];
    DigitsAhead(s);
    NumberEndAppend(literal, rest);
    assert s[..|literal|] == literal && s[|literal|..] == rest;
  }

  lemma NumberRead(literal: string, rest: string)
    requires IsNumber(literal) && EndsNumber(rest)
    ensures ReadValue(literal + rest) == Some((Num(literal), rest))
  {
    assert (literal + rest)[0] == literal[0];
    if IsConstant(literal) {
      ConstantRead(literal, rest);
    } else {
      NumberStart(literal);
      LiteralRead(literal, rest);
    }
    ValueIsNumber(literal + rest);
  }

  lemma {:induction false} ListedKeys(fields: seq<Field>)
    ensures forall i :: 0 <= i < |fields| ==> ListedFields(fields)[i].key == fields[i].key
    ensures DistinctKeys(fields) ==> DistinctKeys(ListedFields(fields))
  {
    if fields == [] {
    } else {
      ListedKeys(fields[1..]);
      assert forall i :: 0 < i < |fields| ==> ListedFields(fields)[i] == ListedFields(fields[1..])[i - 1];
    }
  }

  lemma {:induction false} PutNew(fields: seq<Field>, f: Field)
    requires forall i :: 0 <= i < |fields| ==> fields[i].key != f.key
    ensures Put(fields, f) == fields + [f]
  {
    if fields == [] {
    } else {
      PutNew(fields[1..], f);
    }
  }

  lemma {:induction false} PutDistinct(fields: seq<Field>)
    requires DistinctKeys(fields)
    ensures PutAll(fields) == fields
  {
    if fields == [] {
    } else {
      var n := |fields| - 1;
      PutDistinct(fields[..n]);
      PutNew(fields[..n], fields[n]);
    }
  }

  // ---- what is read is well formed and smaller than its text ----

  predicate NoTuple(v: Json)
    decreases v, 0
  {
    match v
    case List(items) => NoTupleItems(items)
    case Tuple(_) => false
    case Dict(fields) => NoTupleFields(fields)
    case _ => true
  }

  predicate NoTupleItems(items: seq<Json>)
    decreases items, 1
  {
    items == [] || (NoTuple(items[0]) && NoTupleItems(items[1..]))
  }

  predicate NoTupleFields(fields: seq<Field>)
    decreases fields, 1
  {
    fields == [] || (NoTuple(fields[0].value) && NoTupleFields(fields[1..]))
  }

  /** Values that JSON text can stand for. */
  predicate Document(v: Json) {
    Wf(v) && NoTuple(v)
  }

  function Numbers(): string -> bool {
    s => IsNumber(s)
  }

  /** What the grammar gives: keys may repeat. */
  predicate Raw(v: Json) {
    NoTuple(v) && AllNumbers(v, Numbers())
  }

  /** What Python prints and reads back as it is: no integer too long, every number as it prints. */
  function Settled(floats: string -> string): string -> bool {
    s => !TooLong(s) && Reprinted(s, floats) == s
  }

  predicate Stable(v: Json, floats: string -> string) {
    Document(v) && AllNumbers(v, Settled(floats))
  }

  lemma DistinctCons(f: Field, fields: seq<Field>)
    ensures DistinctKeys([f] + fields)
       <==> DistinctKeys(fields) && forall j :: 0 <= j < |fields| ==> fields[j].key != f.key
  {
    var r := [f] + fields;
    assert forall i :: 0 < i < |r| ==> r[i] == fields[i - 1];
    assert forall j :: 0 <= j < |fields| ==> fields[j] == r[j + 1];
    if DistinctKeys(r) {
      forall j | 0 <= j < |fields| ensures fields[j].key != f.key {
        assert r[0].key != r[j + 1].key;
      }
    }
  }

  lemma {:induction false} PutDistinctKeys(fields: seq<Field>, f: Field)
    requires DistinctKeys(fields)
    ensures DistinctKeys(Put(fields, f))
  {
    if fields == [] {
    } else {
      assert fields == [fields[0]] + fields[1..];
      DistinctCons(fields[0], fields[1..]);
      if fields[0].key == f.key {
        DistinctCons(f, fields[1..]);
      } else {
        PutDistinctKeys(fields[1..], f);
        DistinctCons(fields[0], Put(fields[1..], f));
      }
    }
  }

  lemma {:induction false} PutSound(fields: seq<Field>, f: Field)
    requires WfFields(fields) && NoTupleFields(fields) && Document(f.value)
    ensures WfFields(Put(fields, f)) && NoTupleFields(Put(fields, f))
  {
    if fields == [] {
      assert [f][1..] == [];
    } else if fields[0].key == f.key {
      assert ([f] + fields[1..])[1..] == fields[1..];
    } else {
      PutSound(fields[1..], f);
      assert Put(fields, f)[1..] == Put(fields[1..], f);
    }
  }

  lemma {:induction false} PutNumbers(fields: seq<Field>, f: Field, p: string -> bool)
    requires AllNumbersUnder(fields, p) && AllNumbers(f.value, p)
    ensures AllNumbersUnder(Put(fields, f), p)
  {
    if fields == [] {
      assert [f][1..] == [];
    } else if fields[0].key == f.key {
      assert ([f] + fields[1..])[1..] == fields[1..];
    } else {
      PutNumbers(fields[1..], f, p);
      assert Put(fields, f)[1..] == Put(fields[1..], f);
    }
  }

  lemma {:induction false} SizeOfInit(pairs: seq<Field>, f: Field, p: string -> bool)
    ensures FieldsTextSize(pairs + [f]) == FieldsTextSize(pairs) + |f.key| + TextSize(f.value)
    ensures WfFields(pairs + [f]) ==> WfFields(pairs) && Wf(f.value)
    ensures NoTupleFields(pairs + [f]) ==> NoTupleFields(pairs) && NoTuple(f.value)
    ensures AllNumbersUnder(pairs + [f], p) ==> AllNumbersUnder(pairs, p) && AllNumbers(f.value, p)
  {
    if pairs == [] {
      assert [] + [f] == [f] && [f][1..] == [];
    } else {
      SizeOfInit(pairs[1..], f, p);
      assert (pairs + [f])[1..] == pairs[1..] + [f];
    }
  }

  lemma {:induction false} PutAllSize(pairs: seq<Field>)
    ensures FieldsTextSize(PutAll(pairs)) <= FieldsTextSize(pairs)
  {
    if pairs == [] {
    } else {
      var n := |pairs| - 1;
      assert pairs == pairs[..n] + [pairs[n]];
      SizeOfInit(pairs[..n], pairs[n], Numbers());
      PutAllSize(pairs[..n]);
      PutSize(PutAll(pairs[..n]), pairs[n]);
    }
  }

  lemma {:induction false} PutSize(fields: seq<Field>, f: Field)
    ensures FieldsTextSize(Put(fields, f)) <= FieldsTextSize(fields) + |f.key| + TextSize(f.value)
  {
    if fields == [] {
      assert [f][1..] == [];
    } else if fields[0].key == f.key {
      assert ([f] + fields[1..])[1..] == fields[1..];
    } else {
      PutSize(fields[1..], f);
      assert Put(fields, f)[1..] == Put(fields[1..], f);
    }
  }

  lemma {:induction false} PutAllSound(pairs: seq<Field>, p: string -> bool)
    requires WfFields(pairs) && NoTupleFields(pairs) && AllNumbersUnder(pairs, p)
    ensures Document(Dict(PutAll(pairs))) && AllNumbersUnder(PutAll(pairs), p)
  {
    if pairs == [] {
    } else {
      var n := |pairs| - 1;
      assert pairs == pairs[..n] + [pairs[n]];
      SizeOfInit(pairs[..n], pairs[n], p);
      PutAllSound(pairs[..n], p);
      PutDistinctKeys(PutAll(pairs[..n]), pairs[n]);
      PutSound(PutAll(pairs[..n]), pairs[n]);
      PutNumbers(PutAll(pairs[..n]), pairs[n], p);
    }
  }

  // ---- the grammar takes more characters than the value holds ----

  lemma {:induction false} ValueSound(s: string)
    requires ReadValue(s).Some?
    ensures Raw(ReadValue(s).value.0)
    ensures TextSize(ReadValue(s).value.0) + |ReadValue(s).value.1| < |s|
    decreases |s|, 0
  {
    if s[0] == '[' {
      var t := SkipSpace(s[1..]);
      if t == "" || t[0] != ']' {
        ItemsSound(t);
      }
    } else if s[0] == '{' {
      var t := SkipSpace(s[1..]);
      if t == "" || t[0] != '}' {
        FieldsSound(t);
      }
    }
  }

  lemma {:induction false} ItemsSound(s: string)
    requires ReadItems(s).Some?
    ensures NoTupleItems(ReadItems(s).value.0) && AllNumbersIn(ReadItems(s).value.0, Numbers())
    ensures ItemsTextSize(ReadItems(s).value.0) + |ReadItems(s).value.1| < |s|
    decreases |s|, 1
  {
    ValueSound(s);
    var t := SkipSpace(ReadValue(s).value.1);
    var items := ReadItems(s).value.0;
    if t[0] == ',' {
      ItemsSound(SkipSpace(t[1..]));
      assert items[1..] == ReadItems(SkipSpace(t[1..])).value.0;
    } else {
      assert items[1..] == [];
    }
  }

  lemma {:induction false} FieldSound(s: string)
    requires ReadField(s).Some?
    ensures Raw(ReadField(s).value.0.value)
    ensures |ReadField(s).value.0.key| + TextSize(ReadField(s).value.0.value) + |ReadField(s).value.1| < |s|
    decreases |s|, 1
  {
    var rest := ReadString(s[1..]).value.1;
    ValueSound(SkipSpace(SkipSpace(rest)[1..]));
  }

  lemma {:induction false} FieldsSound(s: string)
    requires ReadFields(s).Some?
    ensures NoTupleFields(ReadFields(s).value.0) && AllNumbersUnder(ReadFields(s).value.0, Numbers())
    ensures FieldsTextSize(ReadFields(s).value.0) + |ReadFields(s).value.1| < |s|
    decreases |s|, 2
  {
    FieldSound(s);
    var t := SkipSpace(ReadField(s).value.1);
    var pairs := ReadFields(s).value.0;
    if t[0] == ',' {
      FieldsSound(SkipSpace(t[1..]));
      assert pairs[1..] == ReadFields(SkipSpace(t[1..])).value.0;
    } else {
      assert pairs[1..] == [];
    }
  }

  lemma ParseSound(s: string)
    requires Parse(s).Some?
    ensures Raw(Parse(s).value) && TextSize(Parse(s).value) < |s|
  {
    ValueSound(SkipSpace(s));
  }

  // ---- what is read is well formed, stable and no bigger ----

  lemma {:induction false} MergedSize(v: Json, floats: string -> string)
    ensures TextSize(Merged(v, floats)) <= TextSize(v)
    decreases v, 0
  {
    match v
    case List(items) => MergedItemsSize(items, floats);
    case Tuple(items) => MergedItemsSize(items, floats);
    case Dict(fields) =>
      MergedFieldsSize(fields, floats);
      PutAllSize(MergedFields(fields, floats));
    case _ =>
  }

  lemma {:induction false} MergedItemsSize(items: seq<Json>, floats: string -> string)
    ensures ItemsTextSize(MergedItems(items, floats)) <= ItemsTextSize(items)
    decreases items, 1
  {
    if items == [] {
    } else {
      MergedSize(items[0], floats);
      MergedItemsSize(items[1..], floats);
    }
  }

  lemma {:induction false} MergedFieldsSize(fields: seq<Field>, floats: string -> string)
    ensures FieldsTextSize(MergedFields(fields, floats)) <= FieldsTextSize(fields)
    decreases fields, 1
  {
    if fields == [] {
    } else {
      MergedSize(fields[0].value, floats);
      MergedFieldsSize(fields[1..], floats);
    }
  }

  /** A number, once read, is one that prints and reads back as it is. */
  lemma ReprintedSettles(l: string, floats: string -> string)
    requires PrintsFloats(floats) && IsNumber(l) && !TooLong(l)
    ensures IsNumber(Reprinted(l, floats)) && Settled(floats)(Reprinted(l, floats))
  {
    ZeroIsInteger("0");
  }

  lemma ZeroIsInteger(zero: string)
    requires zero == "0"
    ensures IsInteger(zero)
  {
    assert IntegerEnd(zero, 0) == 1;
  }

  lemma {:induction false} MergedIsStable(v: Json, floats: string -> string)
    requires Raw(v) && Prints(v) && PrintsFloats(floats)
    ensures Stable(Merged(v, floats), floats)
    decreases v, 0
  {
    match v
    case Num(literal) => ReprintedSettles(literal, floats);
    case List(items) => MergedItemsAreStable(items, floats);
    case Dict(fields) =>
      MergedFieldsAreStable(fields, floats);
      PutAllSound(MergedFields(fields, floats), Settled(floats));
    case _ =>
  }

  lemma {:induction false} MergedItemsAreStable(items: seq<Json>, floats: string -> string)
    requires NoTupleItems(items) && AllNumbersIn(items, Numbers()) && AllNumbersIn(items, NotTooLong())
    requires PrintsFloats(floats)
    ensures var r := MergedItems(items, floats); WfItems(r) && NoTupleItems(r) && AllNumbersIn(r, Settled(floats))
    decreases items, 1
  {
    if items == [] {
    } else {
      MergedIsStable(items[0], floats);
      MergedItemsAreStable(items[1..], floats);
    }
  }

  lemma {:induction false} MergedFieldsAreStable(fields: seq<Field>, floats: string -> string)
    requires NoTupleFields(fields) && AllNumbersUnder(fields, Numbers()) && AllNumbersUnder(fields, NotTooLong())
    requires PrintsFloats(floats)
    ensures var r := MergedFields(fields, floats);
            WfFields(r) && NoTupleFields(r) && AllNumbersUnder(r, Settled(floats))
    decreases fields, 1
  {
    if fields == [] {
    } else {
      MergedIsStable(fields[0].value, floats);
      MergedFieldsAreStable(fields[1..], floats);
    }
  }

  /** What is read holds less text than was read, prints, and is read back from its text as it is. */
  lemma LoadsSound(s: string, floats: string -> string)
    requires Loads(s, floats).Some?
    ensures TextSize(Loads(s, floats).value) < |s|
    ensures PrintsFloats(floats) ==> Stable(Loads(s, floats).value, floats)
  {
    ParseSound(s);
    MergedSize(Parse(s).value, floats);
    if PrintsFloats(floats) {
      MergedIsStable(Parse(s).value, floats);
    }
  }

  // ---- reading what was printed ----

  lemma {:induction false} SettledPrints(v: Json, floats: string -> string)
    requires AllNumbers(v, Settled(floats))
    ensures Prints(v)
    decreases v, 0
  {
    match v
    case List(items) => SettledItemsPrint(items, floats);
    case Tuple(items) => SettledItemsPrint(items, floats);
    case Dict(fields) => SettledFieldsPrint(fields, floats);
    case _ =>
  }

  lemma {:induction false} SettledItemsPrint(items: seq<Json>, floats: string -> string)
    requires AllNumbersIn(items, Settled(floats))
    ensures AllNumbersIn(items, NotTooLong())
    decreases items, 1
  {
    if items == [] {
    } else {
      SettledPrints(items[0], floats);
      SettledItemsPrint(items[1..], floats);
    }
  }

  lemma {:induction false} SettledFieldsPrint(fields: seq<Field>, floats: string -> string)
    requires AllNumbersUnder(fields, Settled(floats))
    ensures AllNumbersUnder(fields, NotTooLong())
    decreases fields, 1
  {
    if fields == [] {
    } else {
      SettledPrints(fields[0].value, floats);
      SettledFieldsPrint(fields[1..], floats);
    }
  }

  lemma {:induction false} StableIsMerged(v: Json, floats: string -> string)
    requires Wf(v) && AllNumbers(v, Settled(floats))
    ensures Merged(v, floats) == v
    decreases v, 0
  {
    match v
    case List(items) => StableItemsAreMerged(items, floats);
    case Tuple(items) => StableItemsAreMerged(items, floats);
    case Dict(fields) =>
      StableFieldsAreMerged(fields, floats);
      PutDistinct(fields);
    case _ =>
  }

  lemma {:induction false} StableItemsAreMerged(items: seq<Json>, floats: string -> string)
    requires WfItems(items) && AllNumbersIn(items, Settled(floats))
    ensures MergedItems(items, floats) == items
    decreases items, 1
  {
    if items == [] {
    } else {
      StableIsMerged(items[0], floats);
      StableItemsAreMerged(items[1..], floats);
    }
  }

  lemma {:induction false} StableFieldsAreMerged(fields: seq<Field>, floats: string -> string)
    requires WfFields(fields) && AllNumbersUnder(fields, Settled(floats))
    ensures MergedFields(fields, floats) == fields
    decreases fields, 1
  {
    if fields == [] {
    } else {
      StableIsMerged(fields[0].value, floats);
      StableFieldsAreMerged(fields[1..], floats);
    }
  }

  lemma {:induction false} ListedNumbers(v: Json, p: string -> bool)
    ensures AllNumbers(Listed(v), p) <==> AllNumbers(v, p)
    decreases v, 0
  {
    match v
    case List(items) => ListedItemsNumbers(items, p);
    case Tuple(items) => ListedItemsNumbers(items, p);
    case Dict(fields) => ListedFieldsNumbers(fields, p);
    case _ =>
  }

  lemma {:induction false} ListedItemsNumbers(items: seq<Json>, p: string -> bool)
    ensures AllNumbersIn(ListedItems(items), p) <==> AllNumbersIn(items, p)
    decreases items, 1
  {
    if items == [] {
    } else {
      ListedNumbers(items[0], p);
      ListedItemsNumbers(items[1..], p);
    }
  }

  lemma {:induction false} ListedFieldsNumbers(fields: seq<Field>, p: string -> bool)
    ensures AllNumbersUnder(ListedFields(fields), p) <==> AllNumbersUnder(fields, p)
    decreases fields, 1
  {
    if fields == [] {
    } else {
      ListedNumbers(fields[0].value, p);
      ListedFieldsNumbers(fields[1..], p);
    }
  }

  lemma {:induction false} ListedWf(v: Json)
    requires Wf(v)
    ensures Wf(Listed(v))
    decreases v, 0
  {
    match v
    case List(items) => ListedItemsWf(items);
    case Tuple(items) => ListedItemsWf(items);
    case Dict(fields) =>
      ListedFieldsWf(fields);
      ListedKeys(fields);
    case _ =>
  }

  lemma {:induction false} ListedItemsWf(items: seq<Json>)
    requires WfItems(items)
    ensures WfItems(ListedItems(items))
    decreases items, 1
  {
    if items == [] {
    } else {
      ListedWf(items[0]);
      ListedItemsWf(items[1..]);
    }
  }

  lemma {:induction false} ListedFieldsWf(fields: seq<Field>)
    requires WfFields(fields)
    ensures WfFields(ListedFields(fields))
    decreases fields, 1
  {
    if fields == [] {
    } else {
      ListedWf(fields[0].value);
      ListedFieldsWf(fields[1..]);
    }
  }

  lemma {:induction false} ListedDocument(v: Json)
    requires NoTuple(v)
    ensures Listed(v) == v
    decreases v, 0
  {
    match v
    case List(items) => ListedDocumentItems(items);
    case Dict(fields) => ListedDocumentFields(fields);
    case _ =>
  }

  lemma {:induction false} ListedDocumentItems(items: seq<Json>)
    requires NoTupleItems(items)
    ensures ListedItems(items) == items
    decreases items, 1
  {
    if items == [] {
    } else {
      ListedDocument(items[0]);
      ListedDocumentItems(items[1..]);
    }
  }

  lemma {:induction false} ListedDocumentFields(fields: seq<Field>)
    requires NoTupleFields(fields)
    ensures ListedFields(fields) == fields
    decreases fields, 1
  {
    if fields == [] {
    } else {
      ListedDocument(fields[0].value);
      ListedDocumentFields(fields[1..]);
    }
  }
}
