/**
  What JSON text is, said without a reader (sections 2 to 7 of RFC 8259, and the three names that
  Python adds): a syntax tree that keeps the blanks around every token and the spelling of every
  character and number, the text that it writes, and the value that it means.
 */
module JsonGrammar {
  import opened Json

  // ---- blanks ----

  predicate Blank(s: string) {
    forall i :: 0 <= i < |s| ==> s[i] in {' ', '\t', '\n', '\r'}
  }

  // ---- strings ----

  /** How one character is spelled: as itself, by a letter, by a code unit or by a surrogate pair. */
  datatype Piece = Plain(c: char) | Short(letter: char) | Unit(hex: string) | Pair(high: string, low: string)

  /** What a letter after a backslash stands for; nothing for any other character. */
  function LetterPoint(letter: char): int {
    if letter == '\"' then 0x22 else if letter == '\\' then 0x5C else if letter == '/' then 0x2F
    else if letter == 'b' then 0x08 else if letter == 'f' then 0x0C else if letter == 'n' then 0x0A
    else if letter == 'r' then 0x0D else if letter == 't' then 0x09 else -1
  }

  predicate IsHexDigit(c: char) {
    '0' <= c <= '9' || 'A' <= c <= 'F' || 'a' <= c <= 'f'
  }

  function Nibble(c: char): nat
    requires IsHexDigit(c)
  {
    c as int - if c <= '9' then 48 else if c <= 'F' then 55 else 87
  }

  predicate IsHex(s: string) {
    |s| == 4 && IsHexDigit(s[0]) && IsHexDigit(s[1]) && IsHexDigit(s[2]) && IsHexDigit(s[3])
  }

  function HexNumber(s: string): nat
    requires IsHex(s)
  {
    ((Nibble(s[0]) * 16 + Nibble(s[1])) * 16 + Nibble(s[2])) * 16 + Nibble(s[3])
  }

  predicate IsPiece(p: Piece) {
    match p
    case Plain(c) => c as int >= 0x20 && c != '\"' && c != '\\'
    case Short(letter) => LetterPoint(letter) >= 0
    case Unit(hex) => IsHex(hex) && !(0xD800 <= HexNumber(hex) < 0xE000)
    case Pair(high, low) =>
      IsHex(high) && 0xD800 <= HexNumber(high) < 0xDC00 && IsHex(low) && 0xDC00 <= HexNumber(low) < 0xE000
  }

  /** The code point that a piece spells. */
  function CodePoint(p: Piece): int
    requires IsPiece(p)
  {
    match p
    case Plain(c) => c as int
    case Short(letter) => LetterPoint(letter)
    case Unit(hex) => HexNumber(hex)
    case Pair(high, low) => (HexNumber(high) - 0xD800) * 0x400 + (HexNumber(low) - 0xDC00) + 0x10000
  }

  function PieceText(p: Piece): string {
    match p
    case Plain(c) => [c]
    case Short(letter) => "\\" + [letter]
    case Unit(hex) => "\\u" + hex
    case Pair(high, low) => "\\u" + high + ("\\u" + low)
  }

  predicate IsBody(body: seq<Piece>) {
    forall i :: 0 <= i < |body| ==> IsPiece(body[i])
  }

  /** The text that the pieces spell. */
  ghost predicate Spells(body: seq<Piece>, text: string) {
    |text| == |body| && IsBody(body) && forall i :: 0 <= i < |body| ==> CodePoint(body[i]) == text[i] as int
  }

  /** The pieces, the closing quote, and `rest`. */
  function BodyText(body: seq<Piece>, rest: string): string {
    if body == [] then "\"" + rest else PieceText(body[0]) + BodyText(body[1..], rest)
  }

  // ---- numbers ----

  /** A name, or a sign, a whole part, a fraction and an exponent. */
  datatype Numeral = Named(name: string) | Numeral(minus: string, whole: string, fraction: string, exponent: string)

  predicate Digits(s: string) {
    s != "" && forall i :: 0 <= i < |s| ==> '0' <= s[i] <= '9'
  }

  predicate IsFraction(s: string) {
    s == "" || (s[0] == '.' && Digits(s[1..]))
  }

  predicate IsExponent(s: string) {
    s == "" || ((s[0] == 'e' || s[0] == 'E') && (Digits(s[1..]) || (|s| > 1 && s[1] in {'+', '-'} && Digits(s[2..]))))
  }

  predicate IsNumeral(n: Numeral) {
    match n
    case Named(name) => name in {"NaN", "Infinity", "-Infinity"}
    case Numeral(minus, whole, fraction, exponent) =>
      && (minus == "" || minus == "-")
      && Digits(whole) && (whole == "0" || whole[0] != '0')
      && IsFraction(fraction) && IsExponent(exponent)
  }

  function NumeralText(n: Numeral): string {
    match n
    case Named(name) => name
    case Numeral(minus, whole, fraction, exponent) => minus + (whole + (fraction + exponent))
  }

  // ---- values ----

  datatype Tree =
    | Name(value: Json)
    | Number(numeral: Numeral)
    | Text(body: seq<Piece>, text: string)
    | Array(inner: string, items: seq<Item>)
    | Object(inner: string, members: seq<Member>)

  /** A value and the blanks around it. */
  datatype Item = Item(before: string, value: Tree, after: string)

  /** A key, a value, and the blanks around both. */
  datatype Member = Member(
    before: string,
    body: seq<Piece>,
    key: string,
    afterKey: string,
    beforeValue: string,
    value: Tree,
    after: string)

  const NAMES: map<Json, string> := map[Null := "null", Bool(true) := "true", Bool(false) := "false"]

  ghost predicate IsTree(t: Tree)
    decreases t, 0
  {
    match t
    case Name(value) => value in NAMES
    case Number(numeral) => IsNumeral(numeral)
    case Text(body, text) => Spells(body, text)
    case Array(inner, items) => Blank(inner) && AreItems(items)
    case Object(inner, members) => Blank(inner) && AreMembers(members)
  }

  ghost predicate AreItems(items: seq<Item>)
    decreases items, 1
  {
    items == []
    || (Blank(items[0].before) && IsTree(items[0].value) && Blank(items[0].after) && AreItems(items[1..]))
  }

  ghost predicate AreMembers(members: seq<Member>)
    decreases members, 1
  {
    members == [] || (IsMember(members[0]) && AreMembers(members[1..]))
  }

  ghost predicate IsMember(m: Member)
    decreases m, 0
  {
    && Blank(m.before) && Spells(m.body, m.key) && Blank(m.afterKey)
    && Blank(m.beforeValue) && IsTree(m.value) && Blank(m.after)
  }

  /** The text of `t`, and then `rest`. */
  function TreeText(t: Tree, rest: string): string
    decreases t, 0
  {
    match t
    case Name(value) => (if value in NAMES then NAMES[value] else "") + rest
    case Number(numeral) => NumeralText(numeral) + rest
    case Text(body, _) => "\"" + BodyText(body, rest)
    case Array(inner, items) => "[" + (if items == [] then inner + ("]" + rest) else ItemsText(items, rest))
    case Object(inner, members) => "{" + (if members == [] then inner + ("}" + rest) else MembersText(members, rest))
  }

  /** Items with commas between them, the closing bracket, and `rest`. */
  function ItemsText(items: seq<Item>, rest: string): string
    decreases items, 1
  {
    if items == [] then ""
    else
      var next := if |items| == 1 then "]" + rest else "," + ItemsText(items[1..], rest);
      items[0].before + TreeText(items[0].value, items[0].after + next)
  }

  function MembersText(members: seq<Member>, rest: string): string
    decreases members, 1
  {
    if members == [] then ""
    else
      MemberText(members[0], if |members| == 1 then "}" + rest else "," + MembersText(members[1..], rest))
  }

  function MemberText(m: Member, rest: string): string
    decreases m, 0
  {
    m.before + ("\"" + BodyText(m.body, m.afterKey + (":" + (m.beforeValue + TreeText(m.value, m.after + rest)))))
  }

  /** The value that a tree means: its numbers as written, all its members in order. */
  function Meaning(t: Tree): Json
    decreases t, 0
  {
    match t
    case Name(value) => value
    case Number(numeral) => Num(NumeralText(numeral))
    case Text(_, text) => Str(text)
    case Array(_, items) => List(ItemMeanings(items))
    case Object(_, members) => Dict(MemberMeanings(members))
  }

  function ItemMeanings(items: seq<Item>): seq<Json>
    decreases items, 1
  {
    if items == [] then [] else [Meaning(items[0].value)] + ItemMeanings(items[1..])
  }

  function MemberMeanings(members: seq<Member>): seq<Field>
    decreases members, 1
  {
    if members == [] then []
    else [Field(members[0].key, Meaning(members[0].value))] + MemberMeanings(members[1..])
  }

  /** `s` is `t` between blanks. */
  ghost predicate Lays(s: string, before: string, t: Tree, after: string) {
    Blank(before) && IsTree(t) && Blank(after) && s == before + TreeText(t, after)
  }

  /** `s` is JSON text that means `v`. */
  ghost predicate Denotes(s: string, v: Json) {
    exists before, t, after :: Lays(s, before, t, after) && Meaning(t) == v
  }
}
