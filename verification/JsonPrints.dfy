/**
  What `json.dumps` prints: of all the JSON texts that mean a value, the ASCII one with Python's
  default separators, the short escapes and lower-case code units.
 */
module JsonPrints {
  import opened Json
  import opened JsonGrammar
  import JsonReads
  import JsonLoads
  import Decimal

  predicate Lower(hex: string) {
    forall i :: 0 <= i < |hex| ==> !('A' <= hex[i] <= 'F')
  }

  /** Printable ASCII as it is or by its letter, everything else by its letter or in code units. */
  predicate UsualPiece(p: Piece)
    requires IsPiece(p)
  {
    match p
    case Plain(c) => c as int <= 0x7E
    case Short(letter) => letter != '/'
    case Unit(hex) =>
      Lower(hex) && !(0x20 <= HexNumber(hex) <= 0x7E) && HexNumber(hex) !in {0x08, 0x09, 0x0A, 0x0C, 0x0D}
    case Pair(high, low) => Lower(high) && Lower(low)
  }

  predicate UsualBody(body: seq<Piece>)
    requires IsBody(body)
  {
    forall i :: 0 <= i < |body| ==> UsualPiece(body[i])
  }

  /** No blanks but one space after every comma and colon. */
  ghost predicate Usual(t: Tree)
    requires IsTree(t)
    decreases t, 0
  {
    match t
    case Text(body, _) => UsualBody(body)
    case Array(inner, items) => inner == "" && UsualItems(items, "")
    case Object(inner, members) => inner == "" && UsualMembers(members, "")
    case _ => true
  }

  ghost predicate UsualItems(items: seq<Item>, before: string)
    requires AreItems(items)
    decreases items, 1
  {
    items == []
    || (items[0].before == before && Usual(items[0].value) && items[0].after == "" && UsualItems(items[1..], " "))
  }

  ghost predicate UsualMembers(members: seq<Member>, before: string)
    requires AreMembers(members)
    decreases members, 1
  {
    members == []
    || (members[0].before == before && UsualMember(members[0]) && UsualMembers(members[1..], " "))
  }

  ghost predicate UsualMember(m: Member)
    requires IsMember(m)
    decreases m, 0
  {
    UsualBody(m.body) && m.afterKey == "" && m.beforeValue == " " && Usual(m.value) && m.after == ""
  }

  // ---- characters ----

  lemma Hex4IsUnit(n: nat)
    requires n < 0x10000
    ensures IsHex(Hex4(n)) && HexNumber(Hex4(n)) == n && Lower(Hex4(n))
  {
    JsonLoads.HexDigitRead(n / 4096);
    JsonLoads.HexDigitRead(n / 256 % 16);
    JsonLoads.HexDigitRead(n / 16 % 16);
    JsonLoads.HexDigitRead(n % 16);
    JsonLoads.Hex4Read(n, "");
    assert Hex4(n) + "" == Hex4(n);
    JsonReads.ReadIsHex(Hex4(n));
    assert Hex4(n)[..4] == Hex4(n);
  }

  lemma CharPrints(c: char) returns (p: Piece)
    ensures IsPiece(p) && UsualPiece(p) && CodePoint(p) == c as int && PieceText(p) == EscapeChar(c)
  {
    var v := c as int;
    if ShortEscape(c) != "" {
      p := Short(ShortEscape(c)[0]);
    } else if ' ' <= c <= '~' {
      p := Plain(c);
    } else if v < 0x10000 {
      Hex4IsUnit(v);
      p := Unit(Hex4(v));
    } else {
      p := PairPrints(v - 0x10000);
    }
  }

  lemma PairPrints(v: nat) returns (p: Piece)
    requires v < 0x100000
    ensures IsPiece(p) && UsualPiece(p) && CodePoint(p) == v + 0x10000
    ensures PieceText(p) == "\\u" + SurrogatePair(v / 0x400, v % 0x400)
  {
    var high, low := 0xD800 + v / 0x400, 0xDC00 + v % 0x400;
    Hex4IsUnit(high);
    Hex4IsUnit(low);
    p := Pair(Hex4(high), Hex4(low));
    JsonLoads.Assoc(Hex4(high), "\\u", Hex4(low));
    JsonLoads.Assoc("\\u", Hex4(high), "\\u" + Hex4(low));
  }

  lemma {:induction false} TextPrints(text: string, rest: string) returns (body: seq<Piece>)
    ensures Spells(body, text) && UsualBody(body) && BodyText(body, rest) == Escape(text) + ("\"" + rest)
  {
    if text == "" {
      body := [];
    } else {
      var p := CharPrints(text[0]);
      var more := TextPrints(text[1..], rest);
      body := [p] + more;
      assert body[1..] == more;
      JsonLoads.Assoc(EscapeChar(text[0]), Escape(text[1..]), "\"" + rest);
    }
  }

  lemma QuotePrints(text: string, rest: string) returns (body: seq<Piece>)
    ensures Spells(body, text) && UsualBody(body) && "\"" + BodyText(body, rest) == Quote(text) + rest
  {
    body := TextPrints(text, rest);
    JsonLoads.Assoc("\"" + Escape(text), "\"", rest);
    JsonLoads.Assoc("\"", Escape(text), "\"" + rest);
  }

  // ---- values ----

  lemma {:induction false} ValuePrints(v: Json, rest: string) returns (t: Tree)
    requires Wf(v)
    ensures IsTree(t) && Usual(t) && Meaning(t) == Listed(v) && TreeText(t, rest) == Dumps(v) + rest
    decreases v, 0
  {
    match v
    case Null => t := Name(v);
    case Bool(b) => t := Name(v);
    case Num(literal) =>
      var numeral := JsonReads.NumberIsNumeral(literal);
      t := Number(numeral);
    case Str(text) =>
      var body := QuotePrints(text, rest);
      t := Text(body, text);
    case List(items) => t := ListPrints(items, rest);
    case Tuple(items) => t := ListPrints(items, rest);
    case Dict(fields) => t := DictPrints(fields, rest);
  }

  lemma {:induction false} ListPrints(items: seq<Json>, rest: string) returns (t: Tree)
    requires WfItems(items)
    ensures IsTree(t) && Usual(t) && Meaning(t) == List(ListedItems(items))
    ensures TreeText(t, rest) == "[" + DumpsItems(items) + "]" + rest
    decreases items, 2
  {
    JsonLoads.Assoc("[" + DumpsItems(items), "]", rest);
    JsonLoads.Assoc("[", DumpsItems(items), "]" + rest);
    if items == [] {
      t := Array("", []);
      assert DumpsItems(items) + ("]" + rest) == "" + ("]" + rest);
    } else {
      var trees := ItemsPrint(items, "", rest);
      t := Array("", trees);
      assert "" + (DumpsItems(items) + ("]" + rest)) == DumpsItems(items) + ("]" + rest);
    }
  }

  lemma {:induction false} ItemsPrint(items: seq<Json>, before: string, rest: string) returns (trees: seq<Item>)
    requires WfItems(items) && items != [] && Blank(before)
    ensures trees != [] && AreItems(trees) && UsualItems(trees, before) && ItemMeanings(trees) == ListedItems(items)
    ensures ItemsText(trees, rest) == before + (DumpsItems(items) + ("]" + rest))
    decreases items, 1
  {
    if |items| == 1 {
      var t := ValuePrints(items[0], "]" + rest);
      trees := [Item(before, t, "")];
      assert trees[1..] == [] && ListedItems(items) == [Listed(items[0])];
      assert "" + ("]" + rest) == "]" + rest;
    } else {
      var more := ItemsPrint(items[1..], " ", rest);
      var t := ValuePrints(items[0], "," + ItemsText(more, rest));
      trees := [Item(before, t, "")] + more;
      assert trees[1..] == more;
      assert "" + ("," + ItemsText(more, rest)) == "," + ItemsText(more, rest);
      JsonLoads.Assoc(Dumps(items[0]) + ", ", DumpsItems(items[1..]), "]" + rest);
      CommaSpace(Dumps(items[0]), DumpsItems(items[1..]) + ("]" + rest));
    }
  }

  lemma CommaSpace(first: string, more: string)
    ensures first + ("," + (" " + more)) == first + ", " + more
  {
    JsonLoads.Assoc(first, ", ", more);
    assert "," + (" " + more) == ", " + more;
  }

  lemma {:induction false} DictPrints(fields: seq<Field>, rest: string) returns (t: Tree)
    requires WfFields(fields)
    ensures IsTree(t) && Usual(t) && Meaning(t) == Dict(ListedFields(fields))
    ensures TreeText(t, rest) == "{" + DumpsFields(fields) + "}" + rest
    decreases fields, 3
  {
    JsonLoads.Assoc("{" + DumpsFields(fields), "}", rest);
    JsonLoads.Assoc("{", DumpsFields(fields), "}" + rest);
    if fields == [] {
      t := Object("", []);
      assert DumpsFields(fields) + ("}" + rest) == "" + ("}" + rest);
    } else {
      var members := FieldsPrint(fields, "", rest);
      t := Object("", members);
      assert "" + (DumpsFields(fields) + ("}" + rest)) == DumpsFields(fields) + ("}" + rest);
    }
  }

  lemma {:induction false} FieldPrints(f: Field, before: string, rest: string) returns (m: Member)
    requires Wf(f.value) && Blank(before)
    ensures IsMember(m) && m.before == before && UsualMember(m)
    ensures Field(m.key, Meaning(m.value)) == Field(f.key, Listed(f.value))
    ensures MemberText(m, rest) == before + (Quote(f.key) + ": " + Dumps(f.value) + rest)
    decreases f, 1
  {
    var t := ValuePrints(f.value, rest);
    var tail := "" + (":" + (" " + TreeText(t, rest)));
    var body := QuotePrints(f.key, tail);
    m := Member(before, body, f.key, "", " ", t, "");
    assert "" + rest == rest;
    FieldText(Quote(f.key), Dumps(f.value), rest, tail);
  }

  lemma FieldText(key: string, value: string, rest: string, tail: string)
    requires tail == "" + (":" + (" " + (value + rest)))
    ensures key + tail == key + ": " + value + rest
  {
    assert tail == ": " + (value + rest);
    JsonLoads.Assoc(key + ": ", value, rest);
    JsonLoads.Assoc(key, ": ", value + rest);
  }

  lemma {:induction false} FieldsPrint(fields: seq<Field>, before: string, rest: string) returns (members: seq<Member>)
    requires WfFields(fields) && fields != [] && Blank(before)
    ensures members != [] && AreMembers(members) && UsualMembers(members, before)
    ensures MemberMeanings(members) == ListedFields(fields)
    ensures MembersText(members, rest) == before + (DumpsFields(fields) + ("}" + rest))
    decreases fields, 2
  {
    var first := Quote(fields[0].key) + ": " + Dumps(fields[0].value);
    if |fields| == 1 {
      var m := FieldPrints(fields[0], before, "}" + rest);
      members := [m];
      assert members[1..] == [] && ListedFields(fields) == [Field(m.key, Meaning(m.value))];
    } else {
      var more := FieldsPrint(fields[1..], " ", rest);
      var m := FieldPrints(fields[0], before, "," + MembersText(more, rest));
      members := [m] + more;
      assert members[1..] == more;
      JsonLoads.Assoc(first + ", ", DumpsFields(fields[1..]), "}" + rest);
      CommaSpace(first, DumpsFields(fields[1..]) + ("}" + rest));
    }
  }

  /** What is printed is JSON text that means the value with its tuples as lists, laid out as usual. */
  lemma DumpsIsUsual(v: Json) returns (t: Tree)
    requires Wf(v)
    ensures IsTree(t) && Usual(t) && Meaning(t) == Listed(v) && Dumps(v) == TreeText(t, "")
  {
    t := ValuePrints(v, "");
    assert Dumps(v) + "" == Dumps(v);
  }
}
