/**
  What Python holds after reading JSON text: numbers by value, and of a repeated key its last value
  at its first place; and the round trip of printing and reading.
 */
module JsonValues {
  import opened Wrappers
  import opened Json
  import opened JsonLoads
  import G = JsonGrammar
  import JsonReads
  import JsonPrints
  import Decimal
  import Integers
  import Unicode

  // ---- repeated keys ----

  predicate IsLast(pairs: seq<Field>, k: int) {
    0 <= k < |pairs| && forall m :: k < m < |pairs| ==> pairs[m].key != pairs[k].key
  }

  function Keys(fields: seq<Field>): seq<string> {
    seq(|fields|, i requires 0 <= i < |fields| => fields[i].key)
  }

  /** The keys in order of their first occurrence. */
  function FirstKeys(pairs: seq<Field>): seq<string> {
    if pairs == [] then []
    else
      var before, key := FirstKeys(pairs[..|pairs| - 1]), pairs[|pairs| - 1].key;
      if key in before then before else before + [key]
  }

  lemma {:induction false} PutIs(fields: seq<Field>, f: Field)
    requires DistinctKeys(fields)
    ensures f.key !in Keys(fields) ==> Put(fields, f) == fields + [f]
    ensures forall i :: 0 <= i < |fields| && fields[i].key == f.key ==> Put(fields, f) == fields[i := f]
  {
    if fields == [] {
    } else if fields[0].key == f.key {
      assert Keys(fields)[0] == f.key;
    } else {
      PutIs(fields[1..], f);
      assert forall i :: 0 < i < |fields| ==> fields[i] == fields[1..][i - 1];
      assert f.key !in Keys(fields) ==> f.key !in Keys(fields[1..]) by {
        assert forall i :: 0 <= i < |fields| - 1 ==> Keys(fields[1..])[i] == Keys(fields)[i + 1];
      }
    }
  }

  lemma LastOfOneMore(pairs: seq<Field>, f: Field, k: int)
    ensures IsLast(pairs + [f], k) <==> k == |pairs| || (IsLast(pairs, k) && pairs[k].key != f.key)
  {
    var l := pairs + [f];
    assert l[|pairs|] == f && forall i :: 0 <= i < |pairs| ==> l[i] == pairs[i];
  }

  /** Each key of `pairs` once, at its first place, with its last value. */
  ghost predicate Latest(pairs: seq<Field>, r: seq<Field>) {
    && DistinctKeys(r)
    && Keys(r) == FirstKeys(pairs)
    && forall i :: 0 <= i < |r| ==> exists k :: IsLast(pairs, k) && pairs[k] == r[i]
  }

  lemma KeysOfPut(pairs: seq<Field>, r: seq<Field>, f: Field)
    requires DistinctKeys(r) && Keys(r) == FirstKeys(pairs)
    ensures Keys(Put(r, f)) == FirstKeys(pairs + [f])
  {
    assert (pairs + [f])[..|pairs|] == pairs;
    PutIs(r, f);
    if f.key in Keys(r) {
      var i :| 0 <= i < |r| && Keys(r)[i] == f.key;
      assert Keys(r[i := f]) == Keys(r);
    }
  }

  lemma LatestOfOneMore(pairs: seq<Field>, r: seq<Field>, f: Field)
    requires Latest(pairs, r)
    ensures Latest(pairs + [f], Put(r, f))
  {
    var l, s := pairs + [f], Put(r, f);
    PutDistinctKeys(r, f);
    PutIs(r, f);
    KeysOfPut(pairs, r, f);
    LastOfOneMore(pairs, f, |pairs|);
    forall i | 0 <= i < |s| ensures exists k :: IsLast(l, k) && l[k] == s[i] {
      if s[i] == f {
        assert IsLast(l, |pairs|) && l[|pairs|] == f;
      } else {
        assert s[i] == r[i];
        var k :| IsLast(pairs, k) && pairs[k] == r[i];
        LastOfOneMore(pairs, f, k);
        assert l[k] == pairs[k];
      }
    }
  }

  lemma {:induction false} PutAllIsLatest(pairs: seq<Field>)
    ensures Latest(pairs, PutAll(pairs))
  {
    if pairs == [] {
    } else {
      var n := |pairs| - 1;
      PutAllIsLatest(pairs[..n]);
      LatestOfOneMore(pairs[..n], PutAll(pairs[..n]), pairs[n]);
      assert pairs == pairs[..n] + [pairs[n]];
    }
  }

  // ---- numbers ----

  /** An optional minus sign and digits. */
  predicate WritesInteger(s: string) {
    G.Digits(s) || (s != "" && s[0] == '-' && G.Digits(s[1..]))
  }

  /** Integers are the numbers without fraction and exponent. */
  lemma IntegerIff(s: string)
    requires IsNumber(s)
    ensures IsInteger(s) <==> WritesInteger(s)
    ensures TooLong(s) <==> WritesInteger(s) && |s| - (if s[0] == '-' then 1 else 0) > 4300
  {
    assert s == "-Infinity" ==> s[1] == 'I';
    if IsInteger(s) {
      IntegerDigits(s);
    }
    assert s[0] == '-' ==> forall i :: 0 < i < |s| ==> s[i] == s[1..][i - 1];
  }

  lemma IntegerDigits(s: string)
    requires IsInteger(s)
    ensures var whole := if s[0] == '-' then s[1..] else s; Decimal.IsNumeral(whole) && WritesInteger(s)
  {
    assert s[|s| - 1] != 'N' && s[|s| - 1] != 'y';
    var i := if s[0] == '-' then 1 else 0;
    assert IntegerEnd(s, i) == |s|;
    JsonReads.WholePart(s, i);
    assert s[i..] == s[i..|s|] && (i == 0 ==> s[i..] == s);
  }

  /** An integer prints as `str` prints the value that `int` reads. */
  lemma IntegerReprints(s: string, floats: string -> string)
    requires IsInteger(s) && !TooLong(s)
    ensures Integers.ParseInt(s).Some?
    ensures Integers.PrintInt(Integers.ParseInt(s).value) == Some(Reprinted(s, floats))
  {
    IntegerDigits(s);
    var sign, whole := if s[0] == '-' then "-" else "", if s[0] == '-' then s[1..] else s;
    assert s == sign + whole;
    SignedReprints(sign, whole);
    assert s == "-0" <==> sign == "-" && whole == "0";
  }

  lemma SignedReprints(sign: string, whole: string)
    requires (sign == "" || sign == "-") && Decimal.IsNumeral(whole) && |whole| <= Decimal.MAX_DIGITS
    ensures Integers.ParseInt(sign + whole).Some?
    ensures Integers.PrintInt(Integers.ParseInt(sign + whole).value)
         == Some(if whole == "0" then "0" else sign + whole)
  {
    Unicode.ParseAscii(whole);
    Integers.DigitsAreParsed(sign, whole);
    Decimal.PrintParse(whole);
    if whole == "0" {
      assert Decimal.Digit(0) == '0';
      assert Decimal.Print(0) == "0" && "" + "0" == "0";
      assert whole[..0] == "" && Decimal.Parse(whole) == 0;
    }
  }

  // ---- values ----

  /** `r` is how a number written `s` prints once it is read. */
  ghost predicate SameNumber(s: string, r: string, floats: string -> string) {
    if WritesInteger(s)
    then exists n: int :: Integers.ParseInt(s) == Some(n) && Integers.PrintInt(n) == Some(r)
    else r == floats(s)
  }

  /** Python holds `r` after reading what the grammar finds as `v`. */
  ghost predicate Holds(v: Json, r: Json, floats: string -> string)
    decreases v
  {
    match v
    case Num(literal) => r.Num? && SameNumber(literal, r.literal, floats)
    case List(items) =>
      r.List? && |r.items| == |items| && forall i :: 0 <= i < |items| ==> Holds(items[i], r.items[i], floats)
    case Tuple(_) => false
    case Dict(fields) =>
      && r.Dict?
      && Keys(r.fields) == FirstKeys(fields)
      && forall i :: 0 <= i < |r.fields| ==> LastHolds(fields, r.fields[i], floats)
    case _ => r == v
  }

  /** `f` has the value of the last field with its key. */
  ghost predicate LastHolds(fields: seq<Field>, f: Field, floats: string -> string)
    decreases fields
  {
    exists k :: IsLast(fields, k) && fields[k].key == f.key && Holds(fields[k].value, f.value, floats)
  }

  lemma {:induction false} MergedAt(items: seq<Json>, i: nat, floats: string -> string)
    requires i < |items|
    ensures MergedItems(items, floats)[i] == Merged(items[i], floats)
  {
    if i > 0 {
      MergedAt(items[1..], i - 1, floats);
    }
  }

  lemma {:induction false} MergedFieldAt(fields: seq<Field>, i: nat, floats: string -> string)
    requires i < |fields|
    ensures MergedFields(fields, floats)[i] == Field(fields[i].key, Merged(fields[i].value, floats))
  {
    if i > 0 {
      MergedFieldAt(fields[1..], i - 1, floats);
    }
  }

  lemma {:induction false} SameKeys(a: seq<Field>, b: seq<Field>)
    requires |a| == |b| && forall i :: 0 <= i < |a| ==> a[i].key == b[i].key
    ensures FirstKeys(a) == FirstKeys(b)
    ensures forall k :: IsLast(a, k) <==> IsLast(b, k)
  {
    if a == [] {
    } else {
      SameKeys(a[..|a| - 1], b[..|b| - 1]);
    }
  }

  lemma {:induction false} RawAt(items: seq<Json>, i: nat)
    requires NoTupleItems(items) && AllNumbersIn(items, Numbers()) && AllNumbersIn(items, NotTooLong()) && i < |items|
    ensures Raw(items[i]) && Prints(items[i])
  {
    if i > 0 {
      RawAt(items[1..], i - 1);
    }
  }

  lemma {:induction false} RawFieldAt(fields: seq<Field>, i: nat)
    requires NoTupleFields(fields) && i < |fields|
    requires AllNumbersUnder(fields, Numbers()) && AllNumbersUnder(fields, NotTooLong())
    ensures Raw(fields[i].value) && Prints(fields[i].value)
  {
    if i > 0 {
      RawFieldAt(fields[1..], i - 1);
    }
  }

  lemma NumberHolds(s: string, floats: string -> string)
    requires IsNumber(s) && !TooLong(s)
    ensures SameNumber(s, Reprinted(s, floats), floats)
  {
    IntegerIff(s);
    if IsInteger(s) {
      IntegerReprints(s, floats);
    }
  }

  lemma {:induction false} MergedHolds(v: Json, floats: string -> string)
    requires Raw(v) && Prints(v)
    ensures Holds(v, Merged(v, floats), floats)
    decreases v
  {
    match v
    case Num(literal) => NumberHolds(literal, floats);
    case List(items) =>
      forall i | 0 <= i < |items| ensures Holds(items[i], MergedItems(items, floats)[i], floats) {
        RawAt(items, i);
        MergedAt(items, i, floats);
        MergedHolds(items[i], floats);
      }
    case Dict(fields) =>
      forall i | 0 <= i < |fields|
        ensures Holds(fields[i].value, MergedFields(fields, floats)[i].value, floats)
      {
        RawFieldAt(fields, i);
        MergedFieldAt(fields, i, floats);
        MergedHolds(fields[i].value, floats);
      }
      var merged := MergedFields(fields, floats);
      PutAllIsLatest(merged);
      SameKeys(fields, merged);
      AllLastHold(fields, merged, PutAll(merged), floats);
      DictHolds(fields, PutAll(merged), floats);
    case _ =>
  }

  lemma LastOfMerged(fields: seq<Field>, merged: seq<Field>, f: Field, floats: string -> string)
    requires |merged| == |fields| && forall i :: 0 <= i < |fields| ==> merged[i].key == fields[i].key
    requires forall i :: 0 <= i < |fields| ==> Holds(fields[i].value, merged[i].value, floats)
    requires exists k :: IsLast(merged, k) && merged[k] == f
    ensures LastHolds(fields, f, floats)
  {
    var k :| IsLast(merged, k) && merged[k] == f;
    SameKeys(fields, merged);
    assert IsLast(fields, k) && fields[k].key == f.key && Holds(fields[k].value, f.value, floats);
  }

  lemma AllLastHold(fields: seq<Field>, merged: seq<Field>, r: seq<Field>, floats: string -> string)
    requires |merged| == |fields| && forall i :: 0 <= i < |fields| ==> merged[i].key == fields[i].key
    requires forall i :: 0 <= i < |fields| ==> Holds(fields[i].value, merged[i].value, floats)
    requires Latest(merged, r)
    ensures forall i :: 0 <= i < |r| ==> LastHolds(fields, r[i], floats)
  {
    forall i | 0 <= i < |r| ensures LastHolds(fields, r[i], floats) {
      LastOfMerged(fields, merged, r[i], floats);
    }
  }

  lemma DictHolds(fields: seq<Field>, r: seq<Field>, floats: string -> string)
    requires Keys(r) == FirstKeys(fields) && forall i :: 0 <= i < |r| ==> LastHolds(fields, r[i], floats)
    ensures Holds(Dict(fields), Dict(r), floats)
  {
  }

  // ---- reading and printing ----

  /** Printed text is JSON text of what was printed, tuples as lists. */
  lemma ParseDumps(v: Json)
    requires Wf(v)
    ensures Parse(Dumps(v)) == Some(Listed(v))
  {
    var t := JsonPrints.DumpsIsUsual(v);
    assert "" + Dumps(v) == Dumps(v);
    JsonReads.LayoutIsRead(Dumps(v), "", t, "");
  }

  /**
    A value whose numbers are as they print is read back with its tuples as lists. Text with an
    integer of too many digits, which Python would not have printed, is not read.
   */
  lemma LoadsDumps(v: Json, floats: string -> string)
    requires Wf(v)
    ensures !Prints(v) ==> Loads(Dumps(v), floats) == None
    ensures AllNumbers(v, Settled(floats)) ==> Loads(Dumps(v), floats) == Some(Listed(v))
  {
    ParseDumps(v);
    ListedNumbers(v, NotTooLong());
    if AllNumbers(v, Settled(floats)) {
      SettledPrints(v, floats);
      ListedWf(v);
      ListedNumbers(v, Settled(floats));
      StableIsMerged(Listed(v), floats);
    }
  }

  /** What was read comes back from its JSON text as it was. */
  lemma RoundTrip(v: Json, floats: string -> string)
    requires Stable(v, floats)
    ensures Loads(Dumps(v), floats) == Some(v)
  {
    LoadsDumps(v, floats);
    ListedDocument(v);
  }

  /**
    `json.loads`: JSON text without an integer of too many digits is read, and nothing else; what
    Python then holds is what the text means.
   */
  lemma LoadsIff(s: string, floats: string -> string)
    ensures Loads(s, floats).Some? <==> exists v :: G.Denotes(s, v) && Prints(v)
    ensures forall v :: G.Denotes(s, v) && Prints(v) ==> Holds(v, Loads(s, floats).value, floats)
  {
    forall v ensures G.Denotes(s, v) <==> Parse(s) == Some(v) {
      JsonReads.ParseIff(s, v);
    }
    if Loads(s, floats).Some? {
      ParseSound(s);
      MergedHolds(Parse(s).value, floats);
    }
  }
}
