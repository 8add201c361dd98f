/** Shrinking every string leaf of a JSON value to one common allowance (`_cap_json_head_tail`). */
module CapJson {
  import opened Wrappers
  import opened Json
  import opened HeadTail
  import Preview
  import Utf8
  import Decimal

  function Max(a: nat, b: nat): nat {
    if a < b then b else a
  }

  /** Bytes of the biggest string value, keys not counted; 0 if there is none. */
  function LargestLeaf(v: Json): nat
    decreases v, 0
  {
    match v
    case Str(text) => |Utf8.Encode(text)|
    case List(items) => LargestItem(items)
    case Tuple(items) => LargestItem(items)
    case Dict(fields) => LargestField(fields)
    case _ => 0
  }

  function LargestItem(items: seq<Json>): nat
    decreases items, 1
  {
    if items == [] then 0 else Max(LargestLeaf(items[0]), LargestItem(items[1..]))
  }

  function LargestField(fields: seq<Field>): nat
    decreases fields, 1
  {
    if fields == [] then 0 else Max(LargestLeaf(fields[0].value), LargestField(fields[1..]))
  }

  function CapLeaves(v: Json, limit: int): Json
    decreases v, 0
  {
    match v
    case Str(text) => Str(TruncateHeadTail(text, limit))
    case List(items) => List(CapItems(items, limit))
    case Tuple(items) => List(CapItems(items, limit))
    case Dict(fields) => Dict(CapFields(fields, limit))
    case _ => v
  }

  function CapItems(items: seq<Json>, limit: int): (r: seq<Json>)
    ensures |r| == |items|
    decreases items, 1
  {
    if items == [] then [] else [CapLeaves(items[0], limit)] + CapItems(items[1..], limit)
  }

  function CapFields(fields: seq<Field>, limit: int): (r: seq<Field>)
    ensures |r| == |fields|
    ensures forall i :: 0 <= i < |fields| ==> r[i].key == fields[i].key
    decreases fields, 1
  {
    if fields == [] then []
    else [Field(fields[0].key, CapLeaves(fields[0].value, limit))] + CapFields(fields[1..], limit)
  }

  // ---- the shape is kept ----

  /** `b` has `a`'s tree, keys and leaf kinds; only texts differ, and tuples are lists. */
  predicate SameShape(a: Json, b: Json)
    decreases a, 0
  {
    match a
    case Str(_) => b.Str?
    case List(items) => b.List? && SameItems(items, b.items)
    case Tuple(items) => b.List? && SameItems(items, b.items)
    case Dict(fields) => b.Dict? && SameFields(fields, b.fields)
    case _ => a == b
  }

  predicate SameItems(a: seq<Json>, b: seq<Json>)
    decreases a, 1
  {
    |a| == |b| && (a == [] || (SameShape(a[0], b[0]) && SameItems(a[1..], b[1..])))
  }

  predicate SameFields(a: seq<Field>, b: seq<Field>)
    decreases a, 1
  {
    |a| == |b| && (a == [] || (a[0].key == b[0].key && SameShape(a[0].value, b[0].value) && SameFields(a[1..], b[1..])))
  }

  lemma {:induction false} CapKeepsShape(v: Json, limit: int)
    ensures SameShape(v, CapLeaves(v, limit))
    ensures Wf(v) ==> Wf(CapLeaves(v, limit))
    decreases v, 0
  {
    match v
    case List(items) => CapItemsKeepShape(items, limit);
    case Tuple(items) => CapItemsKeepShape(items, limit);
    case Dict(fields) => CapFieldsKeepShape(fields, limit);
    case _ =>
  }

  lemma {:induction false} CapItemsKeepShape(items: seq<Json>, limit: int)
    ensures SameItems(items, CapItems(items, limit))
    ensures WfItems(items) ==> WfItems(CapItems(items, limit))
    decreases items, 1
  {
    if items == [] {
    } else {
      CapKeepsShape(items[0], limit);
      CapItemsKeepShape(items[1..], limit);
    }
  }

  lemma {:induction false} CapFieldsKeepShape(fields: seq<Field>, limit: int)
    ensures SameFields(fields, CapFields(fields, limit))
    ensures WfFields(fields) ==> WfFields(CapFields(fields, limit))
    decreases fields, 1
  {
    if fields == [] {
    } else {
      CapKeepsShape(fields[0].value, limit);
      CapFieldsKeepShape(fields[1..], limit);
    }
  }

  lemma {:induction false} CapKeepsNumbers(v: Json, limit: int, p: string -> bool)
    ensures AllNumbers(CapLeaves(v, limit), p) <==> AllNumbers(v, p)
    decreases v, 0
  {
    match v
    case List(items) => CapItemsKeepNumbers(items, limit, p);
    case Tuple(items) => CapItemsKeepNumbers(items, limit, p);
    case Dict(fields) => CapFieldsKeepNumbers(fields, limit, p);
    case _ =>
  }

  lemma {:induction false} CapItemsKeepNumbers(items: seq<Json>, limit: int, p: string -> bool)
    ensures AllNumbersIn(CapItems(items, limit), p) <==> AllNumbersIn(items, p)
    decreases items, 1
  {
    if items == [] {
    } else {
      CapKeepsNumbers(items[0], limit, p);
      CapItemsKeepNumbers(items[1..], limit, p);
    }
  }

  lemma {:induction false} CapFieldsKeepNumbers(fields: seq<Field>, limit: int, p: string -> bool)
    ensures AllNumbersUnder(CapFields(fields, limit), p) <==> AllNumbersUnder(fields, p)
    decreases fields, 1
  {
    if fields == [] {
    } else {
      CapKeepsNumbers(fields[0].value, limit, p);
      CapFieldsKeepNumbers(fields[1..], limit, p);
    }
  }

  // ---- every leaf is cut to the same allowance ----

  /** The string values of `v` in document order. */
  function Leaves(v: Json): seq<string>
    decreases v, 0
  {
    match v
    case Str(text) => [text]
    case List(items) => ItemLeaves(items)
    case Tuple(items) => ItemLeaves(items)
    case Dict(fields) => FieldLeaves(fields)
    case _ => []
  }

  function ItemLeaves(items: seq<Json>): seq<string>
    decreases items, 1
  {
    if items == [] then [] else Leaves(items[0]) + ItemLeaves(items[1..])
  }

  function FieldLeaves(fields: seq<Field>): seq<string>
    decreases fields, 1
  {
    if fields == [] then [] else Leaves(fields[0].value) + FieldLeaves(fields[1..])
  }

  /** `after` is `before` with each text cut to `limit` bytes. */
  ghost predicate EachCut(before: seq<string>, after: seq<string>, limit: int) {
    |after| == |before| && forall i :: 0 <= i < |before| ==> after[i] == TruncateHeadTail(before[i], limit)
  }

  lemma EachCutConcat(a: seq<string>, b: seq<string>, a': seq<string>, b': seq<string>, limit: int)
    requires EachCut(a, a', limit) && EachCut(b, b', limit)
    ensures EachCut(a + b, a' + b', limit)
  {
  }

  /** One allowance for all of them: the leaves stay in order and each is cut by itself. */
  lemma {:induction false} CapCutsEachLeaf(v: Json, limit: int)
    ensures EachCut(Leaves(v), Leaves(CapLeaves(v, limit)), limit)
    decreases v, 0
  {
    match v
    case List(items) => CapCutsItems(items, limit);
    case Tuple(items) => CapCutsItems(items, limit);
    case Dict(fields) => CapCutsFields(fields, limit);
    case _ =>
  }

  lemma {:induction false} CapCutsItems(items: seq<Json>, limit: int)
    ensures EachCut(ItemLeaves(items), ItemLeaves(CapItems(items, limit)), limit)
    decreases items, 1
  {
    if items == [] {
    } else {
      CapCutsEachLeaf(items[0], limit);
      CapCutsItems(items[1..], limit);
      EachCutConcat(Leaves(items[0]), ItemLeaves(items[1..]),
                    Leaves(CapLeaves(items[0], limit)), ItemLeaves(CapItems(items[1..], limit)), limit);
      assert CapItems(items, limit)[1..] == CapItems(items[1..], limit);
    }
  }

  lemma {:induction false} CapCutsFields(fields: seq<Field>, limit: int)
    ensures EachCut(FieldLeaves(fields), FieldLeaves(CapFields(fields, limit)), limit)
    decreases fields, 1
  {
    if fields == [] {
    } else {
      var value := fields[0].value;
      CapCutsEachLeaf(value, limit);
      CapCutsFields(fields[1..], limit);
      EachCutConcat(Leaves(value), FieldLeaves(fields[1..]),
                    Leaves(CapLeaves(value, limit)), FieldLeaves(CapFields(fields[1..], limit)), limit);
      assert CapFields(fields, limit)[1..] == CapFields(fields[1..], limit);
    }
  }

  /** `n` bytes hold every one of `texts`, and one of them unless `n` is 0 takes that many. */
  ghost predicate IsLargest(n: nat, texts: seq<string>) {
    && (forall t :: t in texts ==> Utf8.Utf8Len(t) <= n)
    && (n == 0 || exists t :: t in texts && Utf8.Utf8Len(t) == n)
  }

  lemma LargestOfBoth(m: nat, a: seq<string>, n: nat, b: seq<string>)
    requires IsLargest(m, a) && IsLargest(n, b)
    ensures IsLargest(Max(m, n), a + b)
  {
    assert forall t :: t in a + b <==> t in a || t in b;
  }

  lemma {:induction false} LargestLeafIsLargest(v: Json)
    ensures IsLargest(LargestLeaf(v), Leaves(v))
    decreases v, 0
  {
    match v
    case Str(text) =>
      Utf8.EncodeLength(text);
      assert text in Leaves(v);
    case List(items) => LargestItemIsLargest(items);
    case Tuple(items) => LargestItemIsLargest(items);
    case Dict(fields) => LargestFieldIsLargest(fields);
    case _ =>
  }

  lemma {:induction false} LargestItemIsLargest(items: seq<Json>)
    ensures IsLargest(LargestItem(items), ItemLeaves(items))
    decreases items, 1
  {
    if items == [] {
    } else {
      LargestLeafIsLargest(items[0]);
      LargestItemIsLargest(items[1..]);
      LargestOfBoth(LargestLeaf(items[0]), Leaves(items[0]), LargestItem(items[1..]), ItemLeaves(items[1..]));
    }
  }

  lemma {:induction false} LargestFieldIsLargest(fields: seq<Field>)
    ensures IsLargest(LargestField(fields), FieldLeaves(fields))
    decreases fields, 1
  {
    if fields == [] {
    } else {
      var value := fields[0].value;
      LargestLeafIsLargest(value);
      LargestFieldIsLargest(fields[1..]);
      LargestOfBoth(LargestLeaf(value), Leaves(value), LargestField(fields[1..]), FieldLeaves(fields[1..]));
    }
  }

  // ---- an allowance that no leaf exceeds cuts nothing ----

  lemma {:induction false} NothingCut(v: Json, limit: int)
    requires LargestLeaf(v) <= limit
    ensures CapLeaves(v, limit) == Listed(v)
    decreases v, 0
  {
    match v
    case List(items) => NoItemCut(items, limit);
    case Tuple(items) => NoItemCut(items, limit);
    case Dict(fields) => NoFieldCut(fields, limit);
    case _ =>
  }

  lemma {:induction false} NoItemCut(items: seq<Json>, limit: int)
    requires LargestItem(items) <= limit
    ensures CapItems(items, limit) == ListedItems(items)
    decreases items, 1
  {
    if items == [] {
    } else {
      NothingCut(items[0], limit);
      NoItemCut(items[1..], limit);
    }
  }

  lemma {:induction false} NoFieldCut(fields: seq<Field>, limit: int)
    requires LargestField(fields) <= limit
    ensures CapFields(fields, limit) == ListedFields(fields)
    decreases fields, 1
  {
    if fields == [] {
    } else {
      NothingCut(fields[0].value, limit);
      NoFieldCut(fields[1..], limit);
    }
  }

  /** No leaf is bigger than the document that holds it, and tuples print like lists. */
  lemma {:induction false} LeafWithinDocument(v: Json)
    ensures LargestLeaf(v) <= |Dumps(v)|
    ensures Dumps(Listed(v)) == Dumps(v)
    decreases v, 0
  {
    match v
    case Str(text) => EscapeNoShorter(text); Utf8.EncodeLength(text);
    case List(items) => ItemWithinDocument(items);
    case Tuple(items) => ItemWithinDocument(items);
    case Dict(fields) => FieldWithinDocument(fields);
    case _ =>
  }

  lemma {:induction false} ItemWithinDocument(items: seq<Json>)
    ensures LargestItem(items) <= |DumpsItems(items)|
    ensures DumpsItems(ListedItems(items)) == DumpsItems(items)
    decreases items, 1
  {
    if items == [] {
    } else {
      LeafWithinDocument(items[0]);
      ItemWithinDocument(items[1..]);
    }
  }

  lemma {:induction false} FieldWithinDocument(fields: seq<Field>)
    ensures LargestField(fields) <= |DumpsFields(fields)|
    ensures DumpsFields(ListedFields(fields)) == DumpsFields(fields)
    decreases fields, 1
  {
    if fields == [] {
    } else {
      LeafWithinDocument(fields[0].value);
      FieldWithinDocument(fields[1..]);
    }
  }

  // ---- size is monotone in the allowance ----

  lemma {:induction false} CapMonotone(v: Json, a: int, b: int)
    requires FLOOR <= a <= b && ShortEnough(LargestLeaf(v))
    ensures |Dumps(CapLeaves(v, a))| <= |Dumps(CapLeaves(v, b))|
    decreases v, 0
  {
    match v
    case Str(text) => Utf8.EncodeLength(text); LeafMonotone(text, a, b);
    case List(items) => CapItemsMonotone(items, a, b);
    case Tuple(items) => CapItemsMonotone(items, a, b);
    case Dict(fields) => CapFieldsMonotone(fields, a, b);
    case _ =>
  }

  lemma {:induction false} CapItemsMonotone(items: seq<Json>, a: int, b: int)
    requires FLOOR <= a <= b && ShortEnough(LargestItem(items))
    ensures |DumpsItems(CapItems(items, a))| <= |DumpsItems(CapItems(items, b))|
    decreases items, 1
  {
    if items == [] {
    } else {
      Decimal.WidthGrowsSlowly(LargestLeaf(items[0]), LargestItem(items));
      Decimal.WidthGrowsSlowly(LargestItem(items[1..]), LargestItem(items));
      CapMonotone(items[0], a, b);
      CapItemsMonotone(items[1..], a, b);
    }
  }

  lemma {:induction false} CapFieldsMonotone(fields: seq<Field>, a: int, b: int)
    requires FLOOR <= a <= b && ShortEnough(LargestField(fields))
    ensures |DumpsFields(CapFields(fields, a))| <= |DumpsFields(CapFields(fields, b))|
    decreases fields, 1
  {
    if fields == [] {
    } else {
      Decimal.WidthGrowsSlowly(LargestLeaf(fields[0].value), LargestField(fields));
      Decimal.WidthGrowsSlowly(LargestField(fields[1..]), LargestField(fields));
      CapMonotone(fields[0].value, a, b);
      CapFieldsMonotone(fields[1..], a, b);
    }
  }

  lemma SizeMonotone(v: Json, a: int, b: int)
    requires Wf(v) && FLOOR <= a <= b && ShortEnough(LargestLeaf(v))
    ensures Size(CapLeaves(v, a)) <= Size(CapLeaves(v, b))
  {
    CapKeepsShape(v, a);
    CapKeepsShape(v, b);
    SizeIsTextLength(CapLeaves(v, a));
    SizeIsTextLength(CapLeaves(v, b));
    CapMonotone(v, a, b);
  }

  lemma ListedSize(v: Json)
    ensures Size(Listed(v)) == Size(v)
  {
    LeafWithinDocument(v);
  }

  /** From the floor up, a larger allowance never gives a smaller document. */
  ghost predicate SizesRise(v: Json) {
    forall a: int, b: int :: FLOOR <= a <= b ==> Size(CapLeaves(v, a)) <= Size(CapLeaves(v, b))
  }

  /** Sizes rise for every document whose largest leaf takes `n` bytes exactly when `n` has at most 36 digits. */
  lemma SizesRiseIffShortEnough(n: nat)
    ensures (forall v :: Wf(v) && LargestLeaf(v) == n ==> SizesRise(v)) <==> ShortEnough(n)
  {
    if ShortEnough(n) {
      forall v | Wf(v) && LargestLeaf(v) == n ensures SizesRise(v) {
        ShortSizesRise(v);
      }
    } else {
      var v := TooLongSizesFall(n);
      assert Wf(v) && LargestLeaf(v) == n && !SizesRise(v);
    }
  }

  lemma ShortSizesRise(v: Json)
    requires Wf(v) && ShortEnough(LargestLeaf(v))
    ensures SizesRise(v)
  {
    forall a: int, b: int | FLOOR <= a <= b ensures Size(CapLeaves(v, a)) <= Size(CapLeaves(v, b)) {
      SizeMonotone(v, a, b);
    }
  }

  lemma TooLongSizesFall(n: nat) returns (v: Json)
    requires !ShortEnough(n)
    ensures Wf(v) && LargestLeaf(v) == n && !SizesRise(v)
  {
    var text := Newlines(n);
    v := Str(text);
    TooLongNotMonotone(n);
    Utf8.EncodeLength(text);
    if SizesRise(v) {
      TextSizesRise(text);
    }
  }

  lemma CutTextSize(text: string, allowance: int)
    ensures Wf(CapLeaves(Str(text), allowance))
    ensures Size(CapLeaves(Str(text), allowance)) == JsonLen(TruncateHeadTail(text, allowance)) + 2
  {
    SizeIsTextLength(CapLeaves(Str(text), allowance));
  }

  lemma TextSizesRise(text: string)
    requires SizesRise(Str(text))
    ensures MonotoneFromFloor(text)
  {
    forall a: int, b: int | FLOOR <= a <= b
      ensures JsonLen(TruncateHeadTail(text, a)) <= JsonLen(TruncateHeadTail(text, b))
    {
      CutTextSize(text, a);
      CutTextSize(text, b);
    }
  }

  lemma NewlinesAtFloor(n: nat)
    requires !ShortEnough(n)
    ensures JsonLen(TruncateHeadTail(Newlines(n), FLOOR)) == 2 * FLOOR
  {
    MarkerLength(n);
    LongNumeral(n);
    NewlinesBelow(n, FLOOR);
    NewlinesLengths(FLOOR, 0);
  }

  lemma NewlinesAboveFloor(n: nat)
    requires !ShortEnough(n)
    ensures JsonLen(TruncateHeadTail(Newlines(n), FLOOR + 1)) <= 2 * FLOOR + 2
    ensures ShortEnough(n / 10) ==> JsonLen(TruncateHeadTail(Newlines(n), FLOOR + 1)) <= FLOOR + 3
  {
    MarkerLength(n);
    LongNumeral(n);
    if ShortEnough(n / 10) {
      assert |Decimal.Print(n)| == |Decimal.Print(n / 10)| + 1;
      NewlinesAbove(n, FLOOR + 1);
    } else {
      NewlinesBelow(n, FLOOR + 1);
      NewlinesLengths(FLOOR + 1, 0);
    }
  }

  function Pair(a: string, b: string): Json {
    List([Str(a), Str(b)])
  }

  lemma PairSize(a: string, b: string)
    ensures Wf(Pair(a, b)) && Size(Pair(a, b)) == JsonLen(a) + JsonLen(b) + 8
  {
    TwoItems(Str(a), Str(b));
    assert Dumps(Str(a)) == Quote(a) && Dumps(Str(b)) == Quote(b);
    SizeIsTextLength(Pair(a, b));
  }

  lemma TwoItems(x: Json, y: Json)
    ensures DumpsItems([x, y]) == Dumps(x) + ", " + Dumps(y)
    ensures WfItems([x, y]) <==> Wf(x) && Wf(y)
  {
    assert [x, y][1..] == [y] && [y][1..] == [];
    assert DumpsItems([y]) == Dumps(y);
    assert WfItems([y]) <==> Wf(y);
  }

  lemma CutPair(a: string, b: string, limit: int)
    ensures CapLeaves(Pair(a, b), limit) == Pair(TruncateHeadTail(a, limit), TruncateHeadTail(b, limit))
  {
    var items, last := [Str(a), Str(b)], [Str(b)];
    assert items[1..] == last && last[1..] == [];
    assert CapItems(last, limit) == [CapLeaves(Str(b), limit)];
    assert CapItems(items, limit) == [CapLeaves(Str(a), limit)] + CapItems(last, limit);
  }

  lemma NewlinesPair(n: nat, m: nat)
    requires m <= n
    ensures LargestLeaf(Pair(Newlines(n), Newlines(m))) == n
  {
    var items, last := [Str(Newlines(n)), Str(Newlines(m))], [Str(Newlines(m))];
    assert items[1..] == last && last[1..] == [];
    assert LargestItem(last) == LargestLeaf(Str(Newlines(m)));
    assert LargestItem(items) == Max(LargestLeaf(Str(Newlines(n))), LargestItem(last));
    NewlinesLengths(n, 0);
    Utf8.EncodeLength(Newlines(n));
    NewlinesLengths(m, 0);
    Utf8.EncodeLength(Newlines(m));
  }

  lemma {:induction false} JustTooLong(n: nat) returns (m: nat)
    requires !ShortEnough(n)
    ensures m <= n && !ShortEnough(m) && ShortEnough(m / 10)
  {
    if ShortEnough(n / 10) {
      m := n;
    } else {
      m := JustTooLong(n / 10);
    }
  }

  /** Beyond that the floor need not be the cheapest allowance: 205 bytes hold the next one and not the floor. */
  lemma FloorIsNotCheapest(n: nat) returns (v: Json)
    requires !ShortEnough(n)
    ensures v.List? && |v.items| == 2 && Wf(v) && LargestLeaf(v) == n
    ensures Size(CapLeaves(v, FLOOR)) > 205 >= Size(CapLeaves(v, FLOOR + 1))
  {
    var m := JustTooLong(n);
    var a, b := Newlines(n), Newlines(m);
    v := Pair(a, b);
    NewlinesPair(n, m);
    PairSize(a, b);
    CutPair(a, b, FLOOR);
    CutPair(a, b, FLOOR + 1);
    PairSize(TruncateHeadTail(a, FLOOR), TruncateHeadTail(b, FLOOR));
    PairSize(TruncateHeadTail(a, FLOOR + 1), TruncateHeadTail(b, FLOOR + 1));
    NewlinesAtFloor(n);
    NewlinesAtFloor(m);
    NewlinesAboveFloor(n);
    NewlinesAboveFloor(m);
  }

  // ---- the search ----

  /** `r` gives every leaf `allowance` bytes and fits. */
  ghost predicate FitsAt(v: Json, cap: int, allowance: int, r: Json) {
    FLOOR <= allowance && r == CapLeaves(v, allowance) && Size(r) <= cap
  }

  /** No larger allowance fits. */
  ghost predicate NoneLargerFits(v: Json, cap: int, allowance: int) {
    forall l: int :: l > allowance ==> Size(CapLeaves(v, l)) > cap
  }

  /** `r` is what the preview fallback ships for `payload`. */
  ghost predicate PreviewShipped(payload: Json, cap: int, r: Json) {
    && payload.Dict?
    && Size(payload) > cap
    && if Preview.Fits(payload, cap, 1)
       then exists j: nat :: Preview.FirstFittingPreview(payload, cap, r, j)
       else r == Preview.Bare(Size(payload))
  }

  /** The dictionary that the fallback previews. */
  function Payload(v: Json): Json {
    match v
    case Dict(_) => v
    case List(_) => Dict([Field("messages", v)])
    case _ => Dict([Field("value", v)])
  }

  /** The bare truncation marker, in a one-item list for a list. */
  function Marked(v: Json): Json {
    var bare := Preview.Bare(Size(Payload(v)));
    if v.List? then List([bare]) else bare
  }

  lemma OneItemSize(v: Json)
    requires Wf(v)
    ensures Wf(List([v])) && Size(List([v])) == Size(v) + 2
  {
    assert [v][1..] == [];
    SizeIsTextLength(v);
    SizeIsTextLength(List([v]));
  }

  lemma ShippedFits(payload: Json, cap: int, r: Json)
    requires Wf(payload) && PreviewShipped(payload, cap, r)
    ensures r == Preview.Bare(Size(payload)) || (Wf(r) && Size(r) <= cap)
  {
    if Preview.Fits(payload, cap, 1) {
      var j: nat :| Preview.FirstFittingPreview(payload, cap, r, j);
      Preview.PreviewIsWorthIt(payload, cap, r, j);
      Preview.WrapperWf(r, Size(payload), r.fields[2].value.text);
    }
  }

  /** A list goes into the preview under "messages" and comes out in a list; a scalar or tuple goes under "value". */
  ghost predicate FallbackShipped(v: Json, cap: int, r: Json) {
    match v
    case List(_) =>
      r.List? && |r.items| == 1 && PreviewShipped(Dict([Field("messages", v)]), cap - 2, r.items[0])
    case Dict(_) => PreviewShipped(v, cap, r)
    case _ => PreviewShipped(Dict([Field("value", v)]), cap, r)
  }

  lemma FallbackFits(v: Json, cap: int, r: Json)
    requires Wf(v) && FallbackShipped(v, cap, r)
    ensures Size(r) <= cap || r == Marked(v)
  {
    PayloadOverCap(v);
    if v.List? {
      var w := r.items[0];
      ShippedFits(Payload(v), cap - 2, w);
      assert r == List([w]);
      if w != Preview.Bare(Size(Payload(v))) {
        OneItemSize(w);
      }
    } else {
      ShippedFits(Payload(v), cap, r);
    }
  }

  lemma PayloadOverCap(v: Json)
    requires Wf(v)
    ensures Payload(v).Dict? && Wf(Payload(v)) && Size(Payload(v)) >= Size(v)
  {
    SizeIsTextLength(v);
    if !v.Dict? {
      Preview.FieldsLength(Payload(v).fields[0], []);
      assert Payload(v).fields == [Payload(v).fields[0]] + [];
      SizeIsTextLength(Payload(v));
    }
  }

  lemma HalvingKeepsOptimum(v: Json, cap: int, allowance: int)
    requires Wf(v) && FLOOR <= allowance && Size(CapLeaves(v, allowance)) > cap
    ensures ShortEnough(LargestLeaf(v)) ==> NoneLargerFits(v, cap, allowance - 1)
  {
    if ShortEnough(LargestLeaf(v)) {
      forall l: int | l >= allowance ensures Size(CapLeaves(v, l)) > cap {
        SizeMonotone(v, allowance, l);
      }
    }
  }

  lemma UncutIsOverCap(v: Json, cap: int)
    requires Size(v) > cap
    ensures NoneLargerFits(v, cap, LargestLeaf(v) - 1)
  {
    forall l: int | l >= LargestLeaf(v) ensures Size(CapLeaves(v, l)) > cap {
      NothingCut(v, l);
      ListedSize(v);
    }
  }

  /** `r` is a largest-fitting cut of `v`, the maximality holding for leaves that are short enough. */
  ghost predicate LargestFittingCut(v: Json, cap: int, r: Json) {
    exists allowance: int ::
      FitsAt(v, cap, allowance, r) && (ShortEnough(LargestLeaf(v)) ==> NoneLargerFits(v, cap, allowance))
  }

  /** What capping `v` gives: a copy, the largest cut that fits, or the preview fallback. */
  ghost predicate CapResult(v: Json, cap: int, r: Json, truncated: bool) {
    && (truncated <==> Size(v) > cap)
    && if !truncated then r == Listed(v)
       else if Size(CapLeaves(v, FLOOR)) <= cap then LargestFittingCut(v, cap, r)
       else FallbackShipped(v, cap, r)
  }

  // ---- the search finds the best cut exactly for short leaves ----

  ghost predicate SomeCutFits(v: Json, cap: int) {
    exists allowance: int :: FLOOR <= allowance && Size(CapLeaves(v, allowance)) <= cap
  }

  ghost predicate BestCut(v: Json, cap: int, r: Json) {
    exists allowance: int :: FitsAt(v, cap, allowance, r) && NoneLargerFits(v, cap, allowance)
  }

  /** Capping `v` ships the largest cut that fits, whenever one does. */
  ghost predicate CapsBest(v: Json) {
    forall cap, r :: CapResult(v, cap, r, true) && SomeCutFits(v, cap) ==> BestCut(v, cap, r)
  }

  /** It does so for every document whose largest leaf takes `n` bytes exactly when `n` has at most 36 digits. */
  lemma CapsBestIffShortEnough(n: nat)
    ensures (forall v :: Wf(v) && LargestLeaf(v) == n ==> CapsBest(v)) <==> ShortEnough(n)
  {
    if ShortEnough(n) {
      forall v | Wf(v) && LargestLeaf(v) == n ensures CapsBest(v) {
        ShortCapsBest(v);
      }
    } else {
      var v := TooLongIsNotBest(n);
      assert Wf(v) && LargestLeaf(v) == n && !CapsBest(v);
    }
  }

  lemma ShortCapsBest(v: Json)
    requires Wf(v) && ShortEnough(LargestLeaf(v))
    ensures CapsBest(v)
  {
    forall cap, r | CapResult(v, cap, r, true) && SomeCutFits(v, cap) ensures BestCut(v, cap, r) {
      var l: int :| FLOOR <= l && Size(CapLeaves(v, l)) <= cap;
      SizeMonotone(v, FLOOR, l);
      assert LargestFittingCut(v, cap, r);
    }
  }

  /** The preview fallback for a cap too small to cut a preview in halves. */
  lemma SmallPreview(payload: Json, cap: int) returns (r: Json)
    requires payload.Dict? && Size(payload) > cap && cap <= Preview.HEADROOM
    ensures PreviewShipped(payload, cap, r)
  {
    if Preview.Fits(payload, cap, 1) {
      r := Preview.WrapperAt(payload, 1);
      assert Preview.Halved(Preview.FirstPreviewBytes(cap), 0) == 1;
      assert Preview.FirstFittingPreview(payload, cap, r, 0);
    } else {
      r := Preview.Bare(Size(payload));
    }
  }

  lemma TooLongIsNotBest(n: nat) returns (v: Json)
    requires !ShortEnough(n)
    ensures Wf(v) && LargestLeaf(v) == n && !CapsBest(v)
  {
    v := FloorIsNotCheapest(n);
    LongNumeral(n);
    LeafOverCap(v, n);
    PayloadOverCap(v);
    var w := SmallPreview(Payload(v), 203);
    var r := List([w]);
    assert CapResult(v, 205, r, true) && SomeCutFits(v, 205);
    forall allowance: int ensures r != CapLeaves(v, allowance) {
    }
  }

  lemma LeafOverCap(v: Json, n: nat)
    requires Wf(v) && LargestLeaf(v) == n && !ShortEnough(n)
    ensures Size(v) > 205
  {
    LeafWithinDocument(v);
    SizeIsTextLength(v);
    TooLongIsBig(n);
  }

  lemma TooLongIsBig(n: nat)
    requires !ShortEnough(n)
    ensures n >= 1000
  {
    if n < 1000 {
      ShortNumeral(n);
    }
  }

  lemma PayloadPrints(v: Json)
    ensures Prints(Payload(v)) <==> Prints(v)
  {
    if !v.Dict? {
      var fields := Payload(v).fields;
      assert fields[1..] == [];
      assert AllNumbersUnder(fields, NotTooLong()) <==> AllNumbers(v, NotTooLong());
    }
  }

  lemma CopyIsResult(v: Json, cap: int)
    requires Wf(v) && Size(v) <= cap
    ensures CapResult(v, cap, CapLeaves(v, cap), false)
  {
    SizeIsTextLength(v);
    LeafWithinDocument(v);
    NothingCut(v, cap);
  }

  lemma CutIsResult(v: Json, cap: int, allowance: int, r: Json)
    requires Size(v) > cap && Size(CapLeaves(v, FLOOR)) <= cap
    requires FitsAt(v, cap, allowance, r) && (ShortEnough(LargestLeaf(v)) ==> NoneLargerFits(v, cap, allowance))
    ensures CapResult(v, cap, r, true)
  {
  }

  lemma FallbackIsResult(v: Json, cap: int, r: Json)
    requires Size(v) > cap && Size(CapLeaves(v, FLOOR)) > cap && FallbackShipped(v, cap, r)
    ensures CapResult(v, cap, r, true)
  {
  }

  lemma CandidatePrints(v: Json, allowance: int)
    requires Prints(v)
    ensures Prints(CapLeaves(v, allowance))
  {
    CapKeepsNumbers(v, allowance, NotTooLong());
  }

  /** The last resort: the preview wrapper, in a one-item list for a list. */
  method ShipPreview(value: Json, cap: int) returns (r: Json)
    requires Wf(value) && Prints(value) && Size(value) > cap
    ensures FallbackShipped(value, cap, r)
  {
    PayloadOverCap(value);
    PayloadPrints(value);
    var payload, room := Payload(value), if value.List? then cap - 2 else cap;
    var wrapped := Preview.TruncateJson(payload, room);
    assert PreviewShipped(payload, room, wrapped.value);
    r := if value.List? then List([wrapped.value]) else wrapped.value;
  }

  /** `json.dumps` raises on an integer of too many digits, here as everywhere; a cut changes no number. */
  method CapJsonHeadTail(value: Json, cap: int) returns (r: Result<(Json, bool), string>)
    requires Wf(value)
    ensures r.Success? <==> Prints(value)
    ensures r.Failure? ==> r.error == "ValueError"
    ensures r.Success? ==> CapResult(value, cap, r.value.0, r.value.1)
  {
    if !Prints(value) {
      return Failure("ValueError");
    }
    if |Utf8.Encode(Dumps(value))| <= cap {
      CopyIsResult(value, cap);
      return Success((CapLeaves(value, cap), false));
    }
    var floored := CapLeaves(value, FLOOR);
    if |Utf8.Encode(Dumps(floored))| > cap {
      var shipped := ShipPreview(value, cap);
      FallbackIsResult(value, cap, shipped);
      return Success((shipped, true));
    }
    var best: Json, low: int, high: int := floored, FLOOR, LargestLeaf(value);
    UncutIsOverCap(value, cap);
    while low < high
      invariant FitsAt(value, cap, low, best)
      invariant ShortEnough(LargestLeaf(value)) ==> NoneLargerFits(value, cap, high)
      decreases high - low
    {
      var allowance := (low + high + 1) / 2;
      var candidate := CapLeaves(value, allowance);
      assert Prints(candidate) by { CandidatePrints(value, allowance); }
      if |Utf8.Encode(Dumps(candidate))| <= cap {
        best, low := candidate, allowance;
      } else {
        HalvingKeepsOptimum(value, cap, allowance);
        high := allowance - 1;
      }
    }
    CutIsResult(value, cap, low, best);
    return Success((best, true));
  }

  /** Every result fits the cap or is the bare truncation marker. */
  lemma CapResultFits(v: Json, cap: int, r: Json, truncated: bool)
    requires Wf(v) && CapResult(v, cap, r, truncated)
    ensures Size(r) <= cap || r == Marked(v)
  {
    if !truncated {
      ListedSize(v);
    } else if Size(CapLeaves(v, FLOOR)) > cap {
      FallbackFits(v, cap, r);
    }
  }

  /** Every result off the fallback keeps the tree, the keys and the kind of every leaf. */
  lemma CapResultShape(v: Json, cap: int, r: Json, truncated: bool)
    requires Wf(v) && CapResult(v, cap, r, truncated)
    requires !truncated || Size(CapLeaves(v, FLOOR)) <= cap
    ensures SameShape(v, r) && Wf(r)
  {
    if !truncated {
      NothingCut(v, LargestLeaf(v));
      CapKeepsShape(v, LargestLeaf(v));
    } else {
      var allowance: int :| FitsAt(v, cap, allowance, r);
      CapKeepsShape(v, allowance);
    }
  }
}
