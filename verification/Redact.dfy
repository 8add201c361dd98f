/**
  Blanking the values under sensitive keys (`_redact`), JSON text under the listed keys included.
 */
module Redact {
  import opened Wrappers
  import opened Json
  import opened JsonLoads
  import JsonValues
  import JsonReads
  import G = JsonGrammar
  import Decimal

  const PLACEHOLDER := "[REDACTED]"

  /** Which keys are sensitive, which may hold serialized JSON, and how a float read from text prints. */
  datatype Rules = Rules(secret: string -> bool, jsonKeys: set<string>, floats: string -> string)

  predicate IsContainer(v: Json) {
    v.List? || v.Dict?
  }

  /** The list or dictionary that `text` reads as, if it does. */
  function Container(text: string, floats: string -> string): (r: Option<Json>)
    ensures r.Some? ==> IsContainer(r.value) && TextSize(r.value) < |text| && Loads(text, floats) == r
  {
    match Loads(text, floats)
    case Some(v) =>
      LoadsSound(text, floats);
      if IsContainer(v) then Some(v) else None
    case None => None
  }

  function Redact(v: Json, rules: Rules): Json
    decreases TextSize(v), 1, v
  {
    match v
    case List(items) => List(RedactItems(items, rules))
    case Tuple(items) => List(RedactItems(items, rules))
    case Dict(fields) => Dict(RedactFields(fields, rules))
    case _ => v
  }

  function RedactItems(items: seq<Json>, rules: Rules): (r: seq<Json>)
    ensures |r| == |items|
    decreases ItemsTextSize(items), 1, items
  {
    if items == [] then []
    else [Redact(items[0], rules)] + RedactItems(items[1..], rules)
  }

  function RedactFields(fields: seq<Field>, rules: Rules): (r: seq<Field>)
    ensures |r| == |fields|
    ensures forall i :: 0 <= i < |fields| ==> r[i].key == fields[i].key
    decreases FieldsTextSize(fields), 1, fields
  {
    if fields == [] then [] else [RedactField(fields[0], rules)] + RedactFields(fields[1..], rules)
  }

  function RedactField(f: Field, rules: Rules): (r: Field)
    ensures r.key == f.key
    decreases |f.key| + TextSize(f.value), 1, f
  {
    Field(f.key,
          if rules.secret(f.key) then Str(PLACEHOLDER)
          else if f.key in rules.jsonKeys && f.value.Str? then Str(RedactJsonString(f.value.text, rules))
          else Redact(f.value, rules))
  }

  function RedactJsonString(text: string, rules: Rules): string
    decreases |text|, 0
  {
    match Container(text, rules.floats)
    case Some(parsed) => Dumps(Redact(parsed, rules))
    case None => text
  }

  // ---- what redaction may change ----

  /** `r` is `v` with placeholders under the sensitive keys, tuples listed, and nothing else changed. */
  ghost predicate OnlySecretsDiffer(v: Json, r: Json, rules: Rules)
    decreases TextSize(v), 1, v
  {
    match v
    case List(items) => r.List? && OnlySecretItemsDiffer(items, r.items, rules)
    case Tuple(items) => r.List? && OnlySecretItemsDiffer(items, r.items, rules)
    case Dict(fields) => r.Dict? && OnlySecretFieldsDiffer(fields, r.fields, rules)
    case _ => r == v
  }

  ghost predicate OnlySecretItemsDiffer(a: seq<Json>, b: seq<Json>, rules: Rules)
    decreases ItemsTextSize(a), 1, a
  {
    |a| == |b| && (a == [] ||
      (OnlySecretsDiffer(a[0], b[0], rules) && OnlySecretItemsDiffer(a[1..], b[1..], rules)))
  }

  ghost predicate OnlySecretFieldsDiffer(a: seq<Field>, b: seq<Field>, rules: Rules)
    decreases FieldsTextSize(a), 1, a
  {
    |a| == |b| && (a == [] || (FieldDiffers(a[0], b[0], rules) && OnlySecretFieldsDiffer(a[1..], b[1..], rules)))
  }

  ghost predicate FieldDiffers(a: Field, b: Field, rules: Rules)
    decreases |a.key| + TextSize(a.value), 1, a
  {
    && a.key == b.key
    && if rules.secret(a.key) then b.value == Str("[REDACTED]")
       else if a.key in rules.jsonKeys && a.value.Str?
       then b.value.Str? && OnlySecretsInTextDiffer(a.value.text, b.value.text, rules)
       else OnlySecretsDiffer(a.value, b.value, rules)
  }

  /** The same for two JSON texts: what the second one reads as differs only in the secrets. */
  ghost predicate OnlySecretsInTextDiffer(a: string, b: string, rules: Rules)
    decreases |a|, 0
  {
    match Container(a, rules.floats)
    case Some(parsed) =>
      Container(b, rules.floats).Some? && OnlySecretsDiffer(parsed, Container(b, rules.floats).value, rules)
    case None => a == b
  }

  // ---- what is left afterwards ----

  /** The list or dictionary that the grammar finds in `text`, repeated keys and all. */
  function Written(text: string): (r: Option<Json>)
    ensures r.Some? ==> IsContainer(r.value) && TextSize(r.value) < |text| && Parse(text) == r
  {
    match Parse(text)
    case Some(v) =>
      ParseSound(text);
      if IsContainer(v) then Some(v) else None
    case None => None
  }

  /** Every field written in `v` at any depth, JSON text under the listed keys included. */
  ghost function Pairs(v: Json, jsonKeys: set<string>): set<Field>
    decreases TextSize(v), 1, v
  {
    match v
    case List(items) => ItemPairs(items, jsonKeys)
    case Tuple(items) => ItemPairs(items, jsonKeys)
    case Dict(fields) => FieldPairs(fields, jsonKeys)
    case _ => {}
  }

  ghost function ItemPairs(items: seq<Json>, jsonKeys: set<string>): set<Field>
    decreases ItemsTextSize(items), 1, items
  {
    if items == [] then {} else Pairs(items[0], jsonKeys) + ItemPairs(items[1..], jsonKeys)
  }

  ghost function FieldPairs(fields: seq<Field>, jsonKeys: set<string>): set<Field>
    decreases FieldsTextSize(fields), 1, fields
  {
    if fields == [] then {}
    else {fields[0]} + ValuePairs(fields[0], jsonKeys) + FieldPairs(fields[1..], jsonKeys)
  }

  /** Those in the value of one field. */
  ghost function ValuePairs(f: Field, jsonKeys: set<string>): set<Field>
    decreases |f.key| + TextSize(f.value), 1, f
  {
    if f.key in jsonKeys && f.value.Str? then TextPairs(f.value.text, jsonKeys) else Pairs(f.value, jsonKeys)
  }

  ghost function TextPairs(text: string, jsonKeys: set<string>): set<Field>
    decreases |text|, 0
  {
    match Written(text)
    case Some(v) => Pairs(v, jsonKeys)
    case None => {}
  }

  ghost predicate NoSecrets(pairs: set<Field>, secret: string -> bool) {
    forall f :: f in pairs && secret(f.key) ==> f.value == Str("[REDACTED]")
  }

  /**
    The fields written in JSON text that redaction comes to but Python does not read, an integer
    in it having too many digits.
   */
  ghost function Unread(v: Json, rules: Rules): set<Field>
    decreases TextSize(v), 1, v
  {
    match v
    case List(items) => UnreadItems(items, rules)
    case Tuple(items) => UnreadItems(items, rules)
    case Dict(fields) => UnreadFields(fields, rules)
    case _ => {}
  }

  ghost function UnreadItems(items: seq<Json>, rules: Rules): set<Field>
    decreases ItemsTextSize(items), 1, items
  {
    if items == [] then {} else Unread(items[0], rules) + UnreadItems(items[1..], rules)
  }

  ghost function UnreadFields(fields: seq<Field>, rules: Rules): set<Field>
    decreases FieldsTextSize(fields), 1, fields
  {
    if fields == [] then {} else UnreadValue(fields[0], rules) + UnreadFields(fields[1..], rules)
  }

  ghost function UnreadValue(f: Field, rules: Rules): set<Field>
    decreases |f.key| + TextSize(f.value), 1, f
  {
    if rules.secret(f.key) then {}
    else if f.key in rules.jsonKeys && f.value.Str? then UnreadText(f.value.text, rules)
    else Unread(f.value, rules)
  }

  ghost function UnreadText(text: string, rules: Rules): set<Field>
    decreases |text|, 0
  {
    match Container(text, rules.floats)
    case Some(parsed) => Unread(parsed, rules)
    case None => TextPairs(text, rules.jsonKeys)
  }

  // ---- proofs ----

  /** A redacted value is still one that JSON text can stand for. */
  lemma {:induction false} RedactKeepsDocument(v: Json, rules: Rules)
    requires Wf(v)
    ensures Document(Redact(v, rules))
    decreases v, 0
  {
    match v
    case List(items) => RedactItemsKeepDocument(items, rules);
    case Tuple(items) => RedactItemsKeepDocument(items, rules);
    case Dict(fields) => RedactFieldsKeepDocument(fields, rules);
    case _ =>
  }

  lemma {:induction false} RedactItemsKeepDocument(items: seq<Json>, rules: Rules)
    requires WfItems(items)
    ensures WfItems(RedactItems(items, rules)) && NoTupleItems(RedactItems(items, rules))
    decreases items, 1
  {
    if items == [] {
    } else {
      RedactKeepsDocument(items[0], rules);
      RedactItemsKeepDocument(items[1..], rules);
    }
  }

  lemma {:induction false} RedactFieldsKeepDocument(fields: seq<Field>, rules: Rules)
    requires WfFields(fields)
    ensures WfFields(RedactFields(fields, rules)) && NoTupleFields(RedactFields(fields, rules))
    decreases fields, 1
  {
    if fields == [] {
    } else {
      RedactKeepsDocument(fields[0].value, rules);
      RedactFieldsKeepDocument(fields[1..], rules);
    }
  }

  lemma {:induction false} RedactKeepsNumbers(v: Json, rules: Rules, p: string -> bool)
    requires AllNumbers(v, p)
    ensures AllNumbers(Redact(v, rules), p)
    decreases v, 0
  {
    match v
    case List(items) => RedactItemsKeepNumbers(items, rules, p);
    case Tuple(items) => RedactItemsKeepNumbers(items, rules, p);
    case Dict(fields) => RedactFieldsKeepNumbers(fields, rules, p);
    case _ =>
  }

  lemma {:induction false} RedactItemsKeepNumbers(items: seq<Json>, rules: Rules, p: string -> bool)
    requires AllNumbersIn(items, p)
    ensures AllNumbersIn(RedactItems(items, rules), p)
    decreases items, 1
  {
    if items == [] {
    } else {
      RedactKeepsNumbers(items[0], rules, p);
      RedactItemsKeepNumbers(items[1..], rules, p);
    }
  }

  lemma {:induction false} RedactFieldsKeepNumbers(fields: seq<Field>, rules: Rules, p: string -> bool)
    requires AllNumbersUnder(fields, p)
    ensures AllNumbersUnder(RedactFields(fields, rules), p)
    decreases fields, 1
  {
    if fields == [] {
    } else {
      RedactKeepsNumbers(fields[0].value, rules, p);
      RedactFieldsKeepNumbers(fields[1..], rules, p);
    }
  }

  lemma RedactIsStable(v: Json, rules: Rules)
    requires Stable(v, rules.floats)
    ensures Stable(Redact(v, rules), rules.floats)
  {
    RedactKeepsDocument(v, rules);
    RedactKeepsNumbers(v, rules, Settled(rules.floats));
  }

  /** Redacted JSON text reads back as the redacted value. */
  lemma RedactedTextReads(text: string, rules: Rules)
    requires PrintsFloats(rules.floats) && Container(text, rules.floats).Some?
    ensures Container(RedactJsonString(text, rules), rules.floats)
         == Some(Redact(Container(text, rules.floats).value, rules))
  {
    var parsed := Container(text, rules.floats).value;
    LoadsSound(text, rules.floats);
    RedactIsStable(parsed, rules);
    JsonValues.RoundTrip(Redact(parsed, rules), rules.floats);
  }

  /** The grammar finds in the redacted text what Python reads in it. */
  lemma RedactedTextIsWritten(text: string, rules: Rules)
    requires PrintsFloats(rules.floats) && Container(text, rules.floats).Some?
    ensures Written(RedactJsonString(text, rules)) == Some(Redact(Container(text, rules.floats).value, rules))
  {
    var parsed := Container(text, rules.floats).value;
    LoadsSound(text, rules.floats);
    RedactIsStable(parsed, rules);
    JsonValues.ParseDumps(Redact(parsed, rules));
    ListedDocument(Redact(parsed, rules));
  }

  lemma {:induction false} RedactChangesOnlySecrets(v: Json, rules: Rules)
    requires PrintsFloats(rules.floats)
    ensures OnlySecretsDiffer(v, Redact(v, rules), rules)
    decreases TextSize(v), 1, v
  {
    match v
    case List(items) => RedactItemsChangeOnlySecrets(items, rules);
    case Tuple(items) => RedactItemsChangeOnlySecrets(items, rules);
    case Dict(fields) => RedactFieldsChangeOnlySecrets(fields, rules);
    case _ =>
  }

  lemma {:induction false} RedactItemsChangeOnlySecrets(items: seq<Json>, rules: Rules)
    requires PrintsFloats(rules.floats)
    ensures OnlySecretItemsDiffer(items, RedactItems(items, rules), rules)
    decreases ItemsTextSize(items), 1, items
  {
    if items == [] {
    } else {
      RedactChangesOnlySecrets(items[0], rules);
      RedactItemsChangeOnlySecrets(items[1..], rules);
    }
  }

  lemma {:induction false} RedactFieldsChangeOnlySecrets(
      fields: seq<Field>, rules: Rules)
    requires PrintsFloats(rules.floats)
    ensures OnlySecretFieldsDiffer(fields, RedactFields(fields, rules), rules)
    decreases FieldsTextSize(fields), 1, fields
  {
    if fields == [] {
    } else {
      if fields[0].key in rules.jsonKeys && fields[0].value.Str? {
        assert |fields[0].value.text| == TextSize(fields[0].value) <= FieldsTextSize(fields);
        RedactTextChangesOnlySecrets(fields[0].value.text, rules);
      } else {
        RedactChangesOnlySecrets(fields[0].value, rules);
      }
      RedactFieldsChangeOnlySecrets(fields[1..], rules);
    }
  }

  lemma {:induction false} RedactTextChangesOnlySecrets(text: string, rules: Rules)
    requires PrintsFloats(rules.floats)
    ensures OnlySecretsInTextDiffer(text, RedactJsonString(text, rules), rules)
    decreases |text|, 0
  {
    if Container(text, rules.floats).Some? {
      RedactChangesOnlySecrets(Container(text, rules.floats).value, rules);
      RedactedTextReads(text, rules);
    }
  }

  /** The placeholder is not JSON. */
  lemma PlaceholderIsNotJson(text: string)
    requires text == PLACEHOLDER
    ensures Written(text) == None
  {
    var inner := text[1..];
    assert inner[0] == 'R';
    assert NumberEnd(inner) == 0;
    assert ReadValue(inner) == None;
    assert SkipSpace(inner) == inner;
    assert ReadItems(inner) == None;
    assert text[0] == '[';
    assert SkipSpace(text) == text;
  }

  lemma NoSecretsInBoth(a: set<Field>, b: set<Field>, secret: string -> bool)
    ensures NoSecrets(a + b, secret) <==> NoSecrets(a, secret) && NoSecrets(b, secret)
  {
    assert forall f :: f in a + b <==> f in a || f in b;
  }

  /**
    After redaction the secrets left, at any depth and in JSON text under the listed keys, are those
    in text that Python does not read: there are none exactly when such text holds none.
   */
  lemma {:induction false} NoSecretsLeftIff(v: Json, rules: Rules)
    requires PrintsFloats(rules.floats)
    ensures NoSecrets(Pairs(Redact(v, rules), rules.jsonKeys), rules.secret)
            <==> NoSecrets(Unread(v, rules), rules.secret)
    decreases TextSize(v), 1, v
  {
    match v
    case List(items) => NoSecretsInItems(items, rules);
    case Tuple(items) => NoSecretsInItems(items, rules);
    case Dict(fields) => NoSecretsInFields(fields, rules);
    case _ =>
  }

  lemma {:induction false} NoSecretsInItems(items: seq<Json>, rules: Rules)
    requires PrintsFloats(rules.floats)
    ensures NoSecrets(ItemPairs(RedactItems(items, rules), rules.jsonKeys), rules.secret)
            <==> NoSecrets(UnreadItems(items, rules), rules.secret)
    decreases ItemsTextSize(items), 1, items
  {
    if items == [] {
    } else {
      var first, rest := Redact(items[0], rules), RedactItems(items[1..], rules);
      NoSecretsLeftIff(items[0], rules);
      NoSecretsInItems(items[1..], rules);
      assert RedactItems(items, rules)[1..] == rest;
      NoSecretsInBoth(Pairs(first, rules.jsonKeys), ItemPairs(rest, rules.jsonKeys), rules.secret);
      NoSecretsInBoth(Unread(items[0], rules), UnreadItems(items[1..], rules), rules.secret);
    }
  }

  lemma {:induction false} NoSecretsInFields(fields: seq<Field>, rules: Rules)
    requires PrintsFloats(rules.floats)
    ensures NoSecrets(FieldPairs(RedactFields(fields, rules), rules.jsonKeys), rules.secret)
            <==> NoSecrets(UnreadFields(fields, rules), rules.secret)
    decreases FieldsTextSize(fields), 1, fields
  {
    if fields == [] {
    } else {
      var first, rest := RedactField(fields[0], rules), RedactFields(fields[1..], rules);
      NoSecretsInField(fields[0], rules);
      NoSecretsInFields(fields[1..], rules);
      assert RedactFields(fields, rules)[1..] == rest;
      NoSecretsInBoth({first} + ValuePairs(first, rules.jsonKeys), FieldPairs(rest, rules.jsonKeys), rules.secret);
      NoSecretsInBoth(UnreadValue(fields[0], rules), UnreadFields(fields[1..], rules), rules.secret);
    }
  }

  lemma {:induction false} NoSecretsInField(f: Field, rules: Rules)
    requires PrintsFloats(rules.floats)
    ensures var r := RedactField(f, rules);
            NoSecrets({r} + ValuePairs(r, rules.jsonKeys), rules.secret)
            <==> NoSecrets(UnreadValue(f, rules), rules.secret)
    decreases |f.key| + TextSize(f.value), 1, f
  {
    var r := RedactField(f, rules);
    NoSecretsInBoth({r}, ValuePairs(r, rules.jsonKeys), rules.secret);
    if rules.secret(f.key) {
      PlaceholderIsNotJson(PLACEHOLDER);
    } else if f.key in rules.jsonKeys && f.value.Str? {
      NoSecretsInText(f.value.text, rules);
    } else {
      RedactKeepsKind(f.value, rules);
      NoSecretsLeftIff(f.value, rules);
    }
  }

  lemma {:induction false} NoSecretsInText(text: string, rules: Rules)
    requires PrintsFloats(rules.floats)
    ensures NoSecrets(TextPairs(RedactJsonString(text, rules), rules.jsonKeys), rules.secret)
            <==> NoSecrets(UnreadText(text, rules), rules.secret)
    decreases |text|, 0
  {
    if Container(text, rules.floats).Some? {
      NoSecretsLeftIff(Container(text, rules.floats).value, rules);
      RedactedTextIsWritten(text, rules);
    }
  }

  /** Redacting twice is redacting once. */
  lemma {:induction false} RedactIdempotent(v: Json, rules: Rules)
    requires PrintsFloats(rules.floats)
    ensures Redact(Redact(v, rules), rules) == Redact(v, rules)
    decreases TextSize(v), 1, v
  {
    match v
    case List(items) => RedactItemsIdempotent(items, rules);
    case Tuple(items) => RedactItemsIdempotent(items, rules);
    case Dict(fields) => RedactFieldsIdempotent(fields, rules);
    case _ =>
  }

  lemma {:induction false} RedactItemsIdempotent(items: seq<Json>, rules: Rules)
    requires PrintsFloats(rules.floats)
    ensures RedactItems(RedactItems(items, rules), rules) == RedactItems(items, rules)
    decreases ItemsTextSize(items), 1, items
  {
    if items == [] {
    } else {
      RedactIdempotent(items[0], rules);
      RedactItemsIdempotent(items[1..], rules);
      assert RedactItems(items, rules)[1..] == RedactItems(items[1..], rules);
    }
  }

  lemma {:induction false} RedactFieldsIdempotent(fields: seq<Field>, rules: Rules)
    requires PrintsFloats(rules.floats)
    ensures RedactFields(RedactFields(fields, rules), rules)
         == RedactFields(fields, rules)
    decreases FieldsTextSize(fields), 1, fields
  {
    if fields == [] {
    } else {
      var f := fields[0];
      if f.key in rules.jsonKeys && f.value.Str? {
        assert |f.value.text| == TextSize(f.value) <= FieldsTextSize(fields);
        RedactTextIdempotent(f.value.text, rules);
      } else {
        RedactIdempotent(f.value, rules);
      }
      RedactKeepsKind(f.value, rules);
      RedactFieldsIdempotent(fields[1..], rules);
      assert RedactFields(fields, rules)[1..] == RedactFields(fields[1..], rules);
    }
  }

  lemma RedactKeepsKind(v: Json, rules: Rules)
    ensures Redact(v, rules).Str? <==> v.Str?
  {
  }

  lemma {:induction false} RedactTextIdempotent(text: string, rules: Rules)
    requires PrintsFloats(rules.floats)
    ensures RedactJsonString(RedactJsonString(text, rules), rules)
         == RedactJsonString(text, rules)
    decreases |text|, 0
  {
    if Container(text, rules.floats).Some? {
      RedactIdempotent(Container(text, rules.floats).value, rules);
      RedactedTextReads(text, rules);
    }
  }

  // ---- when text is read ----

  /** JSON text of a list or dictionary is redacted inside exactly when none of its integers is too long. */
  lemma RedactedInsideIff(text: string, rules: Rules)
    requires PrintsFloats(rules.floats) && Written(text).Some?
    ensures Container(text, rules.floats).Some? <==> Prints(Written(text).value)
    ensures Prints(Written(text).value) ==>
              Written(RedactJsonString(text, rules))
              == Some(Redact(Merged(Written(text).value, rules.floats), rules))
    ensures !Prints(Written(text).value) ==> RedactJsonString(text, rules) == text
  {
    if Container(text, rules.floats).Some? {
      RedactedTextIsWritten(text, rules);
    }
  }

  /** Under a sensitive key at any depth there is only the placeholder, whatever the texts hold. */
  lemma {:induction false} RedactBlanks(v: Json, rules: Rules)
    ensures NoSecrets(Pairs(Redact(v, rules), {}), rules.secret)
    decreases v, 0
  {
    match v
    case List(items) => RedactItemsBlank(items, rules);
    case Tuple(items) => RedactItemsBlank(items, rules);
    case Dict(fields) => RedactFieldsBlank(fields, rules);
    case _ =>
  }

  lemma {:induction false} RedactItemsBlank(items: seq<Json>, rules: Rules)
    ensures NoSecrets(ItemPairs(RedactItems(items, rules), {}), rules.secret)
    decreases items, 1
  {
    if items == [] {
    } else {
      RedactBlanks(items[0], rules);
      RedactItemsBlank(items[1..], rules);
      assert RedactItems(items, rules)[1..] == RedactItems(items[1..], rules);
    }
  }

  lemma {:induction false} RedactFieldsBlank(fields: seq<Field>, rules: Rules)
    ensures NoSecrets(FieldPairs(RedactFields(fields, rules), {}), rules.secret)
    decreases fields, 1
  {
    if fields == [] {
    } else {
      var first, rest := RedactField(fields[0], rules), RedactFields(fields[1..], rules);
      RedactBlanks(fields[0].value, rules);
      RedactFieldsBlank(fields[1..], rules);
      assert RedactFields(fields, rules)[1..] == rest;
      assert ValuePairs(first, {}) == Pairs(first.value, {});
      NoSecretsInBoth({first} + ValuePairs(first, {}), FieldPairs(rest, {}), rules.secret);
    }
  }

  /**
    JSON text of a list or dictionary, in whatever layout and spelling, comes back as JSON text of
    what Python holds after reading it, with only the placeholder under every sensitive key.
   */
  lemma TextIsBlanked(text: string, v: Json, rules: Rules) returns (held: Json)
    requires G.Denotes(text, v) && IsContainer(v) && Prints(v) && PrintsFloats(rules.floats)
    ensures JsonValues.Holds(v, held, rules.floats)
    ensures G.Denotes(RedactJsonString(text, rules), Redact(held, rules))
    ensures NoSecrets(Pairs(Redact(held, rules), {}), rules.secret)
  {
    JsonReads.ParseIff(text, v);
    JsonValues.LoadsIff(text, rules.floats);
    held := Loads(text, rules.floats).value;
    RedactedTextIsWritten(text, rules);
    JsonReads.ParseIff(RedactJsonString(text, rules), Redact(held, rules));
    RedactBlanks(held, rules);
  }

  /** Any other text, an integer of too many digits in it included, comes back as it is. */
  lemma OtherTextStays(text: string, rules: Rules)
    requires forall v :: G.Denotes(text, v) ==> !IsContainer(v) || !Prints(v)
    ensures RedactJsonString(text, rules) == text
  {
    if Parse(text).Some? {
      JsonReads.ParseIff(text, Parse(text).value);
    }
  }

  /** Every JSON text that redaction comes to has only integers that Python reads. */
  ghost predicate AllRead(v: Json, rules: Rules)
    decreases TextSize(v), 1, v
  {
    match v
    case List(items) => AllItemsRead(items, rules)
    case Tuple(items) => AllItemsRead(items, rules)
    case Dict(fields) => AllFieldsRead(fields, rules)
    case _ => true
  }

  ghost predicate AllItemsRead(items: seq<Json>, rules: Rules)
    decreases ItemsTextSize(items), 1, items
  {
    items == [] || (AllRead(items[0], rules) && AllItemsRead(items[1..], rules))
  }

  ghost predicate AllFieldsRead(fields: seq<Field>, rules: Rules)
    decreases FieldsTextSize(fields), 1, fields
  {
    fields == [] || (FieldRead(fields[0], rules) && AllFieldsRead(fields[1..], rules))
  }

  ghost predicate FieldRead(f: Field, rules: Rules)
    decreases |f.key| + TextSize(f.value), 1, f
  {
    if rules.secret(f.key) then true
    else if f.key in rules.jsonKeys && f.value.Str? then TextRead(f.value.text, rules)
    else AllRead(f.value, rules)
  }

  ghost predicate TextRead(text: string, rules: Rules)
    decreases |text|, 0
  {
    match Container(text, rules.floats)
    case Some(parsed) => AllRead(parsed, rules)
    case None => Written(text).None?
  }

  lemma {:induction false} NothingUnread(v: Json, rules: Rules)
    requires AllRead(v, rules)
    ensures Unread(v, rules) == {}
    decreases TextSize(v), 1, v
  {
    match v
    case List(items) => NoItemUnread(items, rules);
    case Tuple(items) => NoItemUnread(items, rules);
    case Dict(fields) => NoFieldUnread(fields, rules);
    case _ =>
  }

  lemma {:induction false} NoItemUnread(items: seq<Json>, rules: Rules)
    requires AllItemsRead(items, rules)
    ensures UnreadItems(items, rules) == {}
    decreases ItemsTextSize(items), 1, items
  {
    if items == [] {
    } else {
      NothingUnread(items[0], rules);
      NoItemUnread(items[1..], rules);
    }
  }

  lemma {:induction false} NoFieldUnread(fields: seq<Field>, rules: Rules)
    requires AllFieldsRead(fields, rules)
    ensures UnreadFields(fields, rules) == {}
    decreases FieldsTextSize(fields), 1, fields
  {
    if fields == [] {
    } else {
      var f := fields[0];
      NoFieldUnread(fields[1..], rules);
      if rules.secret(f.key) {
      } else if f.key in rules.jsonKeys && f.value.Str? {
        assert |f.value.text| == TextSize(f.value) <= FieldsTextSize(fields);
        NoTextUnread(f.value.text, rules);
      } else {
        NothingUnread(f.value, rules);
      }
    }
  }

  lemma {:induction false} NoTextUnread(text: string, rules: Rules)
    requires TextRead(text, rules)
    ensures UnreadText(text, rules) == {}
    decreases |text|, 0
  {
    if Container(text, rules.floats).Some? {
      NothingUnread(Container(text, rules.floats).value, rules);
    }
  }

  /** Where every text is read, redaction leaves only placeholders under the sensitive keys. */
  lemma NoSecretsLeft(v: Json, rules: Rules)
    requires PrintsFloats(rules.floats) && AllRead(v, rules)
    ensures NoSecrets(Pairs(Redact(v, rules), rules.jsonKeys), rules.secret)
  {
    NoSecretsLeftIff(v, rules);
    NothingUnread(v, rules);
  }

  /** JSON text with a secret, and beside it an integer of too many digits. */
  function SecretBeside(key: string, secretText: string, integer: string): Json {
    Dict([Field(key, Str(secretText)), Field("n", Num(integer))])
  }

  lemma LastField(b: Field, p: string -> bool)
    ensures WfFields([b]) <==> Wf(b.value)
    ensures AllNumbersUnder([b], p) <==> AllNumbers(b.value, p)
    ensures ListedFields([b]) == [Field(b.key, Listed(b.value))]
  {
    assert [b][1..] == [];
  }

  lemma BothFields(a: Field, b: Field, p: string -> bool)
    ensures WfFields([a, b]) <==> Wf(a.value) && Wf(b.value)
    ensures AllNumbersUnder([a, b], p) <==> AllNumbers(a.value, p) && AllNumbers(b.value, p)
    ensures ListedFields([a, b]) == [Field(a.key, Listed(a.value)), Field(b.key, Listed(b.value))]
  {
    assert [a, b][1..] == [b];
    LastField(b, p);
  }

  /** Such text keeps its secret: Python does not read it, and redaction leaves it alone. */
  lemma TooLongKeepsSecret(key: string, secretText: string, integer: string, rules: Rules)
    requires rules.secret(key) && key != "n" && secretText != PLACEHOLDER && TooLong(integer)
    ensures var text := Dumps(SecretBeside(key, secretText, integer));
            RedactJsonString(text, rules) == text && !NoSecrets(TextPairs(text, rules.jsonKeys), rules.secret)
  {
    var v := SecretBeside(key, secretText, integer);
    BothFields(v.fields[0], v.fields[1], NotTooLong());
    assert Wf(v) && !Prints(v) && Listed(v) == v;
    JsonValues.LoadsDumps(v, rules.floats);
    JsonValues.ParseDumps(v);
    assert v.fields[0] in Pairs(v, rules.jsonKeys);
  }

  /** The shortest such integer. */
  lemma FirstTooLong(integer: string)
    requires |integer| == Decimal.MAX_DIGITS + 1 && forall i :: 0 <= i < |integer| ==> integer[i] == '1'
    ensures TooLong(integer)
  {
    OnesEnd(integer, 0);
  }

  lemma {:induction false} OnesEnd(s: string, i: nat)
    requires i <= |s| && forall k :: 0 <= k < |s| ==> s[k] == '1'
    ensures DigitsEnd(s, i) == |s|
    decreases |s| - i
  {
    if i == |s| {
    } else {
      OnesEnd(s, i + 1);
    }
  }
}
