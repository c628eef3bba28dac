/** What the projection asks of one schema node, keyword by keyword, and which of its values are schemas again. */
module SchemaProjectionNodes {
  import opened JsonValues
  import opened JsonPointer
  import opened SchemaProjection
  import CanonicalJson

  // ---------- keys ----------

  /** The keys a projected schema may have. */
  predicate Keyword(key: string) {
    || key == "$ref" || key == "type" || key == "format" || key == "title" || key == "description" || key == "pattern"
    || key == "minimum" || key == "maximum" || key == "minLength" || key == "maxLength" || key == "minItems" || key == "maxItems"
    || key == "required" || key == "enum" || key == "const" || key == "properties" || key == "items" || key == "prefixItems"
    || key == "additionalProperties" || key == "oneOf" || key == "anyOf" || key == "allOf" || key == "not"
  }

  predicate TypeName(name: string) {
    || name == "null" || name == "boolean" || name == "object" || name == "array" || name == "number" || name == "integer"
    || name == "string"
  }

  lemma KeywordsAre(key: string)
    ensures key == "$ref" || key in KEYWORDS <==> Keyword(key)
  {
  }

  lemma TypesAre(name: string)
    ensures name in TYPES <==> TypeName(name)
  {
  }

  lemma KnownKeysExactly(input: Json)
    ensures KnownKeys(input) <==> input.Obj? && forall key :: Has(input, key) ==> Keyword(key)
  {
    hide Keyword, Has;
    if input.Obj? {
      forall i | 0 <= i < |input.fields| ensures Has(input, input.fields[i].key) { FieldIsPresent(input, i); }
      forall key { KeywordsAre(key); }
      forall key | Has(input, key) ensures exists i :: 0 <= i < |input.fields| && input.fields[i].key == key {
        HasField(input, key);
      }
    }
  }

  lemma HasField(input: Json, key: string)
    requires Has(input, key)
    ensures input.Obj? && exists i :: 0 <= i < |input.fields| && input.fields[i].key == key
  {
    assert input.fields[Find(input.fields, key)].key == key;
  }

  // ---------- plain values ----------

  /** A value inside another one, so many levels down. */
  ghost predicate Inside(whole: Json, part: Json, levels: nat)
    decreases whole
  {
    if levels == 0 then part == whole
    else
      match whole
      case Obj(fields) => exists i :: 0 <= i < |fields| && Inside(fields[i].value, part, levels - 1)
      case Arr(items) => exists i :: 0 <= i < |items| && Inside(items[i], part, levels - 1)
      case _ => false
  }

  predicate Narrow(part: Json) {
    (part.Arr? ==> |part.items| <= 1000) && (part.Obj? ==> |part.fields| <= 1000)
  }

  /** Nothing in the value is too far down, or has too many members. */
  ghost predicate Plain(v: Json, depth: nat) {
    forall part, levels: nat :: Inside(v, part, levels) ==> depth + levels <= 64 && Narrow(part)
  }

  /** Plain values are at most 64 levels deep, and nothing in them has more than 1000 members. */
  lemma JsonValueExactly(v: Json, depth: nat)
    ensures JsonValue(v, depth) <==> Plain(v, depth)
  {
    if JsonValue(v, depth) {
      forall part, levels: nat | Inside(v, part, levels) ensures depth + levels <= 64 && Narrow(part) {
        PartIsSmall(v, depth, part, levels);
      }
    } else {
      var part, levels := TooBig(v, depth);
      assert !(depth + levels <= 64 && Narrow(part));
    }
  }

  lemma {:induction false} PartIsSmall(v: Json, depth: nat, part: Json, levels: nat)
    requires JsonValue(v, depth) && Inside(v, part, levels)
    ensures depth + levels <= 64 && Narrow(part)
    decreases levels
  {
    if levels > 0 {
      InsideBelow(v, part, levels);
      if v.Arr? {
        var i :| 0 <= i < |v.items| && Inside(v.items[i], part, levels - 1);
        PartIsSmall(v.items[i], depth + 1, part, levels - 1);
      } else {
        var i :| 0 <= i < |v.fields| && Inside(v.fields[i].value, part, levels - 1);
        PartIsSmall(v.fields[i].value, depth + 1, part, levels - 1);
      }
    }
  }

  lemma {:induction false} TooBig(v: Json, depth: nat) returns (part: Json, levels: nat)
    requires !JsonValue(v, depth)
    ensures Inside(v, part, levels) && !(depth + levels <= 64 && Narrow(part))
    decreases v
  {
    InsideItself(v);
    part, levels := v, 0;
    if depth <= 64 && Narrow(v) {
      if v.Arr? {
        var i :| 0 <= i < |v.items| && !JsonValue(v.items[i], depth + 1);
        part, levels := TooBig(v.items[i], depth + 1);
        levels := levels + 1;
      } else {
        var i :| 0 <= i < |v.fields| && !JsonValue(v.fields[i].value, depth + 1);
        part, levels := TooBig(v.fields[i].value, depth + 1);
        levels := levels + 1;
      }
    }
  }

  lemma InsideItself(v: Json)
    ensures Inside(v, v, 0)
  {
  }

  lemma InsideBelow(v: Json, part: Json, levels: nat)
    requires levels > 0 && Inside(v, part, levels)
    ensures (v.Arr? && exists i :: 0 <= i < |v.items| && Inside(v.items[i], part, levels - 1))
         || (v.Obj? && exists i :: 0 <= i < |v.fields| && Inside(v.fields[i].value, part, levels - 1))
  {
  }

  // ---------- one node ----------

  predicate DifferentItems(items: seq<Json>) {
    forall i, j :: 0 <= i < j < |items| ==> items[i] != items[j]
  }

  /** One type name, or one to seven different ones. */
  predicate TypeAccepted(found: Option<Json>) {
    found.Some? ==>
      || (found.value.Str? && TypeName(found.value.text))
      || (&& found.value.Arr? && 1 <= |found.value.items| <= 7 && DifferentItems(found.value.items)
          && forall i :: 0 <= i < |found.value.items| ==> found.value.items[i].Str? && TypeName(found.value.items[i].text))
  }

  predicate IsText(found: Option<Json>) {
    found.Some? ==> found.value.Str?
  }

  predicate IsNumber(found: Option<Json>) {
    found.Some? ==> found.value.Num?
  }

  /** A whole number that is not negative. */
  predicate IsCount(found: Option<Json>) {
    found.Some? ==> found.value.Num? && found.value.number.exponent >= 0 && found.value.number.coefficient >= 0
  }

  predicate RequiredAccepted(found: Option<Json>) {
    found.Some? ==>
      && found.value.Arr? && DifferentItems(found.value.items)
      && forall i :: 0 <= i < |found.value.items| ==> found.value.items[i].Str? && found.value.items[i].text != ""
  }

  /** Some plain values that the host tells apart. */
  ghost predicate EnumAccepted(host: Host, found: Option<Json>) {
    found.Some? ==>
      && found.value.Arr? && found.value.items != []
      && (forall i :: 0 <= i < |found.value.items| ==> Plain(found.value.items[i], 0))
      && forall i, j :: 0 <= i < j < |found.value.items| ==>
           host.canonical(found.value.items[i]) != host.canonical(found.value.items[j])
  }

  predicate ListAccepted(found: Option<Json>, least: nat) {
    found.Some? ==> found.value.Arr? && least <= |found.value.items| <= 32
  }

  ghost predicate NodeAccepted(host: Host, input: Json) {
    && input.Obj? && (forall key :: Has(input, key) ==> Keyword(key))
    && TypeAccepted(Get(input, "type"))
    && (Has(input, "const") ==> Plain(Get(input, "const").value, 0))
    && IsText(Get(input, "title")) && IsText(Get(input, "description")) && IsText(Get(input, "pattern"))
    && IsText(Get(input, "format")) && Get(input, "format") != Some(Str(""))
    && IsNumber(Get(input, "minimum")) && IsNumber(Get(input, "maximum"))
    && IsCount(Get(input, "minLength")) && IsCount(Get(input, "maxLength"))
    && IsCount(Get(input, "minItems")) && IsCount(Get(input, "maxItems"))
    && RequiredAccepted(Get(input, "required")) && EnumAccepted(host, Get(input, "enum"))
    && (Has(input, "properties") ==> Get(input, "properties").value.Obj?)
    && ListAccepted(Get(input, "prefixItems"), 0) && ListAccepted(Get(input, "oneOf"), 1)
    && ListAccepted(Get(input, "anyOf"), 1) && ListAccepted(Get(input, "allOf"), 1)
    && (Has(input, "additionalProperties") ==> !Get(input, "additionalProperties").value.Bool?)
  }

  lemma TypeExactly(input: Json)
    ensures TypeFine(input) <==> TypeAccepted(Get(input, "type"))
  {
    hide Get, TypeName;
    forall name { TypesAre(name); }
  }

  lemma RequiredExactly(input: Json)
    ensures RequiredFine(input) <==> RequiredAccepted(Get(input, "required"))
  {
    hide Get;
  }

  lemma EnumExactly(host: Host, input: Json)
    ensures EnumFine(host, input) <==> EnumAccepted(host, Get(input, "enum"))
  {
    hide Get, Plain;
    var found := Get(input, "enum");
    if found.Some? && found.value.Arr? {
      forall i | 0 <= i < |found.value.items| ensures JsonValue(found.value.items[i], 0) <==> Plain(found.value.items[i], 0) {
        JsonValueExactly(found.value.items[i], 0);
      }
    }
  }

  lemma TextsAndNumbersExactly(input: Json)
    ensures TextsFine(input) <==>
      && IsText(Get(input, "title")) && IsText(Get(input, "description")) && IsText(Get(input, "pattern"))
      && IsText(Get(input, "format")) && Get(input, "format") != Some(Str(""))
    ensures NumbersFine(input) <==>
      && IsNumber(Get(input, "minimum")) && IsNumber(Get(input, "maximum"))
      && IsCount(Get(input, "minLength")) && IsCount(Get(input, "maxLength"))
      && IsCount(Get(input, "minItems")) && IsCount(Get(input, "maxItems"))
  {
    hide Get;
  }

  lemma ConstExactly(input: Json)
    ensures ConstFine(input) <==> (Has(input, "const") ==> Plain(Get(input, "const").value, 0))
  {
    hide Get, Plain;
    if Get(input, "const").Some? { JsonValueExactly(Get(input, "const").value, 0); }
  }

  lemma ListExactly(input: Json, key: string, least: nat)
    ensures ListAt(input, key, least) <==> ListAccepted(Get(input, key), least)
  {
    hide Get;
  }

  /** The check accepts exactly the nodes that keep to these conditions on their keywords. */
  lemma NodeFineExactly(host: Host, input: Json)
    ensures NodeFine(host, input) <==> NodeAccepted(host, input)
  {
    hide Get, Keyword, TypeAccepted, RequiredAccepted, EnumAccepted, ListAccepted, IsText, IsNumber, IsCount, Plain, KnownKeys,
      TypeFine, RequiredFine, EnumFine, ListAt, TextsFine, NumbersFine, ConstFine;
    KnownKeysExactly(input);
    TypeExactly(input);
    ConstExactly(input);
    TextsAndNumbersExactly(input);
    RequiredExactly(input);
    EnumExactly(host, input);
    ListExactly(input, "prefixItems", 0);
    ListExactly(input, "oneOf", 1);
    ListExactly(input, "anyOf", 1);
    ListExactly(input, "allOf", 1);
  }

  /** A node is a reference to a component exactly when this is all it says. */
  lemma CleanReferenceExactly(input: Json)
    ensures IsReference(input) <==> Get(input, "$ref").Some? && Get(input, "$ref").value.Str?
    ensures IsReference(input) ==>
      (CleanReference(input) <==>
        && (forall key :: Has(input, key) ==> key == "$ref")
        && exists token :: NamesComponent(Get(input, "$ref").value.text, token))
    ensures IsReference(input) && CleanReference(input) ==>
      NamesComponent(Get(input, "$ref").value.text, Escape(ReferencedName(ReferenceText(input)).value))
  {
    if IsReference(input) {
      ReferenceKeys(input);
      ReferenceTokens(Get(input, "$ref").value.text);
      hide Get, ReferencedName, NamesComponent, CanonicalJson.Keys;
    }
  }

  /** The text of a reference: the components' prefix and one token. */
  predicate NamesComponent(text: string, token: string) {
    text == "#/components/schemas/" + token && token != "" && '/' !in token && TildesEscaped(token)
  }

  lemma ReferenceKeys(input: Json)
    requires IsReference(input)
    ensures input.Obj? && (CanonicalJson.Keys(input) == {"$ref"} <==> forall key :: Has(input, key) ==> key == "$ref")
  {
    assert input.Obj?;
    forall key { CanonicalJson.KeyIsPresent(input, key); }
  }

  lemma ReferenceTokens(text: string)
    ensures ReferencedName(text).Some? <==> exists token :: NamesComponent(text, token)
    ensures ReferencedName(text).Some? ==> NamesComponent(text, Escape(ReferencedName(text).value))
  {
    if ReferencedName(text).Some? {
      var token := text[|COMPONENTS|..];
      EscapeUnescape(token);
      assert text == COMPONENTS + token && COMPONENTS == "#/components/schemas/";
      assert NamesComponent(text, token);
    }
    if exists token :: NamesComponent(text, token) {
      var token :| NamesComponent(text, token);
      assert COMPONENTS == "#/components/schemas/";
      assert text[..|COMPONENTS|] == COMPONENTS && text[|COMPONENTS|..] == token;
    }
  }

  // ---------- schemas below a node ----------

  /** The value stands where a schema stands. */
  ghost predicate Below(input: Json, kid: Json) {
    || Get(input, "items") == Some(kid) || Get(input, "not") == Some(kid)
    || (Get(input, "additionalProperties") == Some(kid) && !kid.Bool?)
    || InList(Get(input, "prefixItems"), kid) || InList(Get(input, "oneOf"), kid) || InList(Get(input, "anyOf"), kid)
    || InList(Get(input, "allOf"), kid)
    || InMap(Get(input, "properties"), kid)
  }

  ghost predicate InList(found: Option<Json>, kid: Json) {
    found.Some? && if found.value.Arr? then kid in found.value.items else found.value == kid
  }

  ghost predicate InMap(found: Option<Json>, kid: Json) {
    found.Some? && if found.value.Obj? then exists i :: 0 <= i < |found.value.fields| && found.value.fields[i].value == kid
                   else found.value == kid
  }

  lemma {:induction false} KidsOfExactly(input: Json, keys: seq<string>, kid: Json)
    ensures kid in KidsOf(input, keys) <==> exists k :: 0 <= k < |keys| && kid in KidsAt(input, keys[k])
  {
    hide KidsAt;
    if keys != [] {
      KidsOfExactly(input, keys[1..], kid);
      if kid in KidsOf(input, keys[1..]) {
        var k :| 0 <= k < |keys[1..]| && kid in KidsAt(input, keys[1..][k]);
        assert keys[k + 1] == keys[1..][k];
      }
      if k :| 0 <= k < |keys| && kid in KidsAt(input, keys[k]) {
        if k > 0 { assert keys[1..][k - 1] == keys[k]; }
      }
    }
  }

  lemma ListKids(input: Json, key: string, kid: Json)
    requires key == "prefixItems" || key == "oneOf" || key == "anyOf" || key == "allOf"
    ensures kid in KidsAt(input, key) <==> InList(Get(input, key), kid)
  {
    assert RoleOf(key) == SchemaList;
    hide Get, RoleOf;
  }

  lemma ValuesHold(fields: seq<Field>, kid: Json)
    ensures kid in ValuesOf(fields) <==> exists i :: 0 <= i < |fields| && fields[i].value == kid
  {
    if i :| 0 <= i < |fields| && fields[i].value == kid { assert ValuesOf(fields)[i] == kid; }
    hide ValuesOf;
  }

  lemma OtherKids(input: Json, kid: Json)
    ensures kid in KidsAt(input, "properties") <==> InMap(Get(input, "properties"), kid)
    ensures kid in KidsAt(input, "items") <==> Get(input, "items") == Some(kid)
    ensures kid in KidsAt(input, "not") <==> Get(input, "not") == Some(kid)
    ensures kid in KidsAt(input, "additionalProperties") <==> Get(input, "additionalProperties") == Some(kid) && !kid.Bool?
  {
    assert RoleOf("properties") == SchemaMap && RoleOf("items") == OneSchema && RoleOf("not") == OneSchema;
    assert RoleOf("additionalProperties") == OneSchema && "items" != "additionalProperties" && "not" != "additionalProperties";
    hide Get, RoleOf, ValuesOf;
    var found := Get(input, "properties");
    if found.Some? && found.value.Obj? { ValuesHold(found.value.fields, kid); }
  }

  /** The check visits exactly the values standing where a schema stands. */
  lemma AllKidsExactly(input: Json, kid: Json)
    ensures kid in AllKids(input) <==> Below(input, kid)
  {
    hide KidsAt, Get, InList, InMap;
    KidsOfExactly(input, NESTED, kid);
    ListKids(input, "prefixItems", kid);
    ListKids(input, "oneOf", kid);
    ListKids(input, "anyOf", kid);
    ListKids(input, "allOf", kid);
    OtherKids(input, kid);
    NestedAre();
    assert (exists k :: 0 <= k < |NESTED| && kid in KidsAt(input, NESTED[k])) <==>
      || kid in KidsAt(input, NESTED[0]) || kid in KidsAt(input, NESTED[1]) || kid in KidsAt(input, NESTED[2])
      || kid in KidsAt(input, NESTED[3]) || kid in KidsAt(input, NESTED[4]) || kid in KidsAt(input, NESTED[5])
      || kid in KidsAt(input, NESTED[6]) || kid in KidsAt(input, NESTED[7]);
  }

  lemma NestedAre()
    ensures |NESTED| == 8 && NESTED[0] == "properties" && NESTED[1] == "items" && NESTED[2] == "additionalProperties"
    ensures NESTED[3] == "prefixItems" && NESTED[4] == "oneOf" && NESTED[5] == "anyOf" && NESTED[6] == "allOf"
    ensures NESTED[7] == "not"
  {
  }
}
