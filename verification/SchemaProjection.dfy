/** OpenAPI 3.1 schemas: the check that a schema can be projected, and the translation it guards. */
module SchemaProjection {
  import opened JsonValues
  import opened JsonPointer
  import opened CanonicalJson
  import Strings

  const MAX_DEPTH := 32
  const MAX_NODES := 50000
  const COMPONENTS := "#/components/schemas/"
  const TARGETS := "#/schemas/"

  // ---------- keywords ----------

  /** The keywords of a projected schema besides `$ref`, in the order they are written. */
  const KEYWORDS: seq<string> :=
    ["type", "format", "title", "description", "pattern", "minimum", "maximum", "minLength", "maxLength", "minItems", "maxItems",
     "required", "enum", "const", "properties", "items", "prefixItems", "additionalProperties", "oneOf", "anyOf", "allOf", "not"]

  const TYPES: seq<string> := ["null", "boolean", "object", "array", "number", "integer", "string"]

  /** Keywords holding schemas, in the order the check visits them. */
  const NESTED: seq<string> := ["properties", "items", "additionalProperties", "prefixItems", "oneOf", "anyOf", "allOf", "not"]

  datatype Role = Verbatim | OneSchema | SchemaList | SchemaMap

  function RoleOf(key: string): Role {
    if key == "properties" then SchemaMap
    else if key == "items" || key == "additionalProperties" || key == "not" then OneSchema
    else if key == "prefixItems" || key == "oneOf" || key == "anyOf" || key == "allOf" then SchemaList
    else Verbatim
  }

  /** A canonical text for enum members, and the identifiers given to component schemas. */
  datatype Host = Host(canonical: Json -> string, id: string -> string)

  // ---------- references ----------

  /** The component a reference names. */
  function ReferencedName(text: string): Option<string> {
    var token := if Strings.Begins(text, COMPONENTS) then text[|COMPONENTS|..] else "";
    if token != "" && '/' !in token && TildesEscaped(token) then Some(Unescape(token)) else None
  }

  predicate IsReference(input: Json) {
    match Get(input, "$ref")
    case Some(Str(_)) => true
    case _ => false
  }

  function ReferenceText(input: Json): string
    requires IsReference(input)
  {
    Get(input, "$ref").value.text
  }

  /** A reference to a component that says nothing else. */
  predicate CleanReference(input: Json)
    requires IsReference(input)
  {
    ReferencedName(ReferenceText(input)).Some? && input.Obj? && Keys(input) == {"$ref"}
  }

  lemma SameNameSameText(s: string, t: string)
    requires ReferencedName(s).Some? && ReferencedName(s) == ReferencedName(t)
    ensures s == t
  {
    EscapeUnescape(s[|COMPONENTS|..]);
    EscapeUnescape(t[|COMPONENTS|..]);
    assert s == COMPONENTS + s[|COMPONENTS|..] && t == COMPONENTS + t[|COMPONENTS|..];
  }

  // ---------- conditions on one node ----------

  predicate KnownKeys(input: Json) {
    input.Obj? && forall i :: 0 <= i < |input.fields| ==> input.fields[i].key == "$ref" || input.fields[i].key in KEYWORDS
  }

  predicate TypeNames(items: seq<Json>) {
    && 1 <= |items| <= 7
    && (forall i :: 0 <= i < |items| ==> items[i].Str? && items[i].text in TYPES)
    && forall i, j :: 0 <= i < j < |items| ==> items[i] != items[j]
  }

  predicate TypeFine(input: Json) {
    match Get(input, "type")
    case None => true
    case Some(Arr(items)) => TypeNames(items)
    case Some(Str(name)) => name in TYPES
    case Some(_) => false
  }

  /** Bounded plain JSON. */
  predicate JsonValue(v: Json, depth: nat)
    decreases v
  {
    depth <= 64 &&
    match v
    case Arr(items) => |items| <= 1000 && forall i :: 0 <= i < |items| ==> JsonValue(items[i], depth + 1)
    case Obj(fields) => |fields| <= 1000 && forall i :: 0 <= i < |fields| ==> JsonValue(fields[i].value, depth + 1)
    case _ => true
  }

  predicate ConstFine(input: Json) {
    Get(input, "const").Some? ==> JsonValue(Get(input, "const").value, 0)
  }

  predicate TextAt(input: Json, key: string) {
    Get(input, key).Some? ==> Get(input, key).value.Str?
  }

  predicate TextsFine(input: Json) {
    && TextAt(input, "title") && TextAt(input, "description") && TextAt(input, "pattern")
    && TextAt(input, "format") && Get(input, "format") != Some(Str(""))
  }

  predicate NumberAt(input: Json, key: string) {
    Get(input, key).Some? ==> Get(input, key).value.Num?
  }

  predicate CountAt(input: Json, key: string) {
    NumberAt(input, key) &&
    (Get(input, key).Some? ==> IsInteger(Get(input, key).value.number) && Get(input, key).value.number.coefficient >= 0)
  }

  predicate NumbersFine(input: Json) {
    && NumberAt(input, "minimum") && NumberAt(input, "maximum") && CountAt(input, "minLength") && CountAt(input, "maxLength")
    && CountAt(input, "minItems") && CountAt(input, "maxItems")
  }

  predicate RequiredFine(input: Json) {
    match Get(input, "required")
    case None => true
    case Some(Arr(items)) =>
      && (forall i :: 0 <= i < |items| ==> items[i].Str? && items[i].text != "")
      && forall i, j :: 0 <= i < j < |items| ==> items[i] != items[j]
    case Some(_) => false
  }

  predicate EnumFine(host: Host, input: Json) {
    match Get(input, "enum")
    case None => true
    case Some(Arr(items)) =>
      && items != [] && (forall i :: 0 <= i < |items| ==> JsonValue(items[i], 0))
      && forall i, j :: 0 <= i < j < |items| ==> host.canonical(items[i]) != host.canonical(items[j])
    case Some(_) => false
  }

  predicate ListAt(input: Json, key: string, least: nat) {
    match Get(input, key)
    case None => true
    case Some(Arr(items)) => least <= |items| <= 32
    case Some(_) => false
  }

  predicate CompositionsFine(input: Json) {
    ListAt(input, "oneOf", 1) && ListAt(input, "anyOf", 1) && ListAt(input, "allOf", 1)
  }

  predicate PropertiesFine(input: Json) {
    Get(input, "properties").Some? ==> Get(input, "properties").value.Obj?
  }

  predicate ClosureFine(input: Json) {
    Get(input, "additionalProperties").Some? ==> !Get(input, "additionalProperties").value.Bool?
  }

  /** What the check asks of a node that is not a reference. */
  predicate NodeFine(host: Host, input: Json) {
    && KnownKeys(input) && TypeFine(input) && ConstFine(input) && TextsFine(input) && NumbersFine(input) && RequiredFine(input)
    && EnumFine(host, input) && PropertiesFine(input) && ListAt(input, "prefixItems", 0) && CompositionsFine(input)
    && ClosureFine(input)
  }

  // ---------- children ----------

  function ValuesOf(fields: seq<Field>): (r: seq<Json>)
    ensures |r| == |fields| && forall i :: 0 <= i < |r| ==> r[i] == fields[i].value
  {
    if fields == [] then [] else [fields[0].value] + ValuesOf(fields[1..])
  }

  /** The values under a keyword that the check visits as schemas; a boolean closure is refused without a visit. */
  function KidsAt(input: Json, key: string): (r: seq<Json>)
    ensures forall i :: 0 <= i < |r| ==> r[i] < input
  {
    match Get(input, key)
    case None => []
    case Some(value) =>
      match RoleOf(key)
      case Verbatim => []
      case OneSchema => if key == "additionalProperties" && value.Bool? then [] else [value]
      case SchemaList => if value.Arr? then value.items else [value]
      case SchemaMap => if value.Obj? then ValuesOf(value.fields) else [value]
  }

  function KidsOf(input: Json, keys: seq<string>): (r: seq<Json>)
    ensures forall i :: 0 <= i < |r| ==> r[i] < input
  {
    if keys == [] then [] else KidsAt(input, keys[0]) + KidsOf(input, keys[1..])
  }

  function AllKids(input: Json): (r: seq<Json>)
    ensures forall i :: 0 <= i < |r| ==> r[i] < input
  {
    KidsOf(input, NESTED)
  }

  lemma {:induction false} KidIsKid(input: Json, keys: seq<string>, key: string, i: nat)
    requires key in keys && i < |KidsAt(input, key)|
    ensures KidsAt(input, key)[i] in KidsOf(input, keys)
  {
    hide KidsAt;
    var kids := KidsOf(input, keys);
    if keys[0] == key {
      assert kids[i] == KidsAt(input, key)[i];
    } else {
      KidIsKid(input, keys[1..], key, i);
      var k :| 0 <= k < |KidsOf(input, keys[1..])| && KidsOf(input, keys[1..])[k] == KidsAt(input, key)[i];
      assert kids[|KidsAt(input, keys[0])| + k] == KidsAt(input, key)[i];
    }
  }

  // ---------- the check, without its budget ----------

  ghost function Names(schemas: Json): set<string> {
    if schemas.Obj? then Keys(schemas) else {}
  }

  lemma NamedIsPresent(schemas: Json, name: string)
    ensures name in Names(schemas) <==> Has(schemas, name)
  {
    if schemas.Obj? { KeyIsPresent(schemas, name); }
  }

  /** Projectable, with the components on the way here taken as such. */
  ghost predicate Projects(host: Host, schemas: Json, input: Json, active: set<string>, depth: nat)
    decreases Names(schemas) - active, input
  {
    && input.Obj? && depth <= MAX_DEPTH
    && if IsReference(input) then
         && CleanReference(input)
         && var name := ReferencedName(ReferenceText(input)).value;
            name in active ||
            (Has(schemas, name) && (NamedIsPresent(schemas, name);
                                    Projects(host, schemas, Get(schemas, name).value, active + {name}, depth + 1)))
       else
         && NodeFine(host, input)
         && forall i :: 0 <= i < |AllKids(input)| ==> Projects(host, schemas, AllKids(input)[i], active, depth + 1)
  }

  // ---------- the translation ----------

  /** The translation's own conditions on a node, weaker than the check's. */
  predicate Translatable(input: Json) {
    && KnownKeys(input)
    && (match Get(input, "type")
        case None => true
        case Some(Arr(_)) => true
        case Some(Str(name)) => name in TYPES
        case Some(_) => false)
    && TextsFine(input) && NumbersFine(input) && RequiredFine(input)
    && (match Get(input, "enum")
        case None => true
        case Some(Arr(items)) => items != []
        case Some(_) => false)
    && PropertiesFine(input) && CompositionsFine(input)
  }

  /** The output, or nothing where there is none that comes without a diagnostic. */
  function Translate(host: Host, schemas: Json, input: Json, depth: nat): Option<Json>
    decreases input, 0, |KEYWORDS| + 1
  {
    if !input.Obj? || depth > MAX_DEPTH then None
    else if IsReference(input) then
      if CleanReference(input) && Has(schemas, ReferencedName(ReferenceText(input)).value) then
        Some(Obj([Field("$ref", Str(TARGETS + host.id(ReferencedName(ReferenceText(input)).value)))]))
      else None
    else if !Translatable(input) then None
    else
      var fields := TranslateKeys(host, schemas, input, KEYWORDS, depth);
      if fields.Some? then Some(Obj(fields.value)) else None
  }

  function TranslateKeys(host: Host, schemas: Json, input: Json, keys: seq<string>, depth: nat): Option<seq<Field>>
    decreases input, 0, |keys|
  {
    if keys == [] then Some([])
    else
      var rest := TranslateKeys(host, schemas, input, keys[1..], depth);
      var found := Get(input, keys[0]);
      if found.None? || (keys[0] == "prefixItems" && !found.value.Arr?) then rest
      else
        var value := TranslateValue(host, schemas, keys[0], found.value, depth);
        if rest.Some? && value.Some? then Some([Field(keys[0], value.value)] + rest.value) else None
  }

  function TranslateValue(host: Host, schemas: Json, key: string, value: Json, depth: nat): Option<Json>
    decreases value, 2, 0
  {
    match RoleOf(key)
    case Verbatim => Some(value)
    case OneSchema => if key == "additionalProperties" && value.Bool? then Some(value) else Translate(host, schemas, value, depth + 1)
    case SchemaList =>
      if !value.Arr? then None
      else
        var items := TranslateAll(host, schemas, value, value.items, depth);
        if items.Some? then Some(Arr(items.value)) else None
    case SchemaMap =>
      if !value.Obj? then None
      else
        var values := TranslateAll(host, schemas, value, ValuesOf(value.fields), depth);
        if values.Some? then Some(Obj(Zip(value.fields, values.value))) else None
  }

  function TranslateAll(host: Host, schemas: Json, parent: Json, items: seq<Json>, depth: nat): (r: Option<seq<Json>>)
    requires forall i :: 0 <= i < |items| ==> items[i] < parent
    ensures r.Some? ==> |r.value| == |items|
    decreases parent, 1, |items|
  {
    if items == [] then Some([])
    else
      var first := Translate(host, schemas, items[0], depth + 1);
      var rest := TranslateAll(host, schemas, parent, items[1..], depth);
      if first.Some? && rest.Some? then Some([first.value] + rest.value) else None
  }

  lemma {:induction false} TranslateAllAt(host: Host, schemas: Json, parent: Json, items: seq<Json>, depth: nat)
    requires forall i :: 0 <= i < |items| ==> items[i] < parent
    ensures var all := TranslateAll(host, schemas, parent, items, depth);
      && (all.Some? <==> forall i :: 0 <= i < |items| ==> Translate(host, schemas, items[i], depth + 1).Some?)
      && (all.Some? ==> forall i :: 0 <= i < |items| ==> Translate(host, schemas, items[i], depth + 1) == Some(all.value[i]))
    decreases |items|
  {
    hide Translate;
    if items != [] {
      TranslateAllAt(host, schemas, parent, items[1..], depth);
      forall i | 1 <= i < |items| ensures items[i] == items[1..][i - 1] { }
    }
  }

  // ---------- what is accepted is translated ----------

  lemma FineIsTranslatable(host: Host, input: Json)
    requires NodeFine(host, input)
    ensures Translatable(input)
  {
    hide KnownKeys, TextsFine, NumbersFine, RequiredFine, PropertiesFine, CompositionsFine, ConstFine, ClosureFine;
  }

  /** Every schema the check accepts is translated without a diagnostic, references to components included. */
  lemma {:induction false} ProjectsTranslates(host: Host, schemas: Json, input: Json, active: set<string>, depth: nat)
    requires active <= Names(schemas) && Projects(host, schemas, input, active, depth)
    ensures Translate(host, schemas, input, depth).Some?
    decreases input, |KEYWORDS| + 1
  {
    if IsReference(input) {
      NamedIsPresent(schemas, ReferencedName(ReferenceText(input)).value);
    } else {
      FineIsTranslatable(host, input);
      KeysTranslate(host, schemas, input, KEYWORDS, active, depth);
    }
  }

  lemma {:induction false} KeysTranslate(host: Host, schemas: Json, input: Json, keys: seq<string>, active: set<string>, depth: nat)
    requires active <= Names(schemas) && Projects(host, schemas, input, active, depth) && !IsReference(input)
    ensures TranslateKeys(host, schemas, input, keys, depth).Some?
    decreases input, |keys|
  {
    if keys != [] {
      KeysTranslate(host, schemas, input, keys[1..], active, depth);
      if Has(input, keys[0]) { KeyTranslates(host, schemas, input, keys[0], active, depth); }
    }
  }

  lemma NestedKeys(key: string)
    ensures RoleOf(key) != Verbatim ==> key in NESTED
  {
    assert NESTED[0] == "properties" && NESTED[1] == "items" && NESTED[2] == "additionalProperties" && NESTED[3] == "prefixItems";
    assert NESTED[4] == "oneOf" && NESTED[5] == "anyOf" && NESTED[6] == "allOf" && NESTED[7] == "not";
  }

  lemma KidProjects(host: Host, schemas: Json, input: Json, key: string, active: set<string>, depth: nat, i: nat)
    requires Projects(host, schemas, input, active, depth) && !IsReference(input)
    requires RoleOf(key) != Verbatim && i < |KidsAt(input, key)|
    ensures Projects(host, schemas, KidsAt(input, key)[i], active, depth + 1)
  {
    NestedKeys(key);
    KidIsKid(input, NESTED, key, i);
    hide NodeFine, KidsAt;
    var k :| 0 <= k < |AllKids(input)| && AllKids(input)[k] == KidsAt(input, key)[i];
  }

  lemma FineLists(host: Host, input: Json, key: string)
    requires NodeFine(host, input) && Has(input, key)
    ensures RoleOf(key) == SchemaList ==> Get(input, key).value.Arr?
    ensures RoleOf(key) == SchemaMap ==> Get(input, key).value.Obj?
    ensures key == "additionalProperties" ==> !Get(input, key).value.Bool?
  {
    hide KnownKeys, TypeFine, ConstFine, TextsFine, NumbersFine, RequiredFine, EnumFine;
  }

  lemma {:induction false} KeyTranslates(host: Host, schemas: Json, input: Json, key: string, active: set<string>, depth: nat)
    requires active <= Names(schemas) && Projects(host, schemas, input, active, depth) && !IsReference(input) && Has(input, key)
    ensures TranslateValue(host, schemas, key, Get(input, key).value, depth).Some?
    decreases input, 0
  {
    var value, kids := Get(input, key).value, KidsAt(input, key);
    FineLists(host, input, key);
    if RoleOf(key) != Verbatim {
      forall i | 0 <= i < |kids| ensures Translate(host, schemas, kids[i], depth + 1).Some? {
        KidProjects(host, schemas, input, key, active, depth, i);
        ProjectsTranslates(host, schemas, kids[i], active, depth + 1);
      }
      hide Projects, NodeFine, Translate, TranslateAll;
      match RoleOf(key)
      case OneSchema => assert kids[0] == value;
      case SchemaList => TranslateAllAt(host, schemas, value, value.items, depth);
      case SchemaMap => TranslateAllAt(host, schemas, value, ValuesOf(value.fields), depth);
    }
  }

  // ---------- nothing is lost ----------

  /** The output is the input keyword for keyword, with component references renamed. */
  ghost predicate CopyOf(host: Host, input: Json, output: Json)
    decreases input, 0
  {
    if IsReference(input) then
      && ReferencedName(ReferenceText(input)).Some?
      && output == Obj([Field("$ref", Str(TARGETS + host.id(ReferencedName(ReferenceText(input)).value)))])
    else
      && input.Obj? && output.Obj? && Keys(output) == Keys(input)
      && forall key :: key in Keys(input) ==> ValueCopied(host, key, Member(input, key), Member(output, key))
  }

  ghost predicate ValueCopied(host: Host, key: string, value: Json, copy: Json)
    decreases value, 1
  {
    match RoleOf(key)
    case Verbatim => copy == value
    case OneSchema => CopyOf(host, value, copy)
    case SchemaList =>
      && value.Arr? && copy.Arr? && |copy.items| == |value.items|
      && forall i :: 0 <= i < |value.items| ==> CopyOf(host, value.items[i], copy.items[i])
    case SchemaMap =>
      && value.Obj? && copy.Obj? && |copy.fields| == |value.fields|
      && forall i :: 0 <= i < |value.fields| ==>
           copy.fields[i].key == value.fields[i].key && CopyOf(host, value.fields[i].value, copy.fields[i].value)
  }

  /** No node has a `$ref` that is not text: such a keyword passes the check and is dropped. */
  ghost predicate TextReferences(input: Json)
    decreases input, 0
  {
    IsReference(input) ||
    (&& input.Obj? && "$ref" !in Keys(input)
     && forall key :: key in Keys(input) ==> TextReferencesAt(key, Member(input, key)))
  }

  ghost predicate TextReferencesAt(key: string, value: Json)
    decreases value, 1
  {
    match RoleOf(key)
    case Verbatim => true
    case OneSchema => TextReferences(value)
    case SchemaList => value.Arr? && forall i :: 0 <= i < |value.items| ==> TextReferences(value.items[i])
    case SchemaMap => value.Obj? && forall i :: 0 <= i < |value.fields| ==> TextReferences(value.fields[i].value)
  }

  lemma {:induction false} TranslatedKey(host: Host, schemas: Json, input: Json, keys: seq<string>, depth: nat, key: string)
    requires TranslateKeys(host, schemas, input, keys, depth).Some?
    requires Has(input, "prefixItems") ==> Get(input, "prefixItems").value.Arr?
    ensures Get(Obj(TranslateKeys(host, schemas, input, keys, depth).value), key) ==
      if key in keys && Has(input, key) then TranslateValue(host, schemas, key, Get(input, key).value, depth) else None
    ensures key in keys && Has(input, key) ==> TranslateValue(host, schemas, key, Get(input, key).value, depth).Some?
    decreases |keys|
  {
    hide TranslateValue;
    if keys != [] {
      TranslatedKey(host, schemas, input, keys[1..], depth, key);
      hide Get;
      var fields := TranslateKeys(host, schemas, input, keys, depth).value;
      if Has(input, keys[0]) { FirstField(fields, key); }
      assert keys == [keys[0]] + keys[1..];
    }
  }

  lemma FirstField(fields: seq<Field>, key: string)
    requires fields != []
    ensures Get(Obj(fields), key) == if fields[0].key == key then Some(fields[0].value) else Get(Obj(fields[1..]), key)
  {
  }

  lemma NoReferenceKeyword()
    ensures "$ref" !in KEYWORDS
  {
    forall i | 0 <= i < |KEYWORDS| ensures KEYWORDS[i][0] != '$' { }
  }

  lemma KnownIsKeyword(input: Json, key: string)
    requires KnownKeys(input) && key in Keys(input) && key != "$ref"
    ensures key in KEYWORDS
  {
    var i :| 0 <= i < |input.fields| && input.fields[i].key == key;
  }

  lemma FineListAt(host: Host, input: Json)
    requires NodeFine(host, input)
    ensures KnownKeys(input) && (Has(input, "prefixItems") ==> Get(input, "prefixItems").value.Arr?)
  {
  }

  lemma OutputKey(host: Host, schemas: Json, input: Json, fields: seq<Field>, depth: nat, key: string)
    requires TranslateKeys(host, schemas, input, KEYWORDS, depth) == Some(fields) && KnownKeys(input)
    requires Has(input, "prefixItems") ==> Get(input, "prefixItems").value.Arr?
    ensures key in Keys(Obj(fields)) <==> key in Keys(input) && key != "$ref"
    ensures key in Keys(input) && key != "$ref" ==>
      Some(Member(Obj(fields), key)) == TranslateValue(host, schemas, key, Member(input, key), depth)
  {
    NoReferenceKeyword();
    TranslatedKey(host, schemas, input, KEYWORDS, depth, key);
    if key in Keys(input) && key != "$ref" { KnownIsKeyword(input, key); }
    hide TranslateKeys, TranslateValue, KnownKeys, Keys, Get;
    KeyIsPresent(input, key);
    KeyIsPresent(Obj(fields), key);
  }

  /** Every value but an odd reference is translated under its key. */
  lemma NodeCopied(host: Host, schemas: Json, input: Json, depth: nat)
    requires !IsReference(input) && NodeFine(host, input) && Translate(host, schemas, input, depth).Some?
    ensures var output := Translate(host, schemas, input, depth).value;
      && output.Obj?
      && (Keys(output) == Keys(input) <==> "$ref" !in Keys(input))
      && forall key :: key in Keys(input) && key != "$ref" ==>
           key in Keys(output) && Some(Member(output, key)) == TranslateValue(host, schemas, key, Member(input, key), depth)
  {
    var fields := TranslateKeys(host, schemas, input, KEYWORDS, depth).value;
    FineListAt(host, input);
    hide TranslateKeys, TranslateValue, NodeFine, KnownKeys, Keys, Translatable, Member;
    forall key
      ensures key in Keys(Obj(fields)) <==> key in Keys(input) && key != "$ref"
      ensures key in Keys(input) && key != "$ref" ==>
        Some(Member(Obj(fields), key)) == TranslateValue(host, schemas, key, Member(input, key), depth)
    {
      OutputKey(host, schemas, input, fields, depth, key);
    }
  }

  /** What the check accepts is copied in full, exactly unless somewhere a reference is not text. */
  lemma {:induction false} CopiedExactly(host: Host, schemas: Json, input: Json, active: set<string>, depth: nat)
    requires active <= Names(schemas) && Projects(host, schemas, input, active, depth)
    requires Translate(host, schemas, input, depth).Some?
    ensures CopyOf(host, input, Translate(host, schemas, input, depth).value) <==> TextReferences(input)
    decreases input, 0
  {
    var output := Translate(host, schemas, input, depth).value;
    if !IsReference(input) {
      NodeCopied(host, schemas, input, depth);
      hide Translate, TranslateValue, NodeFine, ValueCopied, TextReferencesAt, Projects;
      forall key | key in Keys(input) && key != "$ref"
        ensures ValueCopied(host, key, Member(input, key), Member(output, key)) <==> TextReferencesAt(key, Member(input, key))
      {
        ValueCopiedExactly(host, schemas, input, active, depth, key, Member(output, key));
      }
    }
  }

  lemma {:induction false} ValueCopiedExactly(host: Host, schemas: Json, input: Json, active: set<string>, depth: nat, key: string, copy: Json)
    requires active <= Names(schemas) && Projects(host, schemas, input, active, depth) && !IsReference(input)
    requires input.Obj? && key in Keys(input) && TranslateValue(host, schemas, key, Member(input, key), depth) == Some(copy)
    ensures ValueCopied(host, key, Member(input, key), copy) <==> TextReferencesAt(key, Member(input, key))
    decreases Member(input, key), 1
  {
    var kids := KidsAt(input, key);
    KeyIsPresent(input, key);
    FineLists(host, input, key);
    if RoleOf(key) != Verbatim {
      forall i | 0 <= i < |kids| && Translate(host, schemas, kids[i], depth + 1).Some?
        ensures KidCopied(host, schemas, kids[i], depth)
      {
        KidProjects(host, schemas, input, key, active, depth, i);
        KidSize(input, key, i);
        CopiedExactly(host, schemas, kids[i], active, depth + 1);
      }
      hide Projects, NodeFine, KidCopied;
      ValueByKids(host, schemas, input, depth, key, copy);
    }
  }

  ghost predicate KidCopied(host: Host, schemas: Json, kid: Json, depth: nat) {
    var copy := Translate(host, schemas, kid, depth + 1);
    copy.Some? ==> (CopyOf(host, kid, copy.value) <==> TextReferences(kid))
  }

  lemma ListTranslated(host: Host, schemas: Json, key: string, value: Json, depth: nat, copy: Json)
    requires RoleOf(key).SchemaList? && TranslateValue(host, schemas, key, value, depth) == Some(copy)
    requires value.Arr? ==> forall i :: 0 <= i < |value.items| && Translate(host, schemas, value.items[i], depth + 1).Some? ==>
      KidCopied(host, schemas, value.items[i], depth)
    ensures ValueCopied(host, key, value, copy) <==> TextReferencesAt(key, value)
  {
    hide Translate, CopyOf, TextReferences, KidCopied, RoleOf;
    TranslateAllAt(host, schemas, value, value.items, depth);
    hide TranslateAll;
    ListByKids(host, schemas, value.items, copy.items, depth);
  }

  lemma MapTranslated(host: Host, schemas: Json, key: string, value: Json, depth: nat, copy: Json)
    requires RoleOf(key).SchemaMap? && TranslateValue(host, schemas, key, value, depth) == Some(copy)
    requires value.Obj? ==>
      forall i :: 0 <= i < |value.fields| && Translate(host, schemas, ValuesOf(value.fields)[i], depth + 1).Some? ==>
        KidCopied(host, schemas, ValuesOf(value.fields)[i], depth)
    ensures ValueCopied(host, key, value, copy) <==> TextReferencesAt(key, value)
  {
    hide Translate, CopyOf, TextReferences, KidCopied, RoleOf, Zip, ValuesOf;
    TranslateAllAt(host, schemas, value, ValuesOf(value.fields), depth);
    hide TranslateAll;
    MapByKids(host, schemas, value.fields, copy.fields, depth);
  }

  lemma ValueByKids(host: Host, schemas: Json, input: Json, depth: nat, key: string, copy: Json)
    requires input.Obj? && key in Keys(input) && RoleOf(key) != Verbatim
    requires TranslateValue(host, schemas, key, Member(input, key), depth) == Some(copy)
    requires Has(input, key) && (key == "additionalProperties" ==> !Get(input, key).value.Bool?)
    requires forall i :: 0 <= i < |KidsAt(input, key)| && Translate(host, schemas, KidsAt(input, key)[i], depth + 1).Some? ==>
      KidCopied(host, schemas, KidsAt(input, key)[i], depth)
    ensures ValueCopied(host, key, Member(input, key), copy) <==> TextReferencesAt(key, Member(input, key))
  {
    var value, kids := Member(input, key), KidsAt(input, key);
    hide Translate, TranslateAll, CopyOf, TextReferences, Keys, KidCopied;
    match RoleOf(key)
    case OneSchema =>
      assert kids[0] == value;
      KidMeaning(host, schemas, value, depth);
    case SchemaList =>
      hide TranslateValue, ValueCopied, TextReferencesAt;
      assert value.Arr? ==> kids == value.items;
      ListTranslated(host, schemas, key, value, depth, copy);
    case SchemaMap =>
      hide TranslateValue, ValueCopied, TextReferencesAt;
      assert value.Obj? ==> kids == ValuesOf(value.fields);
      MapTranslated(host, schemas, key, value, depth, copy);
  }

  lemma KidMeaning(host: Host, schemas: Json, kid: Json, depth: nat)
    requires KidCopied(host, schemas, kid, depth) && Translate(host, schemas, kid, depth + 1).Some?
    ensures CopyOf(host, kid, Translate(host, schemas, kid, depth + 1).value) <==> TextReferences(kid)
  {
  }

  lemma ListByKids(host: Host, schemas: Json, items: seq<Json>, copies: seq<Json>, depth: nat)
    requires |items| == |copies|
    requires forall i :: 0 <= i < |items| ==> KidCopied(host, schemas, items[i], depth)
    requires forall i :: 0 <= i < |items| ==> Translate(host, schemas, items[i], depth + 1) == Some(copies[i])
    ensures (forall i :: 0 <= i < |items| ==> CopyOf(host, items[i], copies[i]))
      <==> (forall i :: 0 <= i < |items| ==> TextReferences(items[i]))
  {
    hide Translate, CopyOf, TextReferences, KidCopied;
    forall i | 0 <= i < |items| ensures CopyOf(host, items[i], copies[i]) <==> TextReferences(items[i]) {
      KidMeaning(host, schemas, items[i], depth);
    }
  }

  lemma MapByKids(host: Host, schemas: Json, fields: seq<Field>, copies: seq<Field>, depth: nat)
    requires |fields| == |copies|
    requires forall i :: 0 <= i < |fields| ==> KidCopied(host, schemas, ValuesOf(fields)[i], depth)
    requires forall i :: 0 <= i < |fields| ==>
      Translate(host, schemas, ValuesOf(fields)[i], depth + 1) == Some(copies[i].value)
    ensures (forall i :: 0 <= i < |fields| ==> CopyOf(host, fields[i].value, copies[i].value))
      <==> (forall i :: 0 <= i < |fields| ==> TextReferences(fields[i].value))
  {
    hide Translate, CopyOf, TextReferences, KidCopied;
    forall i | 0 <= i < |fields| ensures CopyOf(host, fields[i].value, copies[i].value) <==> TextReferences(fields[i].value) {
      KidMeaning(host, schemas, ValuesOf(fields)[i], depth);
    }
  }

  lemma KidSize(input: Json, key: string, i: nat)
    requires input.Obj? && key in Keys(input) && RoleOf(key) != Verbatim && i < |KidsAt(input, key)|
    ensures KidsAt(input, key)[i] == Member(input, key) || KidsAt(input, key)[i] < Member(input, key)
  {
  }

  // ---------- inverting the renaming ----------

  /** Identifiers tell component names apart. */
  ghost predicate Distinguishing(host: Host) {
    forall a, b :: host.id(a) == host.id(b) ==> a == b
  }

  /** Such identifiers exist: the names themselves. */
  lemma SomeHostDistinguishes(canonical: Json -> string)
    ensures exists host :: Distinguishing(host) && host.canonical == canonical
  {
    assert Distinguishing(Host(canonical, (name: string) => name));
  }

  lemma {:induction false} SameReflexive(j: Json)
    ensures SameJson(j, j)
    decreases j
  {
    match j
    case Arr(items) => forall i | 0 <= i < |items| ensures SameJson(items[i], items[i]) { SameReflexive(items[i]); }
    case Obj(_) => forall key | key in Keys(j) ensures SameJson(Member(j, key), Member(j, key)) { SameReflexive(Member(j, key)); }
    case _ =>
  }

  lemma OnlyReferenceKey(name: string)
    ensures Keys(Obj([Field("$ref", Str(name))])) == {"$ref"}
    ensures Get(Obj([Field("$ref", Str(name))]), "$ref") == Some(Str(name))
  {
    var o := Obj([Field("$ref", Str(name))]);
    assert o.fields[0].key == "$ref";
  }

  /** A copy of a reference is a copy of nothing else. */
  lemma ReferenceCopy(host: Host, a: Json, b: Json, output: Json)
    requires IsReference(a) && CopyOf(host, a, output) && CopyOf(host, b, output)
    ensures IsReference(b)
  {
    OnlyReferenceKey(TARGETS + host.id(ReferencedName(ReferenceText(a)).value));
    if !IsReference(b) {
      KeyIsPresent(b, "$ref");
      assert ValueCopied(host, "$ref", Member(b, "$ref"), Member(output, "$ref"));
    }
  }

  lemma ReferencesRestored(host: Host, a: Json, b: Json, output: Json)
    requires Distinguishing(host) && IsReference(a) && IsReference(b) && CleanReference(a) && CleanReference(b)
    requires CopyOf(host, a, output) && CopyOf(host, b, output)
    ensures SameJson(a, b)
  {
    var m, n := ReferencedName(ReferenceText(a)).value, ReferencedName(ReferenceText(b)).value;
    var s, t := TARGETS + host.id(m), TARGETS + host.id(n);
    assert s[|TARGETS|..] == host.id(m) && t[|TARGETS|..] == host.id(n);
    SameNameSameText(ReferenceText(a), ReferenceText(b));
    assert Member(a, "$ref") == Get(a, "$ref").value && Member(b, "$ref") == Get(b, "$ref").value;
  }

  /** References are clean everywhere below: what the check makes sure of. */
  ghost predicate CleanBelow(input: Json)
    decreases input, 0
  {
    if IsReference(input) then CleanReference(input)
    else input.Obj? && forall key :: key in Keys(input) ==> CleanAt(key, Member(input, key))
  }

  ghost predicate CleanAt(key: string, value: Json)
    decreases value, 1
  {
    match RoleOf(key)
    case Verbatim => true
    case OneSchema => CleanBelow(value)
    case SchemaList => value.Arr? && forall i :: 0 <= i < |value.items| ==> CleanBelow(value.items[i])
    case SchemaMap => value.Obj? && forall i :: 0 <= i < |value.fields| ==> CleanBelow(value.fields[i].value)
  }

  lemma {:induction false} ProjectsIsClean(host: Host, schemas: Json, input: Json, active: set<string>, depth: nat)
    requires Projects(host, schemas, input, active, depth)
    ensures CleanBelow(input)
    decreases input, 0
  {
    if !IsReference(input) {
      forall key | key in Keys(input) ensures CleanAt(key, Member(input, key)) {
        KeyIsPresent(input, key);
        ValueIsClean(host, schemas, input, active, depth, key);
      }
    }
  }

  lemma {:induction false} ValueIsClean(host: Host, schemas: Json, input: Json, active: set<string>, depth: nat, key: string)
    requires Projects(host, schemas, input, active, depth) && !IsReference(input) && key in Keys(input) && Has(input, key)
    ensures CleanAt(key, Member(input, key))
    decreases Member(input, key), 1
  {
    var value, kids := Member(input, key), KidsAt(input, key);
    FineLists(host, input, key);
    if RoleOf(key) != Verbatim {
      forall i | 0 <= i < |kids| ensures CleanBelow(kids[i]) {
        KidProjects(host, schemas, input, key, active, depth, i);
        KidSize(input, key, i);
        ProjectsIsClean(host, schemas, kids[i], active, depth + 1);
      }
      hide Projects, NodeFine, CleanBelow;
      match RoleOf(key)
      case OneSchema => assert kids[0] == value;
      case SchemaList => assert kids == value.items;
      case SchemaMap =>
        forall i | 0 <= i < |value.fields| ensures CleanBelow(value.fields[i].value) { assert kids[i] == value.fields[i].value; }
    }
  }

  /** A copy has one original, up to the order of keys. */
  lemma {:induction false} CopyRestored(host: Host, a: Json, b: Json, output: Json)
    requires Distinguishing(host) && CleanBelow(a) && CleanBelow(b)
    requires CopyOf(host, a, output) && CopyOf(host, b, output)
    ensures SameJson(a, b)
    decreases a, 0
  {
    if IsReference(a) {
      ReferenceCopy(host, a, b, output);
      ReferencesRestored(host, a, b, output);
    } else {
      if IsReference(b) { ReferenceCopy(host, b, a, output); }
      hide ValueCopied, CleanAt;
      forall key | key in Keys(a) ensures SameJson(Member(a, key), Member(b, key)) {
        ValueRestored(host, key, Member(a, key), Member(b, key), Member(output, key));
      }
    }
  }

  lemma {:induction false} ValueRestored(host: Host, key: string, a: Json, b: Json, copy: Json)
    requires Distinguishing(host) && CleanAt(key, a) && CleanAt(key, b)
    requires ValueCopied(host, key, a, copy) && ValueCopied(host, key, b, copy)
    ensures SameJson(a, b)
    decreases a, 1
  {
    hide CopyOf, CleanBelow, Distinguishing;
    match RoleOf(key)
    case Verbatim => SameReflexive(a);
    case OneSchema => CopyRestored(host, a, b, copy);
    case SchemaList =>
      forall i | 0 <= i < |a.items| ensures SameJson(a.items[i], b.items[i]) {
        CopyRestored(host, a.items[i], b.items[i], copy.items[i]);
      }
    case SchemaMap =>
      forall i | 0 <= i < |a.fields| ensures SameJson(a.fields[i].value, b.fields[i].value) && a.fields[i].key == b.fields[i].key {
        CopyRestored(host, a.fields[i].value, b.fields[i].value, copy.fields[i].value);
      }
      SameFields(a, b);
  }

  lemma SameFields(a: Json, b: Json)
    requires a.Obj? && b.Obj? && |a.fields| == |b.fields|
    requires forall i :: 0 <= i < |a.fields| ==> a.fields[i].key == b.fields[i].key && SameJson(a.fields[i].value, b.fields[i].value)
    ensures SameJson(a, b)
  {
    forall key ensures key in Keys(a) <==> key in Keys(b) {
      if key in Keys(a) { var i :| 0 <= i < |a.fields| && a.fields[i].key == key; assert b.fields[i].key == key; }
      if key in Keys(b) { var i :| 0 <= i < |b.fields| && b.fields[i].key == key; assert a.fields[i].key == key; }
    }
    forall key | key in Keys(a) ensures SameJson(Member(a, key), Member(b, key)) {
      var i := Find(a.fields, key);
      KeyIsPresent(a, key);
      KeyIsPresent(b, key);
      SameFind(a.fields, b.fields, key);
      assert Member(a, key) == a.fields[i].value && Member(b, key) == b.fields[i].value;
    }
  }

  lemma {:induction false} SameFind(a: seq<Field>, b: seq<Field>, key: string)
    requires |a| == |b| && forall i :: 0 <= i < |a| ==> a[i].key == b[i].key
    ensures Find(a, key) == Find(b, key)
  {
    if a != [] && a[0].key != key { SameFind(a[1..], b[1..], key); }
  }
}
