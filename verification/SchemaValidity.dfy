/**
 * Validity of a JSON value for a schema with contained references: the keywords type (with integer and number),
 * properties, required, items, allOf and boolean additionalProperties of JSON Schema Draft 4,
 * draft-fge-json-schema-validation-00 sections 5.3.1, 5.4.3, 5.4.4, 5.5.2 and 5.5.3.
 */
module SchemaValidity {
  import opened JsonValues
  import opened JsonPointer
  import opened SchemaExpansion

  const TYPES := {"null", "boolean", "object", "array", "number", "integer", "string"}

  predicate HasType(value: Json, name: string) {
    match value
    case Null => name == "null"
    case Bool(_) => name == "boolean"
    case Num(n) => name == "number" || (name == "integer" && IsInteger(n))
    case Str(_) => name == "string"
    case Arr(_) => name == "array"
    case Obj(_) => name == "object"
  }

  predicate TypeHolds(schema: Json, value: Json) {
    match Get(schema, "type")
    case Some(Str(name)) => name in TYPES ==> HasType(value, name)
    case _ => true
  }

  predicate RequiredHolds(schema: Json, value: Json) {
    match Get(schema, "required")
    case Some(Arr(names)) => value.Obj? ==> forall i :: 0 <= i < |names| && names[i].Str? ==> Has(value, names[i].text)
    case _ => true
  }

  /** The `properties` object; absent means empty. */
  function PropertySchemas(schema: Json): (r: Json)
    ensures r.Obj?
    ensures Get(schema, "properties") != None && Get(schema, "properties").value.Obj? ==> r < schema
  {
    match Get(schema, "properties")
    case Some(Obj(fields)) => Obj(fields)
    case _ => Obj([])
  }

  predicate ClosureHolds(schema: Json, value: Json) {
    Get(schema, "additionalProperties") == Some(Bool(false)) && value.Obj? ==>
      forall i :: 0 <= i < |value.fields| ==> Has(PropertySchemas(schema), value.fields[i].key)
  }

  function BranchSchemas(schema: Json): seq<Json> {
    match Get(schema, "allOf")
    case Some(Arr(items)) => items
    case _ => []
  }

  /** RFC 6901: the definition a contained reference denotes. */
  function Target(definitions: Json, schema: Json): Option<Json> {
    match Get(schema, "$ref")
    case Some(Str(target)) =>
      if !(DEFINITIONS <= target) then None
      else
        var token := target[|DEFINITIONS|..];
        if '/' in token || '%' in token || !TildesEscaped(token) then None
        else Get(definitions, UnescapeEach(token))
    case _ => None
  }

  least predicate Valid(definitions: Json, schema: Json, value: Json) {
    schema.Obj? &&
    if Has(schema, "$ref") then
      Target(definitions, schema).Some? && Valid(definitions, Target(definitions, schema).value, value)
    else
      && TypeHolds(schema, value)
      && RequiredHolds(schema, value)
      && ClosureHolds(schema, value)
      && (forall k :: 0 <= k < |BranchSchemas(schema)| ==> Valid(definitions, BranchSchemas(schema)[k], value))
      && (value.Obj? ==> forall i :: 0 <= i < |value.fields| && Has(PropertySchemas(schema), value.fields[i].key) ==>
            Valid(definitions, Get(PropertySchemas(schema), value.fields[i].key).value, value.fields[i].value))
      && (value.Arr? && Has(schema, "items") ==> forall i :: 0 <= i < |value.items| ==>
            Valid(definitions, Get(schema, "items").value, value.items[i]))
  }

  // ---------- expansion preserves meaning ----------

  /** A followable reference means the same definition under RFC 6901 as under the two replacement passes. */
  lemma ReferencedIsTarget(definitions: Json, schema: Json)
    requires schema.Obj? && Referenced(schema).Some? && Has(definitions, Referenced(schema).value)
    ensures Target(definitions, schema) == Get(definitions, Referenced(schema).value)
  {
    var token := Get(schema, "$ref").value.text[|DEFINITIONS|..];
    UnescapeIsEach(token);
  }

  ghost predicate AllValid(definitions: Json, schemas: seq<Json>, value: Json) {
    forall k :: 0 <= k < |schemas| ==> Valid(definitions, schemas[k], value)
  }

  ghost predicate MembersValid(definitions: Json, properties: Json, value: Json) {
    value.Obj? ==> forall i :: 0 <= i < |value.fields| && Has(properties, value.fields[i].key) ==>
      Valid(definitions, Get(properties, value.fields[i].key).value, value.fields[i].value)
  }

  ghost predicate ItemsValid(definitions: Json, items: seq<Json>, value: Json) {
    value.Arr? ==> forall i :: 0 <= i < |value.items| ==> AllValid(definitions, items, value.items[i])
  }

  ghost predicate LocallyValid(schema: Json, value: Json) {
    TypeHolds(schema, value) && RequiredHolds(schema, value) && ClosureHolds(schema, value)
  }

  /** One unfolding of validity at a reference-free node. */
  lemma ValidNode(definitions: Json, schema: Json, value: Json)
    requires schema.Obj? && !Has(schema, "$ref")
    ensures Valid(definitions, schema, value) <==>
      && LocallyValid(schema, value)
      && AllValid(definitions, BranchSchemas(schema), value)
      && MembersValid(definitions, PropertySchemas(schema), value)
      && ItemsValid(definitions, ItemSchemas(schema), value)
  {
    if Has(schema, "items") {
      assert ItemSchemas(schema)[0] == Get(schema, "items").value;
    }
  }

  /** Two schemas accept the same values. */
  ghost predicate SameValues(definitions: Json, one: Json, two: Json) {
    forall v :: Valid(definitions, one, v) <==> Valid(definitions, two, v)
  }

  lemma SameMembers(definitions: Json, one: seq<Field>, two: seq<Field>, value: Json)
    requires |one| == |two|
    requires forall i :: 0 <= i < |one| ==> one[i].key == two[i].key && SameValues(definitions, one[i].value, two[i].value)
    ensures MembersValid(definitions, Obj(one), value) <==> MembersValid(definitions, Obj(two), value)
  {
    forall key ensures Find(one, key) == Find(two, key) {
    }
    if value.Obj? {
      forall i | 0 <= i < |value.fields| && Has(Obj(one), value.fields[i].key)
        ensures Valid(definitions, Get(Obj(one), value.fields[i].key).value, value.fields[i].value)
           <==> Valid(definitions, Get(Obj(two), value.fields[i].key).value, value.fields[i].value)
      {
        var k := Find(one, value.fields[i].key);
        assert SameValues(definitions, one[k].value, two[k].value);
      }
    }
  }

  /** `results` stands in for the children of `schema`, one for one. */
  ghost predicate StandIn(definitions: Json, schema: Json, results: seq<Json>) {
    && schema.Obj? && !Has(schema, "$ref")
    && Children(schema).Some? && |results| == |Children(schema).value|
    && forall k :: 0 <= k < |results| ==> SameValues(definitions, Children(schema).value[k], results[k])
  }

  lemma SameBranches(definitions: Json, schema: Json, results: seq<Json>, value: Json)
    requires StandIn(definitions, schema, results)
    ensures AllValid(definitions, BranchSchemas(schema), value)
       <==> AllValid(definitions, BranchSchemas(Rebuild(schema, results)), value)
  {
    hide Rebuild, Get, AllValid, SameValues;
    var n := |Branches(schema).value|;
    NodeViews(schema);
    RebuildParts(schema, results);
    SameLists(definitions, BranchSchemas(schema), results[..n]);
  }

  lemma SameProperties(definitions: Json, schema: Json, results: seq<Json>, value: Json)
    requires StandIn(definitions, schema, results)
    ensures MembersValid(definitions, PropertySchemas(schema), value)
       <==> MembersValid(definitions, PropertySchemas(Rebuild(schema, results)), value)
  {
    hide Rebuild, Get, MembersValid, SameValues;
    var n, members := |Branches(schema).value|, Members(schema).value;
    NodeViews(schema);
    RebuildParts(schema, results);
    RebuildChildren(schema, results);
    NodeViews(Rebuild(schema, results));
    SameMembers(definitions, members, Zip(members, results[n..n + |members|]), value);
  }

  lemma SameItems(definitions: Json, schema: Json, results: seq<Json>, value: Json)
    requires StandIn(definitions, schema, results)
    ensures ItemsValid(definitions, ItemSchemas(schema), value)
       <==> ItemsValid(definitions, ItemSchemas(Rebuild(schema, results)), value)
  {
    hide Rebuild, Get, AllValid, SameValues;
    var m := |Branches(schema).value| + |Members(schema).value|;
    NodeViews(schema);
    RebuildParts(schema, results);
    SameLists(definitions, ItemSchemas(schema), results[m..]);
  }

  lemma SameNode(definitions: Json, schema: Json, results: seq<Json>, value: Json)
    requires StandIn(definitions, schema, results)
    ensures Valid(definitions, schema, value) <==> Valid(definitions, Rebuild(schema, results), value)
  {
    hide Rebuild, Children, Branches, Members, ItemSchemas, PropertySchemas, BranchSchemas;
    hide LocallyValid, AllValid, MembersValid, ItemsValid, Get;
    var r := Rebuild(schema, results);
    RebuildChildren(schema, results);
    SameBranches(definitions, schema, results, value);
    SameProperties(definitions, schema, results, value);
    SameItems(definitions, schema, results, value);
    SamePropertyKeys(schema, results);
    SameClosure(schema, r, value);
    assert Get(r, "$ref") == Get(schema, "$ref");
    ValidNode(definitions, schema, value);
    ValidNode(definitions, r, value);
  }

  lemma SamePropertyKeys(schema: Json, results: seq<Json>)
    requires schema.Obj? && Children(schema).Some? && |results| == |Children(schema).value|
    ensures forall key :: Has(PropertySchemas(schema), key) <==> Has(PropertySchemas(Rebuild(schema, results)), key)
  {
    hide Rebuild, Get;
    var r := Rebuild(schema, results);
    RebuildChildren(schema, results);
    RebuildParts(schema, results);
    NodeViews(schema);
    NodeViews(r);
    SameKeys(Members(schema).value, Members(r).value);
  }

  lemma SameLists(definitions: Json, one: seq<Json>, two: seq<Json>)
    requires |one| == |two| && forall k :: 0 <= k < |one| ==> SameValues(definitions, one[k], two[k])
    ensures forall v :: AllValid(definitions, one, v) <==> AllValid(definitions, two, v)
  {
  }

  lemma NodeViews(schema: Json)
    requires Children(schema).Some?
    ensures BranchSchemas(schema) == Branches(schema).value
    ensures PropertySchemas(schema) == Obj(Members(schema).value)
    ensures Children(schema).value[..|Branches(schema).value|] == Branches(schema).value
    ensures Children(schema).value[|Branches(schema).value| + |Members(schema).value|..] == ItemSchemas(schema)
    ensures forall i :: 0 <= i < |Members(schema).value| ==>
      Children(schema).value[|Branches(schema).value| + i] == Members(schema).value[i].value
  {
  }

  lemma SameKeys(one: seq<Field>, two: seq<Field>)
    requires |one| == |two| && forall i :: 0 <= i < |one| ==> one[i].key == two[i].key
    ensures forall key :: Has(Obj(one), key) <==> Has(Obj(two), key)
  {
    forall key ensures Has(Obj(one), key) <==> Has(Obj(two), key) {
      assert Find(one, key) == Find(two, key);
    }
  }

  lemma SameClosure(schema: Json, r: Json, value: Json)
    requires Get(schema, "type") == Get(r, "type")
    requires Get(schema, "required") == Get(r, "required")
    requires Get(schema, "additionalProperties") == Get(r, "additionalProperties")
    requires forall key :: Has(PropertySchemas(schema), key) <==> Has(PropertySchemas(r), key)
    ensures LocallyValid(schema, value) <==> LocallyValid(r, value)
  {
    hide PropertySchemas, Get;
  }

  /** The expanded schema accepts exactly the values the original accepts under its definitions. */
  lemma {:induction false} ExpansionPreservesValidity(definitions: Json, schema: Json, active: set<string>)
    requires Expand(definitions, schema, active).Expanded?
    ensures SameValues(definitions, schema, Expand(definitions, schema, active).result)
    decreases DefinitionNames(definitions) - active, schema
  {
    if Has(schema, "$ref") {
      var name := Referenced(schema).value;
      ReferencedIsTarget(definitions, schema);
      ExpansionPreservesValidity(definitions, Get(definitions, name).value, active + {name});
    } else {
      var children := Children(schema).value;
      var results := ExpandAll(definitions, children, schema, active).result;
      forall k | 0 <= k < |results| ensures SameValues(definitions, children[k], results[k]) {
        ExpandAllAt(definitions, children, schema, active, k);
        ExpansionPreservesValidity(definitions, children[k], active);
      }
      forall v ensures Valid(definitions, schema, v) <==> Valid(definitions, Rebuild(schema, results), v) {
        SameNode(definitions, schema, results, v);
      }
    }
  }
}
