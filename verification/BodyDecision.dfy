/**
 * The composition of the three comparisons decides validity: when all three compare, their lists are all empty exactly
 * when every value of the literal's shape is valid for the schema.
 */
module BodyDecision {
  import opened JsonValues
  import opened Shapes
  import opened BodyWalks
  import BodyComparison
  import SchemaExpansion
  import SchemaRoutes
  import SchemaValidity
  import ResponseSchemaResolution
  import Strings

  lemma {:induction false} TypeBranchesAll(shape: Shape, schema: Json, path: string, n: nat)
    requires n <= |BranchesOf(schema)|
    ensures TypeBranches(shape, schema, path, n).supported <==>
      forall i :: 0 <= i < n ==> TypeWalk(shape, BranchesOf(schema)[i], path).supported
    ensures TypeBranches(shape, schema, path, n).paths == {} <==>
      forall i :: 0 <= i < n ==> TypeWalk(shape, BranchesOf(schema)[i], path).paths == {}
  {
    hide TypeWalk;
    if n > 0 {
      TypeBranchesAll(shape, schema, path, n - 1);
      var i := n - 1;
      var rest, last := TypeBranches(shape, schema, path, n - 1), TypeWalk(shape, BranchesOf(schema)[i], path);
      assert TypeBranches(shape, schema, path, n) == Then(rest, Deeper(last));
    }
  }

  lemma {:induction false} TypeVariantsAll(shape: Shape, schema: Json, path: string, n: nat)
    requires n <= |Variants(shape)|
    ensures TypeVariants(shape, schema, path, n).supported <==>
      forall i :: 0 <= i < n ==> TypeWalk(Variants(shape)[i], schema, path).supported
    ensures TypeVariants(shape, schema, path, n).paths == {} <==>
      forall i :: 0 <= i < n ==> TypeWalk(Variants(shape)[i], schema, path).paths == {}
  {
    hide TypeWalk;
    if n > 0 {
      TypeVariantsAll(shape, schema, path, n - 1);
      var i := n - 1;
      var rest, last := TypeVariants(shape, schema, path, n - 1), TypeWalk(Variants(shape)[i], schema, path);
      assert TypeVariants(shape, schema, path, n) == Then(rest, Deeper(last));
    }
  }

  lemma {:induction false} PresenceBranchesAll(shape: Shape, schema: Json, path: string, n: nat)
    requires n <= |BranchesOf(schema)|
    ensures PresenceBranches(shape, schema, path, n).supported <==>
      forall i :: 0 <= i < n ==> PresenceWalk(shape, BranchesOf(schema)[i], path).supported
    ensures PresenceBranches(shape, schema, path, n).paths == {} <==>
      forall i :: 0 <= i < n ==> PresenceWalk(shape, BranchesOf(schema)[i], path).paths == {}
  {
    hide PresenceWalk;
    if n > 0 {
      PresenceBranchesAll(shape, schema, path, n - 1);
      var i := n - 1;
      var rest, last := PresenceBranches(shape, schema, path, n - 1), PresenceWalk(shape, BranchesOf(schema)[i], path);
      assert PresenceBranches(shape, schema, path, n) == Then(rest, Deeper(last));
    }
  }

  lemma {:induction false} PresenceVariantsAll(shape: Shape, schema: Json, path: string, n: nat)
    requires n <= |Variants(shape)|
    ensures PresenceVariants(shape, schema, path, n).supported <==>
      forall i :: 0 <= i < n ==> PresenceWalk(Variants(shape)[i], schema, path).supported
    ensures PresenceVariants(shape, schema, path, n).paths == {} <==>
      forall i :: 0 <= i < n ==> PresenceWalk(Variants(shape)[i], schema, path).paths == {}
  {
    hide PresenceWalk;
    if n > 0 {
      PresenceVariantsAll(shape, schema, path, n - 1);
      var i := n - 1;
      var rest, last := PresenceVariants(shape, schema, path, n - 1), PresenceWalk(Variants(shape)[i], schema, path);
      assert PresenceVariants(shape, schema, path, n) == Then(rest, Deeper(last));
    }
  }

  lemma {:induction false} ClosureBranchesAll(shape: Shape, schema: Json, path: string, n: nat)
    requires n <= |BranchesOf(schema)|
    ensures ClosureBranches(shape, schema, path, n).supported <==>
      forall i :: 0 <= i < n ==> ClosureWalk(shape, BranchesOf(schema)[i], path).supported
    ensures ClosureBranches(shape, schema, path, n).paths == {} <==>
      forall i :: 0 <= i < n ==> ClosureWalk(shape, BranchesOf(schema)[i], path).paths == {}
  {
    hide ClosureWalk;
    if n > 0 {
      ClosureBranchesAll(shape, schema, path, n - 1);
      var i := n - 1;
      var rest, last := ClosureBranches(shape, schema, path, n - 1), ClosureWalk(shape, BranchesOf(schema)[i], path);
      assert ClosureBranches(shape, schema, path, n) == Then(rest, Deeper(last));
    }
  }

  lemma {:induction false} ClosureVariantsAll(shape: Shape, schema: Json, path: string, n: nat)
    requires n <= |Variants(shape)|
    ensures ClosureVariants(shape, schema, path, n).supported <==>
      forall i :: 0 <= i < n ==> ClosureWalk(Variants(shape)[i], schema, path).supported
    ensures ClosureVariants(shape, schema, path, n).paths == {} <==>
      forall i :: 0 <= i < n ==> ClosureWalk(Variants(shape)[i], schema, path).paths == {}
  {
    hide ClosureWalk;
    if n > 0 {
      ClosureVariantsAll(shape, schema, path, n - 1);
      var i := n - 1;
      var rest, last := ClosureVariants(shape, schema, path, n - 1), ClosureWalk(Variants(shape)[i], schema, path);
      assert ClosureVariants(shape, schema, path, n) == Then(rest, Deeper(last));
    }
  }

  predicate TypeFieldAccepts(property: Property, schema: Json, path: string) {
    match PropertySchema(schema, property.name)
    case Some(declared) => TypeWalk(property.shape, declared, Child(path, property.name)).supported
    case None => true
  }

  predicate TypeFieldSilent(property: Property, schema: Json, path: string) {
    match PropertySchema(schema, property.name)
    case Some(declared) => TypeWalk(property.shape, declared, Child(path, property.name)).paths == {}
    case None => true
  }

  lemma TypeFieldWalk(shape: Shape, schema: Json, path: string, i: nat)
    requires i < |ShapeProperties(shape)|
    ensures TypeProperty(shape, schema, path, i).supported <==> TypeFieldAccepts(ShapeProperties(shape)[i], schema, path)
    ensures TypeProperty(shape, schema, path, i).paths == {} <==> TypeFieldSilent(ShapeProperties(shape)[i], schema, path)
  {
    hide TypeWalk, PropertySchema, Child;
  }

  lemma {:induction false} TypePropertiesAll(shape: Shape, schema: Json, path: string, n: nat)
    requires n <= |ShapeProperties(shape)|
    ensures TypeProperties(shape, schema, path, n).supported <==>
      forall i :: 0 <= i < n ==> TypeFieldAccepts(ShapeProperties(shape)[i], schema, path)
    ensures TypeProperties(shape, schema, path, n).paths == {} <==>
      forall i :: 0 <= i < n ==> TypeFieldSilent(ShapeProperties(shape)[i], schema, path)
  {
    hide TypeWalk, TypeProperty, TypeFieldAccepts, TypeFieldSilent;
    if n > 0 {
      TypePropertiesAll(shape, schema, path, n - 1);
      TypeFieldWalk(shape, schema, path, n - 1);
    }
  }

  predicate PresenceFieldAccepts(property: Property, schema: Json, path: string) {
    match PropertySchema(schema, property.name)
    case Some(declared) => PresenceWalk(property.shape, declared, Child(path, property.name)).supported
    case None => true
  }

  predicate PresenceFieldSilent(property: Property, schema: Json, path: string) {
    match PropertySchema(schema, property.name)
    case Some(declared) => PresenceWalk(property.shape, declared, Child(path, property.name)).paths == {}
    case None => true
  }

  lemma PresenceFieldWalk(shape: Shape, schema: Json, path: string, i: nat)
    requires i < |ShapeProperties(shape)|
    ensures PresenceProperty(shape, schema, path, i).supported <==> PresenceFieldAccepts(ShapeProperties(shape)[i], schema, path)
    ensures PresenceProperty(shape, schema, path, i).paths == {} <==> PresenceFieldSilent(ShapeProperties(shape)[i], schema, path)
  {
    hide PresenceWalk, PropertySchema, Child;
  }

  lemma {:induction false} PresencePropertiesAll(shape: Shape, schema: Json, path: string, n: nat)
    requires n <= |ShapeProperties(shape)|
    ensures PresenceProperties(shape, schema, path, n).supported <==>
      forall i :: 0 <= i < n ==> PresenceFieldAccepts(ShapeProperties(shape)[i], schema, path)
    ensures PresenceProperties(shape, schema, path, n).paths == {} <==>
      forall i :: 0 <= i < n ==> PresenceFieldSilent(ShapeProperties(shape)[i], schema, path)
  {
    hide PresenceWalk, PresenceProperty, PresenceFieldAccepts, PresenceFieldSilent;
    if n > 0 {
      PresencePropertiesAll(shape, schema, path, n - 1);
      PresenceFieldWalk(shape, schema, path, n - 1);
    }
  }

  predicate ClosureFieldAccepts(property: Property, schema: Json, path: string) {
    match PropertySchema(schema, property.name)
    case Some(declared) => ClosureWalk(property.shape, declared, Child(path, property.name)).supported
    case None => true
  }

  predicate ClosureFieldSilent(property: Property, schema: Json, path: string) {
    match PropertySchema(schema, property.name)
    case Some(declared) => ClosureWalk(property.shape, declared, Child(path, property.name)).paths == {}
    case None => Get(schema, "additionalProperties") != Some(Bool(false))
  }

  lemma ClosureFieldWalk(shape: Shape, schema: Json, path: string, i: nat)
    requires i < |ShapeProperties(shape)|
    ensures ClosureProperty(shape, schema, path, i).supported <==> ClosureFieldAccepts(ShapeProperties(shape)[i], schema, path)
    ensures ClosureProperty(shape, schema, path, i).paths == {} <==> ClosureFieldSilent(ShapeProperties(shape)[i], schema, path)
  {
    hide ClosureWalk, PropertySchema, Child;
  }

  lemma {:induction false} ClosurePropertiesAll(shape: Shape, schema: Json, path: string, n: nat)
    requires n <= |ShapeProperties(shape)|
    ensures ClosureProperties(shape, schema, path, n).supported <==>
      forall i :: 0 <= i < n ==> ClosureFieldAccepts(ShapeProperties(shape)[i], schema, path)
    ensures ClosureProperties(shape, schema, path, n).paths == {} <==>
      forall i :: 0 <= i < n ==> ClosureFieldSilent(ShapeProperties(shape)[i], schema, path)
  {
    hide ClosureWalk, ClosureProperty, ClosureFieldAccepts, ClosureFieldSilent;
    if n > 0 {
      ClosurePropertiesAll(shape, schema, path, n - 1);
      ClosureFieldWalk(shape, schema, path, n - 1);
    }
  }

  lemma {:induction false} PresenceRequiredAll(shape: Shape, schema: Json, path: string, n: nat)
    requires n <= |RequiredNames(schema)|
    ensures PresenceRequired(shape, schema, path, n).supported
    ensures PresenceRequired(shape, schema, path, n).paths == {} <==>
      forall i :: 0 <= i < n && RequiredNames(schema)[i].Str? ==> Lists(ShapeProperties(shape), RequiredNames(schema)[i].text)
  {
    if n > 0 { PresenceRequiredAll(shape, schema, path, n - 1); }
  }

  // ---------- one node, three walks ----------

  /** No comparison meets an unsupported construct. */
  predicate Accepts(shape: Shape, schema: Json, path: string) {
    && TypeWalk(shape, schema, path).supported
    && PresenceWalk(shape, schema, path).supported
    && ClosureWalk(shape, schema, path).supported
  }

  /** No comparison reports a path. */
  predicate Silent(shape: Shape, schema: Json, path: string) {
    && TypeWalk(shape, schema, path).paths == {}
    && PresenceWalk(shape, schema, path).paths == {}
    && ClosureWalk(shape, schema, path).paths == {}
  }

  predicate WellFormedNode(schema: Json) {
    && PlainNode(schema) && SupportedType(schema) && SupportedRequired(schema) && SupportedClosure(schema)
    && PropertiesAreObject(schema) && SupportedAllOf(schema)
  }

  /** The node's own keywords are silent: the three remainders report nothing. */
  predicate RestSilent(shape: Shape, schema: Json, path: string) {
    && TypeRest(shape, schema, path).paths == {}
    && PresenceRest(shape, schema, path).paths == {}
    && ClosureRest(shape, schema, path).paths == {}
  }

  predicate RestAccepts(shape: Shape, schema: Json, path: string) {
    && TypeRest(shape, schema, path).supported
    && PresenceRest(shape, schema, path).supported
    && ClosureRest(shape, schema, path).supported
  }

  lemma TypeNodeParts(shape: Shape, schema: Json, path: string)
    requires TypeWalk(shape, schema, path).supported
    ensures PlainNode(schema) && SupportedAllOf(schema)
    ensures TypeRest(shape, schema, path).supported
    ensures forall i :: 0 <= i < |BranchesOf(schema)| ==> TypeWalk(shape, BranchesOf(schema)[i], path).supported
    ensures TypeWalk(shape, schema, path).paths == {} <==>
      && TypeRest(shape, schema, path).paths == {}
      && forall i :: 0 <= i < |BranchesOf(schema)| ==> TypeWalk(shape, BranchesOf(schema)[i], path).paths == {}
  {
    hide TypeRest, TypeBranches, PlainNode, SupportedAllOf, BranchesOf;
    hide SupportedType, SupportedRequired, SupportedClosure, PropertiesAreObject;
    TypeBranchesAll(shape, schema, path, |BranchesOf(schema)|);
  }

  lemma PresenceNodeParts(shape: Shape, schema: Json, path: string)
    requires PresenceWalk(shape, schema, path).supported
    ensures PlainNode(schema) && SupportedAllOf(schema) && SupportedType(schema) && SupportedRequired(schema)
    ensures PresenceRest(shape, schema, path).supported
    ensures forall i :: 0 <= i < |BranchesOf(schema)| ==> PresenceWalk(shape, BranchesOf(schema)[i], path).supported
    ensures PresenceWalk(shape, schema, path).paths == {} <==>
      && PresenceRest(shape, schema, path).paths == {}
      && forall i :: 0 <= i < |BranchesOf(schema)| ==> PresenceWalk(shape, BranchesOf(schema)[i], path).paths == {}
  {
    hide PresenceRest, PresenceBranches, PlainNode, SupportedAllOf, BranchesOf;
    hide SupportedType, SupportedRequired, SupportedClosure, PropertiesAreObject;
    PresenceBranchesAll(shape, schema, path, |BranchesOf(schema)|);
  }

  lemma ClosureNodeParts(shape: Shape, schema: Json, path: string)
    requires ClosureWalk(shape, schema, path).supported
    ensures PlainNode(schema) && SupportedAllOf(schema) && SupportedClosure(schema) && PropertiesAreObject(schema)
    ensures ClosureRest(shape, schema, path).supported
    ensures forall i :: 0 <= i < |BranchesOf(schema)| ==> ClosureWalk(shape, BranchesOf(schema)[i], path).supported
    ensures ClosureWalk(shape, schema, path).paths == {} <==>
      && ClosureRest(shape, schema, path).paths == {}
      && forall i :: 0 <= i < |BranchesOf(schema)| ==> ClosureWalk(shape, BranchesOf(schema)[i], path).paths == {}
  {
    hide ClosureRest, ClosureBranches, PlainNode, SupportedAllOf, BranchesOf;
    hide SupportedType, SupportedRequired, SupportedClosure, PropertiesAreObject;
    ClosureBranchesAll(shape, schema, path, |BranchesOf(schema)|);
  }

  lemma NodeParts(shape: Shape, schema: Json, path: string)
    requires Accepts(shape, schema, path)
    ensures WellFormedNode(schema)
    ensures forall i :: 0 <= i < |BranchesOf(schema)| ==> Accepts(shape, BranchesOf(schema)[i], path)
    ensures RestAccepts(shape, schema, path)
    ensures Silent(shape, schema, path) <==>
      && RestSilent(shape, schema, path)
      && forall i :: 0 <= i < |BranchesOf(schema)| ==> Silent(shape, BranchesOf(schema)[i], path)
  {
    hide TypeWalk, PresenceWalk, ClosureWalk, TypeRest, PresenceRest, ClosureRest, BranchesOf;
    hide PlainNode, SupportedAllOf, SupportedType, SupportedRequired, SupportedClosure, PropertiesAreObject;
    TypeNodeParts(shape, schema, path);
    PresenceNodeParts(shape, schema, path);
    ClosureNodeParts(shape, schema, path);
  }

  lemma UnionParts(shape: Shape, schema: Json, path: string)
    requires shape.AnyOfShape? && RestAccepts(shape, schema, path)
    ensures forall i :: 0 <= i < |shape.variants| ==> Accepts(shape.variants[i], schema, path)
    ensures RestSilent(shape, schema, path) <==> forall i :: 0 <= i < |shape.variants| ==> Silent(shape.variants[i], schema, path)
  {
    hide TypeWalk, PresenceWalk, ClosureWalk, TypeVariants, PresenceVariants, ClosureVariants;
    TypeVariantsAll(shape, schema, path, |shape.variants|);
    PresenceVariantsAll(shape, schema, path, |shape.variants|);
    ClosureVariantsAll(shape, schema, path, |shape.variants|);
  }

  /** A differing type is reported, whatever else the node declares. */
  lemma DifferingType(shape: Shape, schema: Json, path: string)
    requires !shape.AnyOfShape? && SupportedType(schema) && TypeDiffers(shape, schema)
    ensures TypeRest(shape, schema, path).paths != {}
  {
    assert (if path == "" then "/" else path) in TypeRest(shape, schema, path).paths;
  }

  lemma ScalarParts(shape: Shape, schema: Json, path: string)
    requires SupportedType(schema) && !TypeDiffers(shape, schema)
    requires !shape.AnyOfShape? && !shape.ObjectShape? && !(shape.ArrayShape? && shape.items.Some?)
    ensures RestSilent(shape, schema, path)
  {
  }

  lemma ArrayParts(shape: Shape, schema: Json, path: string)
    requires shape.ArrayShape? && shape.items.Some? && RestAccepts(shape, schema, path)
    requires SupportedType(schema) && !TypeDiffers(shape, schema)
    ensures Has(schema, "items") ==>
      && Accepts(shape.items.value, Get(schema, "items").value, path + "/*")
      && (RestSilent(shape, schema, path) <==> Silent(shape.items.value, Get(schema, "items").value, path + "/*"))
    ensures !Has(schema, "items") ==> RestSilent(shape, schema, path)
  {
    hide TypeWalk, PresenceWalk, ClosureWalk;
    assert AllowsType(schema, "array");
  }

  /** Required names, closure and declared properties of an object node, stated on the literal's own fields. */
  predicate ObjectSilent(shape: Shape, schema: Json, path: string) {
    var properties := ShapeProperties(shape);
    && (forall i :: 0 <= i < |RequiredNames(schema)| && RequiredNames(schema)[i].Str? ==>
          Lists(properties, RequiredNames(schema)[i].text))
    && (forall i :: 0 <= i < |properties| ==> FieldSilent(properties[i], schema, path))
  }

  predicate FieldSilent(property: Property, schema: Json, path: string) {
    && TypeFieldSilent(property, schema, path)
    && PresenceFieldSilent(property, schema, path)
    && ClosureFieldSilent(property, schema, path)
  }

  predicate FieldAccepts(property: Property, schema: Json, path: string) {
    && TypeFieldAccepts(property, schema, path)
    && PresenceFieldAccepts(property, schema, path)
    && ClosureFieldAccepts(property, schema, path)
  }

  /** What a field owes: its declared schema, or not to be forbidden. */
  lemma FieldMeaning(property: Property, schema: Json, path: string)
    ensures FieldAccepts(property, schema, path) <==>
      var declared := PropertySchema(schema, property.name);
      declared.Some? ==> Accepts(property.shape, declared.value, Child(path, property.name))
    ensures FieldSilent(property, schema, path) <==>
      match PropertySchema(schema, property.name)
      case Some(declared) => Silent(property.shape, declared, Child(path, property.name))
      case None => Get(schema, "additionalProperties") != Some(Bool(false))
  {
    hide TypeWalk, PresenceWalk, ClosureWalk, PropertySchema, Child;
  }

  /** Without declared properties the presence comparison does not look at the fields. */
  lemma UndeclaredFields(schema: Json, path: string)
    requires !Has(schema, "properties")
    ensures forall property :: PresenceFieldSilent(property, schema, path) && PresenceFieldAccepts(property, schema, path)
  {
  }

  lemma ObjectParts(shape: Shape, schema: Json, path: string)
    requires shape.ObjectShape? && RestAccepts(shape, schema, path)
    requires SupportedType(schema) && !TypeDiffers(shape, schema) && PropertiesAreObject(schema)
    ensures forall i :: 0 <= i < |shape.properties| ==> FieldAccepts(shape.properties[i], schema, path)
    ensures RestSilent(shape, schema, path) <==> ObjectSilent(shape, schema, path)
  {
    hide TypeWalk, PresenceWalk, ClosureWalk, RequiredNames;
    hide TypeFieldSilent, PresenceFieldSilent, ClosureFieldSilent;
    hide TypeFieldAccepts, PresenceFieldAccepts, ClosureFieldAccepts;
    hide TypeProperties, PresenceProperties, ClosureProperties, PresenceRequired;
    var n := |shape.properties|;
    assert AllowsType(schema, "object");
    TypePropertiesAll(shape, schema, path, n);
    PresencePropertiesAll(shape, schema, path, n);
    ClosurePropertiesAll(shape, schema, path, n);
    PresenceRequiredAll(shape, schema, path, |RequiredNames(schema)|);
    if !Has(schema, "properties") { UndeclaredFields(schema, path); }
  }

  // ---------- silence is validity ----------

  lemma TypeAgrees(shape: Shape, schema: Json, value: Json)
    requires !shape.AnyOfShape? && Denotes(shape, value) && SupportedType(schema)
    ensures SchemaValidity.TypeHolds(schema, value) <==> !TypeDiffers(shape, schema)
  {
  }

  lemma NodeSchemas(schema: Json)
    requires SupportedAllOf(schema)
    ensures SchemaValidity.BranchSchemas(schema) == BranchesOf(schema)
  {
  }

  lemma SoundObject(definitions: Json, shape: Shape, schema: Json, path: string, value: Json)
    requires shape.ObjectShape? && Denotes(shape, value) && ObjectSilent(shape, schema, path)
    ensures SchemaValidity.RequiredHolds(schema, value) && SchemaValidity.ClosureHolds(schema, value)
  {
    hide TypeFieldSilent, PresenceFieldSilent, ClosureFieldSilent, Denotes;
    ObjectKeys(shape, value);
    var names := RequiredNames(schema);
    forall i | 0 <= i < |names| && names[i].Str? ensures Has(value, names[i].text) {
      var k := IndexOfProperty(shape.properties, names[i].text);
      assert Lists(shape.properties, names[i].text);
      assert shape.properties[k].name == names[i].text;
    }
    forall i | 0 <= i < |value.fields| && Get(schema, "additionalProperties") == Some(Bool(false))
      ensures Has(SchemaValidity.PropertySchemas(schema), value.fields[i].key)
    {
      var k := IndexOfProperty(shape.properties, value.fields[i].key);
      assert Lists(shape.properties, value.fields[i].key);
      assert FieldSilent(shape.properties[k], schema, path);
      FieldMeaning(shape.properties[k], schema, path);
    }
  }

  lemma ObjectKeys(shape: Shape, value: Json)
    requires shape.ObjectShape? && Denotes(shape, value)
    ensures value.Obj? && DistinctKeys(value.fields)
    ensures forall i :: 0 <= i < |value.fields| ==> Lists(shape.properties, value.fields[i].key)
    ensures forall i :: 0 <= i < |shape.properties| ==> Has(value, shape.properties[i].name)
  {
  }

  lemma FieldOf(shape: Shape, value: Json, i: nat) returns (k: nat)
    requires shape.ObjectShape? && Denotes(shape, value) && value.Obj? && i < |value.fields|
    ensures k < |shape.properties| && shape.properties[k].name == value.fields[i].key
    ensures Denotes(shape.properties[k].shape, value.fields[i].value)
  {
    assert Lists(shape.properties, value.fields[i].key);
    k := IndexOfProperty(shape.properties, value.fields[i].key);
    assert Find(value.fields, value.fields[i].key) == i;
  }

  /** When nothing is reported, every value of the shape is valid. */
  lemma {:induction false} SilentIsValid(definitions: Json, shape: Shape, schema: Json, path: string, value: Json)
    requires Accepts(shape, schema, path) && Silent(shape, schema, path) && Denotes(shape, value)
    ensures SchemaValidity.Valid(definitions, schema, value)
    decreases shape, schema
  {
    hide Accepts, Silent, RestSilent, RestAccepts, ObjectSilent, FieldSilent, FieldAccepts;
    hide PlainNode, SupportedType, SupportedRequired, SupportedClosure, SupportedAllOf, BranchesOf, TypeDiffers;
    hide SchemaValidity.TypeHolds, SchemaValidity.RequiredHolds, SchemaValidity.ClosureHolds, SchemaValidity.BranchSchemas;
    hide SchemaValidity.PropertySchemas, SchemaExpansion.ItemSchemas, TypeName;
    NodeParts(shape, schema, path);
    if shape.AnyOfShape? {
      UnionParts(shape, schema, path);
      var i :| 0 <= i < |shape.variants| && Denotes(shape.variants[i], value);
      SilentIsValid(definitions, shape.variants[i], schema, path, value);
    } else {
      SilentNode(definitions, shape, schema, path, value);
    }
  }

  lemma {:induction false} SilentNode(definitions: Json, shape: Shape, schema: Json, path: string, value: Json)
    requires !shape.AnyOfShape?
    requires Accepts(shape, schema, path) && Silent(shape, schema, path) && Denotes(shape, value)
    ensures SchemaValidity.Valid(definitions, schema, value)
    decreases shape, schema, 1
  {
    hide Accepts, Silent, RestSilent, RestAccepts, ObjectSilent, FieldSilent, FieldAccepts, Denotes;
    hide PlainNode, SupportedType, SupportedRequired, SupportedClosure, SupportedAllOf, BranchesOf, TypeDiffers;
    hide SchemaValidity.TypeHolds, SchemaValidity.RequiredHolds, SchemaValidity.ClosureHolds, SchemaValidity.BranchSchemas;
    hide SchemaValidity.PropertySchemas, SchemaExpansion.ItemSchemas, TypeName, SchemaValidity.MembersValid, SchemaValidity.ItemsValid;
    NodeParts(shape, schema, path);
    SilentType(shape, schema, path);
    TypeAgrees(shape, schema, value);
    NodeSchemas(schema);
    forall k | 0 <= k < |BranchesOf(schema)| ensures SchemaValidity.Valid(definitions, BranchesOf(schema)[k], value) {
      SilentIsValid(definitions, shape, BranchesOf(schema)[k], path, value);
    }
    SilentLocal(definitions, shape, schema, path, value);
    SilentMembers(definitions, shape, schema, path, value);
    SilentItems(definitions, shape, schema, path, value);
    PlainHasNoReference(schema);
    SchemaValidity.ValidNode(definitions, schema, value);
  }

  lemma PlainHasNoReference(schema: Json)
    requires PlainNode(schema)
    ensures schema.Obj? && !Has(schema, "$ref")
  {
  }

  lemma SilentType(shape: Shape, schema: Json, path: string)
    requires !shape.AnyOfShape? && SupportedType(schema) && RestSilent(shape, schema, path)
    ensures !TypeDiffers(shape, schema)
  {
    hide SupportedType, TypeDiffers, TypeRest, PresenceRest, ClosureRest;
    if TypeDiffers(shape, schema) {
      DifferingType(shape, schema, path);
      assert false;
    }
  }

  lemma SilentLocal(definitions: Json, shape: Shape, schema: Json, path: string, value: Json)
    requires !shape.AnyOfShape? && Denotes(shape, value)
    requires WellFormedNode(schema) && RestAccepts(shape, schema, path) && RestSilent(shape, schema, path)
    ensures SchemaValidity.LocallyValid(schema, value)
  {
    hide RestSilent, RestAccepts, ObjectSilent, TypeDiffers;
    SilentType(shape, schema, path);
    TypeAgrees(shape, schema, value);
    if shape.ObjectShape? {
      ObjectParts(shape, schema, path);
      SoundObject(definitions, shape, schema, path, value);
    } else {
      assert !value.Obj?;
    }
  }

  lemma {:induction false} SilentMembers(definitions: Json, shape: Shape, schema: Json, path: string, value: Json)
    requires !shape.AnyOfShape? && Denotes(shape, value)
    requires WellFormedNode(schema) && RestAccepts(shape, schema, path) && RestSilent(shape, schema, path)
    ensures SchemaValidity.MembersValid(definitions, SchemaValidity.PropertySchemas(schema), value)
    decreases shape, schema, 0
  {
    hide RestSilent, RestAccepts, TypeDiffers, FieldSilent, FieldAccepts, Accepts, Silent;
    if value.Obj? {
      assert shape.ObjectShape?;
      SilentType(shape, schema, path);
      ObjectParts(shape, schema, path);
      forall i | 0 <= i < |value.fields| && Has(SchemaValidity.PropertySchemas(schema), value.fields[i].key)
        ensures SchemaValidity.Valid(definitions, Get(SchemaValidity.PropertySchemas(schema), value.fields[i].key).value,
                                     value.fields[i].value)
      {
        var k := FieldOf(shape, value, i);
        var property := shape.properties[k];
        assert ShapeProperties(shape)[k] == property;
        assert FieldSilent(property, schema, path);
        assert FieldAccepts(property, schema, path);
        FieldMeaning(property, schema, path);
        SilentIsValid(definitions, property.shape, PropertySchema(schema, property.name).value,
                      Child(path, property.name), value.fields[i].value);
      }
    }
  }

  lemma {:induction false} SilentItems(definitions: Json, shape: Shape, schema: Json, path: string, value: Json)
    requires !shape.AnyOfShape? && Denotes(shape, value)
    requires WellFormedNode(schema) && RestAccepts(shape, schema, path) && RestSilent(shape, schema, path)
    ensures SchemaValidity.ItemsValid(definitions, SchemaExpansion.ItemSchemas(schema), value)
    decreases shape, schema, 0
  {
    hide RestSilent, RestAccepts, TypeDiffers, Accepts, Silent;
    if value.Arr? && value.items != [] && Has(schema, "items") {
      assert shape.ArrayShape? && shape.items.Some?;
      SilentType(shape, schema, path);
      ArrayParts(shape, schema, path);
      forall i | 0 <= i < |value.items|
        ensures SchemaValidity.AllValid(definitions, SchemaExpansion.ItemSchemas(schema), value.items[i])
      {
        SilentIsValid(definitions, shape.items.value, Get(schema, "items").value, path + "/*", value.items[i]);
      }
    }
  }

  // ---------- validity is silence ----------

  ghost predicate AllAreValid(definitions: Json, shape: Shape, schema: Json) {
    forall v :: Denotes(shape, v) ==> SchemaValidity.Valid(definitions, schema, v)
  }

  /** When every value of the shape is valid, nothing is reported. */
  lemma {:induction false} ValidIsSilent(definitions: Json, shape: Shape, schema: Json, path: string)
    requires WellFormed(shape) && Accepts(shape, schema, path) && AllAreValid(definitions, shape, schema)
    ensures Silent(shape, schema, path)
    decreases shape, schema, 3
  {
    hide Accepts, Silent, RestSilent, RestAccepts;
    hide PlainNode, SupportedType, SupportedRequired, SupportedClosure, SupportedAllOf, BranchesOf, PropertiesAreObject;
    NodeParts(shape, schema, path);
    forall i | 0 <= i < |BranchesOf(schema)| ensures Silent(shape, BranchesOf(schema)[i], path) {
      BranchValid(definitions, shape, schema, i);
      ValidIsSilent(definitions, shape, BranchesOf(schema)[i], path);
    }
    if shape.AnyOfShape? {
      UnionParts(shape, schema, path);
      forall i | 0 <= i < |shape.variants| ensures Silent(shape.variants[i], schema, path) {
        VariantValid(definitions, shape, schema, i);
        ValidIsSilent(definitions, shape.variants[i], schema, path);
      }
    } else {
      ValidRest(definitions, shape, schema, path);
    }
  }

  lemma BranchValid(definitions: Json, shape: Shape, schema: Json, i: nat)
    requires AllAreValid(definitions, shape, schema) && PlainNode(schema) && SupportedAllOf(schema)
    requires i < |BranchesOf(schema)|
    ensures AllAreValid(definitions, shape, BranchesOf(schema)[i])
  {
    NodeSchemas(schema);
    forall v | Denotes(shape, v) ensures SchemaValidity.Valid(definitions, BranchesOf(schema)[i], v) {
      SchemaValidity.ValidNode(definitions, schema, v);
    }
  }

  lemma VariantValid(definitions: Json, shape: Shape, schema: Json, i: nat)
    requires shape.AnyOfShape? && AllAreValid(definitions, shape, schema) && i < |shape.variants|
    ensures AllAreValid(definitions, shape.variants[i], schema)
  {
    forall v | Denotes(shape.variants[i], v) ensures SchemaValidity.Valid(definitions, schema, v) {
      assert Denotes(shape, v);
    }
  }

  lemma {:induction false} ValidRest(definitions: Json, shape: Shape, schema: Json, path: string)
    requires WellFormed(shape) && !shape.AnyOfShape?
    requires WellFormedNode(schema) && RestAccepts(shape, schema, path) && AllAreValid(definitions, shape, schema)
    ensures RestSilent(shape, schema, path)
    decreases shape, schema, 2
  {
    hide RestSilent, RestAccepts, TypeDiffers, Denotes, Sample, AllAreValid, Accepts, Silent, PlainNode, ObjectSilent;
    hide SupportedType, SupportedRequired, SupportedClosure, SupportedAllOf, PropertiesAreObject;
    ValidType(definitions, shape, schema);
    if shape.ObjectShape? {
      ObjectParts(shape, schema, path);
      ValidObject(definitions, shape, schema, path);
    } else if shape.ArrayShape? && shape.items.Some? {
      ArrayParts(shape, schema, path);
      if Has(schema, "items") {
        ItemValid(definitions, shape, schema);
        ValidIsSilent(definitions, shape.items.value, Get(schema, "items").value, path + "/*");
      }
    } else {
      ScalarParts(shape, schema, path);
    }
  }

  lemma ValidType(definitions: Json, shape: Shape, schema: Json)
    requires WellFormed(shape) && !shape.AnyOfShape? && PlainNode(schema) && SupportedType(schema)
    requires AllAreValid(definitions, shape, schema)
    ensures !TypeDiffers(shape, schema)
  {
    SampleDenoted(shape);
    SchemaValidity.ValidNode(definitions, schema, Sample(shape));
    TypeAgrees(shape, schema, Sample(shape));
  }

  lemma ItemValid(definitions: Json, shape: Shape, schema: Json)
    requires shape.ArrayShape? && shape.items.Some? && PlainNode(schema) && Has(schema, "items")
    requires AllAreValid(definitions, shape, schema)
    ensures AllAreValid(definitions, shape.items.value, Get(schema, "items").value)
  {
    forall v | Denotes(shape.items.value, v) ensures SchemaValidity.Valid(definitions, Get(schema, "items").value, v) {
      var one := Arr([v]);
      assert Denotes(shape, one);
      SchemaValidity.ValidNode(definitions, schema, one);
      assert one.items[0] == v;
      assert SchemaExpansion.ItemSchemas(schema)[0] == Get(schema, "items").value;
    }
  }

  lemma {:induction false} ValidObject(definitions: Json, shape: Shape, schema: Json, path: string)
    requires shape.ObjectShape? && WellFormed(shape) && WellFormedNode(schema)
    requires AllAreValid(definitions, shape, schema)
    requires forall i :: 0 <= i < |shape.properties| ==> FieldAccepts(shape.properties[i], schema, path)
    ensures ObjectSilent(shape, schema, path)
    decreases shape, schema, 1
  {
    hide FieldAccepts, FieldSilent, Accepts, Silent;
    SampleDenoted(shape);
    var sample := Sample(shape);
    SchemaValidity.ValidNode(definitions, schema, sample);
    forall i | 0 <= i < |RequiredNames(schema)| && RequiredNames(schema)[i].Str?
      ensures Lists(shape.properties, RequiredNames(schema)[i].text)
    {
      var name := RequiredNames(schema)[i].text;
      assert Has(sample, name);
      assert sample.fields[Find(sample.fields, name)].key == name;
    }
    forall i | 0 <= i < |shape.properties| ensures FieldSilent(shape.properties[i], schema, path) {
      ValidField(definitions, shape, schema, path, i);
    }
  }

  lemma {:induction false} ValidField(definitions: Json, shape: Shape, schema: Json, path: string, i: nat)
    requires shape.ObjectShape? && WellFormed(shape) && WellFormedNode(schema) && i < |shape.properties|
    requires AllAreValid(definitions, shape, schema)
    requires FieldAccepts(shape.properties[i], schema, path)
    ensures FieldSilent(shape.properties[i], schema, path)
    decreases shape, schema, 0
  {
    hide FieldAccepts, FieldSilent, Accepts, Silent;
    var property := shape.properties[i];
    FieldMeaning(property, schema, path);
    var declared := PropertySchema(schema, property.name);
    if declared.Some? {
      forall v | Denotes(property.shape, v) ensures SchemaValidity.Valid(definitions, declared.value, v) {
        var whole := WithOneValue(shape.properties, i, v);
        SchemaValidity.ValidNode(definitions, schema, whole);
        assert whole.fields[i].key == property.name;
      }
      ValidIsSilent(definitions, property.shape, declared.value, Child(path, property.name));
    } else {
      SampleDenoted(property.shape);
      var whole := WithOneValue(shape.properties, i, Sample(property.shape));
      SchemaValidity.ValidNode(definitions, schema, whole);
      assert whole.fields[i].key == property.name;
    }
  }

  // ---------- the decision ----------

  /**
   * For an expandable schema whose expansion no comparison refuses: the three walks report nothing exactly when every
   * value of the shape is valid for the original schema under its definitions.
   */
  lemma WalksDecideValidity(definitions: Json, shape: Shape, schema: Json)
    requires WellFormed(shape)
    requires SchemaExpansion.Expand(definitions, schema, {}).Expanded?
    requires Accepts(shape, SchemaExpansion.Expand(definitions, schema, {}).result, "")
    ensures Silent(shape, SchemaExpansion.Expand(definitions, schema, {}).result, "")
       <==> AllAreValid(definitions, shape, schema)
  {
    hide Accepts, Silent;
    var expanded := SchemaExpansion.Expand(definitions, schema, {}).result;
    SchemaValidity.ExpansionPreservesValidity(definitions, schema, {});
    assert SchemaValidity.SameValues(definitions, schema, expanded);
    assert AllAreValid(definitions, shape, schema) <==> AllAreValid(definitions, shape, expanded);
    if Silent(shape, expanded, "") {
      forall v | Denotes(shape, v) ensures SchemaValidity.Valid(definitions, expanded, v) {
        SilentIsValid(definitions, shape, expanded, "", v);
      }
    }
    if AllAreValid(definitions, shape, expanded) {
      ValidIsSilent(definitions, shape, expanded, "");
    }
  }

  /** What an endpoint reports about a literal body. */
  datatype BodyReport =
    | NoSchema
    | BodyReport(types: BodyComparison.Comparison,
                 additional: Option<BodyComparison.Comparison>,
                 presence: Option<BodyComparison.Comparison>)

  predicate AllCompared(r: BodyReport) {
    && r.BodyReport? && r.types.Compared?
    && r.additional.Some? && r.additional.value.Compared?
    && r.presence.Some? && r.presence.value.Compared?
  }

  predicate NothingReported(r: BodyReport)
    requires AllCompared(r)
  {
    r.types.paths == [] && r.additional.value.paths == [] && r.presence.value.paths == []
  }

  /** What the literal is compared with: the expansion of a resolvable schema, else nothing comparable. */
  ghost function Documented(definitions: Json, schema: Json): Json {
    SchemaRoutes.ResolvableExactly(definitions, schema);
    if SchemaRoutes.Resolvable(definitions, schema) then SchemaExpansion.Expand(definitions, schema, {}).result else Null
  }

  lemma NoElements(paths: seq<string>)
    ensures paths == [] <==> Strings.Elements(paths) == {}
  {
    if paths != [] { Strings.ListedElement(paths); }
  }

  /** Resolve, compare types, and only then closure and presence; all three compared means validity is decided. */
  method CompareLiteralBody(actual: Shape, schema: Option<Json>, definitions: Json) returns (r: BodyReport)
    ensures r.NoSchema? <==> schema.None?
    ensures r.BodyReport? ==> (r.types.Compared? <==> r.additional.Some?) && (r.additional.Some? <==> r.presence.Some?)
    ensures r.BodyReport? ==> BodyComparison.Refines(r.types, TypeWalk(actual, Documented(definitions, schema.value), ""), BodyComparison.AtEntry)
    ensures r.BodyReport? && r.types.Compared? ==> SchemaRoutes.Resolvable(definitions, schema.value)
    ensures r.BodyReport? && r.types.Compared? ==>
      && BodyComparison.Refines(r.additional.value, ClosureWalk(actual, Documented(definitions, schema.value), ""), BodyComparison.AtEachResult)
      && BodyComparison.Refines(r.presence.value, PresenceWalk(actual, Documented(definitions, schema.value), ""), BodyComparison.AtEachResult)
    ensures AllCompared(r) && WellFormed(actual) ==>
      (NothingReported(r) <==> AllAreValid(definitions, actual, schema.value))
  {
    hide TypeWalk, PresenceWalk, ClosureWalk, SchemaExpansion.Expand, WellFormed, BodyComparison.Crowded, AllAreValid,
      SchemaRoutes.Resolvable;
    if schema.None? { return NoSchema; }
    var resolution := ResponseSchemaResolution.ResolveResponseSchema(schema.value, definitions);
    var expected := if resolution.Resolved? then resolution.schema else Null;
    var types := BodyComparison.CompareResponseBodyTypes(actual, expected);
    if types.Unresolved? { return BodyReport(types, None, None); }
    NullRefused(actual);
    assert resolution.Resolved?;
    var additional := BodyComparison.CompareResponseBodyAdditionalProperties(actual, expected);
    var presence := BodyComparison.CompareResponseBodyPresence(actual, expected);
    r := BodyReport(types, Some(additional), Some(presence));
    if additional.Compared? && presence.Compared? && WellFormed(actual) {
      WalksDecideValidity(definitions, actual, schema.value);
      NoElements(types.paths);
      NoElements(additional.paths);
      NoElements(presence.paths);
    }
  }

  lemma NullRefused(shape: Shape)
    ensures !TypeWalk(shape, Null, "").supported
  {
  }

  /** In particular a literal whose comparison is complete and silent is itself valid for the documented schema. */
  lemma SilentLiteralIsValid(literal: Literal, schema: Json, definitions: Json)
    requires ShapeOf(literal).Some?
    requires SchemaExpansion.Expand(definitions, schema, {}).Expanded?
    requires Accepts(ShapeOf(literal).value, SchemaExpansion.Expand(definitions, schema, {}).result, "")
    requires Silent(ShapeOf(literal).value, SchemaExpansion.Expand(definitions, schema, {}).result, "")
    ensures SchemaValidity.Valid(definitions, schema, Evaluate(literal))
  {
    hide Accepts, Silent, ShapeOf;
    ShapeOfDenotes(literal);
    WalksDecideValidity(definitions, ShapeOf(literal).value, schema);
  }
}
