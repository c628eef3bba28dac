/**
 * What the comparisons report, said without their traversals: the places a route of branches, variants, fields and array
 * items leads to, which of them a comparison supports, and which paths it reports there.
 */
module BodyPaths {
  import opened JsonValues
  import opened Shapes
  import opened BodyWalks
  import JsonPointer
  import SchemaExpansion
  import SchemaValidity

  /** A part of the literal, the schema it is compared with, and the pointer to it. */
  datatype Place = Place(shape: Shape, schema: Json, path: string)

  datatype Kind = Types | Presence | Closure

  // ---------- routes ----------

  /** One of the branches of `allOf`: the same part, at the same pointer. */
  predicate ToBranch(a: Place, b: Place) {
    && b.shape == a.shape && b.path == a.path
    && match Get(a.schema, "allOf") case Some(Arr(branches)) => b.schema in branches case _ => false
  }

  /** One of the shapes a literal's array elements have. */
  predicate ToVariant(a: Place, b: Place) {
    a.shape.AnyOfShape? && b.shape in a.shape.variants && b.schema == a.schema && b.path == a.path
  }

  predicate Declares(schema: Json, name: string) {
    Get(schema, "type") == None || Get(schema, "type") == Some(Str(name))
  }

  /** The schema a node's `properties` give a name. */
  function Declared(schema: Json, name: string): (r: Option<Json>)
    ensures r.Some? ==> r.value < schema
  {
    match Get(schema, "properties") case Some(properties) => Get(properties, name) case None => None
  }

  predicate IsField(a: Place, b: Place, i: int) {
    && a.shape.ObjectShape? && 0 <= i < |a.shape.properties|
    && b.shape == a.shape.properties[i].shape
    && Declared(a.schema, a.shape.properties[i].name) == Some(b.schema)
    && b.path == a.path + "/" + JsonPointer.Escape(a.shape.properties[i].name)
  }

  /** A field of an object, with the schema declared for it. */
  ghost predicate ToField(a: Place, b: Place) {
    Declares(a.schema, "object") && exists i :: IsField(a, b, i)
  }

  /** The items of an array. */
  predicate ToItem(a: Place, b: Place) {
    && Declares(a.schema, "array")
    && a.shape.ArrayShape? && a.shape.items == Some(b.shape)
    && Get(a.schema, "items") == Some(b.schema) && b.path == a.path + "/*"
  }

  ghost predicate Leads(a: Place, b: Place) {
    ToBranch(a, b) || ToVariant(a, b) || ToField(a, b) || ToItem(a, b)
  }

  lemma LeadsDown(a: Place, b: Place)
    requires Leads(a, b)
    ensures b.shape < a.shape || (b.shape == a.shape && b.schema < a.schema)
  {
  }

  /** Some route leads from one place to the other. */
  ghost predicate Reaches(a: Place, b: Place)
    decreases a.shape, a.schema
  {
    a == b || exists m :: Leads(a, m) && (LeadsDown(a, m); Reaches(m, b))
  }

  // ---------- what a comparison supports and reports at a place ----------

  predicate KnownType(schema: Json) {
    match Get(schema, "type")
    case None => true
    case Some(Str(name)) => name in {"null", "boolean", "object", "array", "number", "integer", "string"}
    case Some(_) => false
  }

  predicate ObjectOfProperties(schema: Json) {
    match Get(schema, "properties") case None => true case Some(Obj(_)) => true case _ => false
  }

  predicate ListOfNames(schema: Json) {
    match Get(schema, "required")
    case None => true
    case Some(Arr(names)) =>
      && |names| <= 10000 && (forall i :: 0 <= i < |names| ==> names[i].Str? && names[i].text != "")
      && forall i, j :: 0 <= i < j < |names| ==> names[i] != names[j]
    case Some(_) => false
  }

  predicate ListOfBranches(schema: Json) {
    match Get(schema, "allOf") case None => true case Some(Arr(branches)) => 1 <= |branches| <= 32 case _ => false
  }

  /** The schema at a place is one the comparison goes on with. */
  predicate Supports(kind: Kind, place: Place) {
    var schema := place.schema;
    && schema.Obj? && ListOfBranches(schema)
    && Get(schema, "$ref") == None && Get(schema, "anyOf") == None && Get(schema, "oneOf") == None && Get(schema, "not") == None
    && match kind
       case Types =>
         place.shape.AnyOfShape? ||
         (KnownType(schema) && (place.shape.ObjectShape? && Declares(schema, "object") ==> ObjectOfProperties(schema)))
       case Presence =>
         && KnownType(schema) && ListOfNames(schema)
         && (place.shape.ObjectShape? && Declares(schema, "object") ==> ObjectOfProperties(schema))
       case Closure =>
         && KnownType(schema) && ObjectOfProperties(schema) && Get(schema, "patternProperties") == None
         && match Get(schema, "additionalProperties") case None => true case Some(Bool(_)) => true case _ => false
  }

  predicate HasField(shape: Shape, name: string)
    requires shape.ObjectShape?
  {
    exists i :: 0 <= i < |shape.properties| && shape.properties[i].name == name
  }

  predicate Requires(schema: Json, name: string) {
    match Get(schema, "required") case Some(Arr(names)) => Str(name) in names case _ => false
  }

  /** The pointer text of a field of an object. */
  function FieldPath(place: Place, name: string): string {
    place.path + "/" + JsonPointer.Escape(name)
  }

  /** A path a comparison reports at a place: of a differing type, of a missing field, of a forbidden field. */
  ghost predicate Reports(kind: Kind, place: Place, p: string) {
    match kind
    case Types =>
      && !place.shape.AnyOfShape?
      && (match Get(place.schema, "type")
          case Some(Str(name)) => name != TypeName(place.shape) && !(name == "number" && place.shape.IntegerShape?)
          case _ => false)
      && p == if place.path == "" then "/" else place.path
    case Presence =>
      && place.shape.ObjectShape? && Declares(place.schema, "object")
      && exists name :: Requires(place.schema, name) && !HasField(place.shape, name) && p == FieldPath(place, name)
    case Closure =>
      && place.shape.ObjectShape? && Declares(place.schema, "object")
      && Get(place.schema, "additionalProperties") == Some(Bool(false))
      && exists name :: HasField(place.shape, name) && Declared(place.schema, name) == None && p == FieldPath(place, name)
  }

  ghost predicate AllSupported(kind: Kind, a: Place) {
    forall b :: Reaches(a, b) ==> Supports(kind, b)
  }

  ghost predicate Found(kind: Kind, a: Place, p: string) {
    exists b :: Reaches(a, b) && Reports(kind, b, p)
  }

  // ---------- one step ----------

  lemma ReachesHere(a: Place)
    ensures Reaches(a, a)
  {
  }

  lemma ReachesOn(a: Place, m: Place, b: Place)
    requires Leads(a, m) && Reaches(m, b)
    ensures Reaches(a, b)
  {
    hide Leads;
  }

  lemma FoundStep(kind: Kind, a: Place, p: string)
    ensures Found(kind, a, p) <==> Reports(kind, a, p) || exists m :: Leads(a, m) && Found(kind, m, p)
  {
    hide Leads, Reports;
    ReachesHere(a);
    if Found(kind, a, p) && !Reports(kind, a, p) {
      var b :| Reaches(a, b) && Reports(kind, b, p);
      var m :| Leads(a, m) && Reaches(m, b);
      assert Found(kind, m, p);
    }
    if m :| Leads(a, m) && Found(kind, m, p) {
      var b :| Reaches(m, b) && Reports(kind, b, p);
      ReachesOn(a, m, b);
    }
  }

  lemma SupportedStep(kind: Kind, a: Place)
    ensures AllSupported(kind, a) <==> Supports(kind, a) && forall m :: Leads(a, m) ==> AllSupported(kind, m)
  {
    hide Leads, Supports;
    ReachesHere(a);
    if AllSupported(kind, a) {
      forall m | Leads(a, m) ensures AllSupported(kind, m) {
        forall b | Reaches(m, b) ensures Supports(kind, b) { ReachesOn(a, m, b); }
      }
    }
    if Supports(kind, a) && forall m :: Leads(a, m) ==> AllSupported(kind, m) {
      forall b | Reaches(a, b) ensures Supports(kind, b) {
        if a != b {
          var m :| Leads(a, m) && Reaches(m, b);
          assert AllSupported(kind, m);
        }
      }
    }
  }

  // ---------- the places one step below, as the traversals list them ----------

  function BranchPlace(a: Place, i: nat): Place
    requires i < |BranchesOf(a.schema)|
  {
    Place(a.shape, BranchesOf(a.schema)[i], a.path)
  }

  function VariantPlace(a: Place, i: nat): Place
    requires i < |Variants(a.shape)|
  {
    Place(Variants(a.shape)[i], a.schema, a.path)
  }

  /** The place of a field, if the schema declares it. */
  function FieldPlace(a: Place, i: nat): Option<Place>
    requires i < |ShapeProperties(a.shape)|
  {
    var property := ShapeProperties(a.shape)[i];
    match PropertySchema(a.schema, property.name)
    case Some(declared) => Some(Place(property.shape, declared, Child(a.path, property.name)))
    case None => None
  }

  function ItemPlace(a: Place): Option<Place> {
    if a.shape.ArrayShape? && a.shape.items.Some? && Has(a.schema, "items") && AllowsType(a.schema, "array") then
      Some(Place(a.shape.items.value, Get(a.schema, "items").value, a.path + "/*"))
    else None
  }

  /** The place is one step below, and is listed. */
  ghost predicate Listed(a: Place, m: Place) {
    || (exists i :: 0 <= i < |BranchesOf(a.schema)| && m == BranchPlace(a, i))
    || (exists i :: 0 <= i < |Variants(a.shape)| && m == VariantPlace(a, i))
    || (AllowsType(a.schema, "object") && exists i :: 0 <= i < |ShapeProperties(a.shape)| && FieldPlace(a, i) == Some(m))
    || ItemPlace(a) == Some(m)
  }

  lemma BranchListed(a: Place, m: Place)
    requires SupportedAllOf(a.schema)
    ensures ToBranch(a, m) <==> exists i :: 0 <= i < |BranchesOf(a.schema)| && m == BranchPlace(a, i)
  {
    if ToBranch(a, m) {
      var i :| 0 <= i < |BranchesOf(a.schema)| && BranchesOf(a.schema)[i] == m.schema;
      assert m == BranchPlace(a, i);
    }
  }

  lemma VariantListed(a: Place, m: Place)
    ensures ToVariant(a, m) <==> exists i :: 0 <= i < |Variants(a.shape)| && m == VariantPlace(a, i)
  {
    if ToVariant(a, m) {
      var i :| 0 <= i < |Variants(a.shape)| && Variants(a.shape)[i] == m.shape;
      assert m == VariantPlace(a, i);
    }
  }

  lemma DeclaredIsProperty(schema: Json, name: string)
    ensures PropertySchema(schema, name) == Declared(schema, name)
  {
  }

  lemma FieldListed(a: Place, m: Place)
    ensures (exists i :: IsField(a, m, i)) <==> exists i :: 0 <= i < |ShapeProperties(a.shape)| && FieldPlace(a, i) == Some(m)
  {
    hide PropertySchema, Declared;
    forall i | 0 <= i < |ShapeProperties(a.shape)| ensures IsField(a, m, i) <==> FieldPlace(a, i) == Some(m) {
      DeclaredIsProperty(a.schema, ShapeProperties(a.shape)[i].name);
    }
    if i :| IsField(a, m, i) { assert FieldPlace(a, i) == Some(m); }
  }

  lemma LeadsIsListed(a: Place, m: Place)
    requires SupportedAllOf(a.schema)
    ensures Leads(a, m) <==> Listed(a, m)
  {
    BranchListed(a, m);
    VariantListed(a, m);
    FieldListed(a, m);
    hide ToBranch, ToVariant, IsField, BranchPlace, VariantPlace, FieldPlace;
  }

  // ---------- what all places one step below come to ----------

  ghost predicate BranchesSupported(kind: Kind, a: Place, n: nat)
    requires n <= |BranchesOf(a.schema)|
  {
    forall i :: 0 <= i < n ==> AllSupported(kind, BranchPlace(a, i))
  }

  ghost predicate BranchesFound(kind: Kind, a: Place, n: nat, p: string)
    requires n <= |BranchesOf(a.schema)|
  {
    exists i :: 0 <= i < n && Found(kind, BranchPlace(a, i), p)
  }

  ghost predicate VariantsSupported(kind: Kind, a: Place, n: nat)
    requires n <= |Variants(a.shape)|
  {
    forall i :: 0 <= i < n ==> AllSupported(kind, VariantPlace(a, i))
  }

  ghost predicate VariantsFound(kind: Kind, a: Place, n: nat, p: string)
    requires n <= |Variants(a.shape)|
  {
    exists i :: 0 <= i < n && Found(kind, VariantPlace(a, i), p)
  }

  ghost predicate FieldsSupported(kind: Kind, a: Place, n: nat)
    requires n <= |ShapeProperties(a.shape)|
  {
    forall i :: 0 <= i < n ==> (FieldPlace(a, i).Some? ==> AllSupported(kind, FieldPlace(a, i).value))
  }

  ghost predicate FieldsFound(kind: Kind, a: Place, n: nat, p: string)
    requires n <= |ShapeProperties(a.shape)|
  {
    exists i :: 0 <= i < n && FieldPlace(a, i).Some? && Found(kind, FieldPlace(a, i).value, p)
  }

  ghost predicate ItemSupported(kind: Kind, a: Place) {
    ItemPlace(a).Some? ==> AllSupported(kind, ItemPlace(a).value)
  }

  ghost predicate ItemFound(kind: Kind, a: Place, p: string) {
    ItemPlace(a).Some? && Found(kind, ItemPlace(a).value, p)
  }

  /** A place and all below it are supported: node by node, list by list. */
  lemma SupportedByLists(kind: Kind, a: Place)
    requires SupportedAllOf(a.schema)
    ensures AllSupported(kind, a) <==>
      && Supports(kind, a)
      && BranchesSupported(kind, a, |BranchesOf(a.schema)|) && VariantsSupported(kind, a, |Variants(a.shape)|)
      && (AllowsType(a.schema, "object") ==> FieldsSupported(kind, a, |ShapeProperties(a.shape)|))
      && ItemSupported(kind, a)
  {
    SupportedStep(kind, a);
    hide AllSupported, Supports, Leads, BranchPlace, VariantPlace, FieldPlace, ItemPlace, BranchesOf, Variants, ShapeProperties, AllowsType;
    forall m ensures Leads(a, m) <==> Listed(a, m) { LeadsIsListed(a, m); }
    if forall m :: Leads(a, m) ==> AllSupported(kind, m) {
      forall i | 0 <= i < |BranchesOf(a.schema)| ensures AllSupported(kind, BranchPlace(a, i)) { assert Listed(a, BranchPlace(a, i)); }
      forall i | 0 <= i < |Variants(a.shape)| ensures AllSupported(kind, VariantPlace(a, i)) { assert Listed(a, VariantPlace(a, i)); }
      forall i | 0 <= i < |ShapeProperties(a.shape)| && FieldPlace(a, i).Some? && AllowsType(a.schema, "object")
        ensures AllSupported(kind, FieldPlace(a, i).value)
      {
        assert Listed(a, FieldPlace(a, i).value);
      }
      if ItemPlace(a).Some? { assert Listed(a, ItemPlace(a).value); }
    }
  }

  /** A path is found at a place or below it: node by node, list by list. */
  lemma FoundByLists(kind: Kind, a: Place, p: string)
    requires SupportedAllOf(a.schema)
    ensures Found(kind, a, p) <==>
      || Reports(kind, a, p)
      || BranchesFound(kind, a, |BranchesOf(a.schema)|, p) || VariantsFound(kind, a, |Variants(a.shape)|, p)
      || (AllowsType(a.schema, "object") && FieldsFound(kind, a, |ShapeProperties(a.shape)|, p))
      || ItemFound(kind, a, p)
  {
    FoundStep(kind, a, p);
    hide Found, Reports, Leads, BranchPlace, VariantPlace, FieldPlace, ItemPlace, BranchesOf, Variants, ShapeProperties, AllowsType;
    forall m ensures Leads(a, m) <==> Listed(a, m) { LeadsIsListed(a, m); }
    if BranchesFound(kind, a, |BranchesOf(a.schema)|, p) {
      var i :| 0 <= i < |BranchesOf(a.schema)| && Found(kind, BranchPlace(a, i), p);
      assert Listed(a, BranchPlace(a, i));
    }
    if VariantsFound(kind, a, |Variants(a.shape)|, p) {
      var i :| 0 <= i < |Variants(a.shape)| && Found(kind, VariantPlace(a, i), p);
      assert Listed(a, VariantPlace(a, i));
    }
    if AllowsType(a.schema, "object") && FieldsFound(kind, a, |ShapeProperties(a.shape)|, p) {
      var i :| 0 <= i < |ShapeProperties(a.shape)| && FieldPlace(a, i).Some? && Found(kind, FieldPlace(a, i).value, p);
      assert Listed(a, FieldPlace(a, i).value);
    }
    if ItemFound(kind, a, p) { assert Listed(a, ItemPlace(a).value); }
  }

  // ---------- the traversals ----------

  /** A walk is supported exactly with all its places, and then has exactly the paths found there. */
  ghost predicate Matches(w: Walk, supported: bool, found: bool, p: string) {
    (w.supported <==> supported) && (supported ==> (p in w.paths <==> found))
  }

  lemma MatchesThen(a: Walk, b: Walk, s: bool, t: bool, f: bool, g: bool, p: string)
    requires Matches(a, s, f, p) && Matches(b, t, g, p)
    ensures Matches(Then(a, b), s && t, f || g, p)
  {
  }

  lemma {:induction false} TypeBranchesFind(a: Place, n: nat, p: string)
    requires n <= |BranchesOf(a.schema)|
    ensures Matches(TypeBranches(a.shape, a.schema, a.path, n), BranchesSupported(Types, a, n), BranchesFound(Types, a, n, p), p)
    decreases a.shape, a.schema, 0, n
  {
    hide TypeWalk, AllSupported, Found, BranchesOf;
    if n > 0 {
      TypeBranchesFind(a, n - 1, p);
      TypeFinds(BranchPlace(a, n - 1), p);
    }
  }

  lemma {:induction false} TypeVariantsFind(a: Place, n: nat, p: string)
    requires n <= |Variants(a.shape)|
    ensures Matches(TypeVariants(a.shape, a.schema, a.path, n), VariantsSupported(Types, a, n), VariantsFound(Types, a, n, p), p)
    decreases a.shape, a.schema, 0, n
  {
    hide TypeWalk, AllSupported, Found, Variants;
    if n > 0 {
      TypeVariantsFind(a, n - 1, p);
      TypeFinds(VariantPlace(a, n - 1), p);
    }
  }

  lemma {:induction false} PresenceBranchesFind(a: Place, n: nat, p: string)
    requires n <= |BranchesOf(a.schema)|
    ensures Matches(PresenceBranches(a.shape, a.schema, a.path, n), BranchesSupported(Presence, a, n), BranchesFound(Presence, a, n, p), p)
    decreases a.shape, a.schema, 0, n
  {
    hide PresenceWalk, AllSupported, Found, BranchesOf;
    if n > 0 {
      PresenceBranchesFind(a, n - 1, p);
      PresenceFinds(BranchPlace(a, n - 1), p);
    }
  }

  lemma {:induction false} PresenceVariantsFind(a: Place, n: nat, p: string)
    requires n <= |Variants(a.shape)|
    ensures Matches(PresenceVariants(a.shape, a.schema, a.path, n), VariantsSupported(Presence, a, n), VariantsFound(Presence, a, n, p), p)
    decreases a.shape, a.schema, 0, n
  {
    hide PresenceWalk, AllSupported, Found, Variants;
    if n > 0 {
      PresenceVariantsFind(a, n - 1, p);
      PresenceFinds(VariantPlace(a, n - 1), p);
    }
  }

  lemma {:induction false} ClosureBranchesFind(a: Place, n: nat, p: string)
    requires n <= |BranchesOf(a.schema)|
    ensures Matches(ClosureBranches(a.shape, a.schema, a.path, n), BranchesSupported(Closure, a, n), BranchesFound(Closure, a, n, p), p)
    decreases a.shape, a.schema, 0, n
  {
    hide ClosureWalk, AllSupported, Found, BranchesOf;
    if n > 0 {
      ClosureBranchesFind(a, n - 1, p);
      ClosureFinds(BranchPlace(a, n - 1), p);
    }
  }

  lemma {:induction false} ClosureVariantsFind(a: Place, n: nat, p: string)
    requires n <= |Variants(a.shape)|
    ensures Matches(ClosureVariants(a.shape, a.schema, a.path, n), VariantsSupported(Closure, a, n), VariantsFound(Closure, a, n, p), p)
    decreases a.shape, a.schema, 0, n
  {
    hide ClosureWalk, AllSupported, Found, Variants;
    if n > 0 {
      ClosureVariantsFind(a, n - 1, p);
      ClosureFinds(VariantPlace(a, n - 1), p);
    }
  }

  lemma {:induction false} TypePropertiesFind(a: Place, n: nat, p: string)
    requires n <= |ShapeProperties(a.shape)|
    ensures Matches(TypeProperties(a.shape, a.schema, a.path, n), FieldsSupported(Types, a, n), FieldsFound(Types, a, n, p), p)
    decreases a.shape, a.schema, 0, n
  {
    hide TypeWalk, AllSupported, Found, ShapeProperties, PropertySchema, Child;
    if n > 0 {
      TypePropertiesFind(a, n - 1, p);
      if FieldPlace(a, n - 1).Some? { TypeFinds(FieldPlace(a, n - 1).value, p); }
    }
  }

  ghost predicate RestSupported(kind: Kind, a: Place) {
    && Supports(kind, a) && VariantsSupported(kind, a, |Variants(a.shape)|)
    && (AllowsType(a.schema, "object") ==> FieldsSupported(kind, a, |ShapeProperties(a.shape)|))
    && ItemSupported(kind, a)
  }

  ghost predicate RestFound(kind: Kind, a: Place, p: string) {
    || Reports(kind, a, p) || VariantsFound(kind, a, |Variants(a.shape)|, p)
    || (AllowsType(a.schema, "object") && FieldsFound(kind, a, |ShapeProperties(a.shape)|, p))
    || ItemFound(kind, a, p)
  }

  /** A place's shape decides which lists can be other than empty. */
  lemma EmptyLists(kind: Kind, a: Place, p: string)
    ensures !a.shape.AnyOfShape? ==> VariantsSupported(kind, a, |Variants(a.shape)|) && !VariantsFound(kind, a, |Variants(a.shape)|, p)
    ensures !a.shape.ObjectShape? ==>
      FieldsSupported(kind, a, |ShapeProperties(a.shape)|) && !FieldsFound(kind, a, |ShapeProperties(a.shape)|, p)
    ensures !a.shape.ArrayShape? ==> ItemSupported(kind, a) && !ItemFound(kind, a, p)
  {
  }

  lemma MatchesDeeper(w: Walk, s: bool, f: bool, p: string)
    requires Matches(w, s, f, p)
    ensures Matches(Deeper(w), s, f, p)
  {
  }

  lemma TypeNode(a: Place, p: string)
    requires PlainNode(a.schema) && SupportedAllOf(a.schema)
    ensures a.shape.AnyOfShape? ==> Supports(Types, a) && !Reports(Types, a, p)
    ensures !a.shape.AnyOfShape? && !SupportedType(a.schema) ==> !Supports(Types, a)
    ensures !a.shape.AnyOfShape? && SupportedType(a.schema) && TypeDiffers(a.shape, a.schema) ==>
      && Supports(Types, a) && (Reports(Types, a, p) <==> p == if a.path == "" then "/" else a.path)
      && (a.shape.ObjectShape? ==> !AllowsType(a.schema, "object")) && ItemPlace(a).None?
    ensures !a.shape.AnyOfShape? && SupportedType(a.schema) && !TypeDiffers(a.shape, a.schema) ==>
      && !Reports(Types, a, p)
      && (a.shape.ObjectShape? ==> AllowsType(a.schema, "object") && (Supports(Types, a) <==> PropertiesAreObject(a.schema)))
      && (a.shape.ArrayShape? ==> AllowsType(a.schema, "array"))
      && (!a.shape.ObjectShape? ==> Supports(Types, a))
  {
    hide Child;
  }

  lemma {:induction false} TypeRestFinds(a: Place, p: string)
    requires PlainNode(a.schema) && SupportedAllOf(a.schema)
    ensures Matches(TypeRest(a.shape, a.schema, a.path), RestSupported(Types, a), RestFound(Types, a, p), p)
    decreases a.shape, a.schema, 1, 0
  {
    TypeNode(a, p);
    EmptyLists(Types, a, p);
    hide AllSupported, Found, Supports, Reports, FieldsSupported, FieldsFound, VariantsSupported, VariantsFound, TypeWalk;
    hide SupportedType, TypeDiffers, AllowsType, PropertiesAreObject, TypeProperties, TypeVariants, PlainNode, SupportedAllOf;
    if a.shape.AnyOfShape? {
      TypeVariantsFind(a, |Variants(a.shape)|, p);
    } else if SupportedType(a.schema) && !TypeDiffers(a.shape, a.schema) {
      if a.shape.ObjectShape? {
        TypePropertiesFind(a, |ShapeProperties(a.shape)|, p);
      } else if ItemPlace(a).Some? {
        TypeFinds(ItemPlace(a).value, p);
      }
    }
  }

  lemma {:induction false} TypeFinds(a: Place, p: string)
    ensures Matches(TypeWalk(a.shape, a.schema, a.path), AllSupported(Types, a), Found(Types, a, p), p)
    decreases a.shape, a.schema, 2, 0
  {
    SupportedStep(Types, a);
    PlainSupported(Types, a);
    if PlainNode(a.schema) && SupportedAllOf(a.schema) {
      var n := |BranchesOf(a.schema)|;
      TypeBranchesFind(a, n, p);
      TypeRestFinds(a, p);
      SupportedByLists(Types, a);
      FoundByLists(Types, a, p);
      hide AllSupported, Found, Supports, Reports, Leads, TypeBranches, TypeRest, BranchesSupported, BranchesFound;
    }
  }

  lemma PlainSupported(kind: Kind, a: Place)
    ensures Supports(kind, a) ==> PlainNode(a.schema) && SupportedAllOf(a.schema)
  {
  }

  lemma {:induction false} PresencePropertiesFind(a: Place, n: nat, p: string)
    requires n <= |ShapeProperties(a.shape)|
    ensures Matches(PresenceProperties(a.shape, a.schema, a.path, n), FieldsSupported(Presence, a, n), FieldsFound(Presence, a, n, p), p)
    decreases a.shape, a.schema, 0, n
  {
    hide PresenceWalk, AllSupported, Found, ShapeProperties, PropertySchema, Child;
    if n > 0 {
      PresencePropertiesFind(a, n - 1, p);
      if FieldPlace(a, n - 1).Some? { PresenceFinds(FieldPlace(a, n - 1).value, p); }
    }
  }

  ghost predicate MissingAmong(a: Place, n: nat, p: string)
    requires n <= |RequiredNames(a.schema)|
  {
    exists i :: 0 <= i < n && RequiredNames(a.schema)[i].Str?
      && !Lists(ShapeProperties(a.shape), RequiredNames(a.schema)[i].text) && p == Child(a.path, RequiredNames(a.schema)[i].text)
  }

  lemma {:induction false} PresenceRequiredFind(a: Place, n: nat, p: string)
    requires n <= |RequiredNames(a.schema)|
    ensures Matches(PresenceRequired(a.shape, a.schema, a.path, n), true, MissingAmong(a, n, p), p)
  {
    hide RequiredNames, ShapeProperties, Lists, Child;
    if n > 0 { PresenceRequiredFind(a, n - 1, p); }
  }

  lemma ListsIsField(shape: Shape, name: string)
    requires shape.ObjectShape?
    ensures Lists(ShapeProperties(shape), name) <==> HasField(shape, name)
  {
    if HasField(shape, name) {
      var i :| 0 <= i < |shape.properties| && shape.properties[i].name == name;
      assert IndexOfProperty(shape.properties, name) <= i;
    }
  }

  lemma MissingIsReported(a: Place, p: string)
    requires a.shape.ObjectShape? && AllowsType(a.schema, "object")
    ensures MissingAmong(a, |RequiredNames(a.schema)|, p) <==> Reports(Presence, a, p)
  {
    var names := RequiredNames(a.schema);
    hide Lists, ShapeProperties;
    if MissingAmong(a, |names|, p) {
      var i :| 0 <= i < |names| && names[i].Str? && !Lists(ShapeProperties(a.shape), names[i].text) && p == Child(a.path, names[i].text);
      ListsIsField(a.shape, names[i].text);
      assert Requires(a.schema, names[i].text);
    }
    if Reports(Presence, a, p) {
      var name :| Requires(a.schema, name) && !HasField(a.shape, name) && p == FieldPath(a, name);
      ListsIsField(a.shape, name);
      var i :| 0 <= i < |names| && names[i] == Str(name);
    }
  }

  lemma PresenceNode(a: Place, p: string)
    requires PlainNode(a.schema) && SupportedType(a.schema) && SupportedRequired(a.schema) && SupportedAllOf(a.schema)
    ensures a.shape.ObjectShape? && AllowsType(a.schema, "object") ==>
      (Supports(Presence, a) <==> PropertiesAreObject(a.schema))
    ensures !(a.shape.ObjectShape? && AllowsType(a.schema, "object")) ==> Supports(Presence, a) && !Reports(Presence, a, p)
  {
  }

  lemma PresenceEntry(a: Place)
    ensures Supports(Presence, a) ==>
      PlainNode(a.schema) && SupportedType(a.schema) && SupportedRequired(a.schema) && SupportedAllOf(a.schema)
  {
  }

  /** Without declared properties no field is followed. */
  lemma NothingDeclared(kind: Kind, a: Place, p: string)
    requires !Has(a.schema, "properties")
    ensures FieldsSupported(kind, a, |ShapeProperties(a.shape)|) && !FieldsFound(kind, a, |ShapeProperties(a.shape)|, p)
  {
  }

  lemma {:induction false} PresenceRestFinds(a: Place, p: string)
    requires PlainNode(a.schema) && SupportedType(a.schema) && SupportedRequired(a.schema) && SupportedAllOf(a.schema)
    ensures Matches(PresenceRest(a.shape, a.schema, a.path), RestSupported(Presence, a), RestFound(Presence, a, p), p)
    decreases a.shape, a.schema, 1, 0
  {
    PresenceNode(a, p);
    EmptyLists(Presence, a, p);
    hide AllSupported, Found, Supports, Reports, FieldsSupported, FieldsFound, VariantsSupported, VariantsFound, PresenceWalk;
    hide SupportedType, SupportedRequired, AllowsType, PropertiesAreObject, PresenceProperties, PresenceVariants, PlainNode,
      SupportedAllOf, PresenceRequired, RequiredNames, MissingAmong;
    if a.shape.AnyOfShape? {
      PresenceVariantsFind(a, |Variants(a.shape)|, p);
    } else if a.shape.ObjectShape? && AllowsType(a.schema, "object") {
      PresenceRequiredFind(a, |RequiredNames(a.schema)|, p);
      MissingIsReported(a, p);
      if !Has(a.schema, "properties") {
        NothingDeclared(Presence, a, p);
      } else {
        PresencePropertiesFind(a, |ShapeProperties(a.shape)|, p);
      }
    } else if ItemPlace(a).Some? {
      PresenceFinds(ItemPlace(a).value, p);
    }
  }

  lemma {:induction false} PresenceFinds(a: Place, p: string)
    ensures Matches(PresenceWalk(a.shape, a.schema, a.path), AllSupported(Presence, a), Found(Presence, a, p), p)
    decreases a.shape, a.schema, 2, 0
  {
    SupportedStep(Presence, a);
    PresenceEntry(a);
    if PlainNode(a.schema) && SupportedType(a.schema) && SupportedRequired(a.schema) && SupportedAllOf(a.schema) {
      var n := |BranchesOf(a.schema)|;
      PresenceBranchesFind(a, n, p);
      PresenceRestFinds(a, p);
      SupportedByLists(Presence, a);
      FoundByLists(Presence, a, p);
      hide AllSupported, Found, Supports, Reports, Leads, PresenceBranches, PresenceRest, BranchesSupported, BranchesFound;
    }
  }

  /** A forbidden field among the first so many, if the object is closed. */
  ghost predicate ForbiddenAmong(a: Place, n: nat, p: string)
    requires n <= |ShapeProperties(a.shape)|
  {
    Get(a.schema, "additionalProperties") == Some(Bool(false)) &&
    exists i :: 0 <= i < n && FieldPlace(a, i).None? && p == Child(a.path, ShapeProperties(a.shape)[i].name)
  }

  lemma {:induction false} ClosurePropertiesFind(a: Place, n: nat, p: string)
    requires n <= |ShapeProperties(a.shape)|
    ensures Matches(ClosureProperties(a.shape, a.schema, a.path, n), FieldsSupported(Closure, a, n), FieldsFound(Closure, a, n, p) || ForbiddenAmong(a, n, p), p)
    decreases a.shape, a.schema, 0, n
  {
    hide ClosureWalk, AllSupported, Found, ShapeProperties, PropertySchema, Child;
    if n > 0 {
      ClosurePropertiesFind(a, n - 1, p);
      if FieldPlace(a, n - 1).Some? { ClosureFinds(FieldPlace(a, n - 1).value, p); }
    }
  }

  lemma ForbiddenIsReported(a: Place, p: string)
    requires a.shape.ObjectShape? && AllowsType(a.schema, "object")
    ensures ForbiddenAmong(a, |ShapeProperties(a.shape)|, p) <==> Reports(Closure, a, p)
  {
    hide PropertySchema, Declared;
    var properties := a.shape.properties;
    forall i | 0 <= i < |properties| ensures FieldPlace(a, i).None? <==> Declared(a.schema, properties[i].name) == None {
      DeclaredIsProperty(a.schema, properties[i].name);
    }
    if ForbiddenAmong(a, |properties|, p) {
      var i :| 0 <= i < |properties| && FieldPlace(a, i).None? && p == Child(a.path, properties[i].name);
      assert HasField(a.shape, properties[i].name);
    }
    if Reports(Closure, a, p) {
      var name :| HasField(a.shape, name) && Declared(a.schema, name) == None && p == FieldPath(a, name);
      var i :| 0 <= i < |properties| && properties[i].name == name;
      assert FieldPlace(a, i).None?;
    }
  }

  predicate ClosureSupported(schema: Json) {
    && PlainNode(schema) && !Has(schema, "patternProperties") && SupportedType(schema) && SupportedClosure(schema)
    && PropertiesAreObject(schema) && SupportedAllOf(schema)
  }

  lemma ClosureNode(a: Place, p: string)
    ensures Supports(Closure, a) <==> ClosureSupported(a.schema)
    ensures !(a.shape.ObjectShape? && AllowsType(a.schema, "object")) ==> !Reports(Closure, a, p)
  {
  }

  lemma {:induction false} ClosureRestFinds(a: Place, p: string)
    requires ClosureSupported(a.schema)
    ensures Matches(ClosureRest(a.shape, a.schema, a.path), RestSupported(Closure, a), RestFound(Closure, a, p), p)
    decreases a.shape, a.schema, 1, 0
  {
    ClosureNode(a, p);
    EmptyLists(Closure, a, p);
    hide AllSupported, Found, Supports, Reports, FieldsSupported, FieldsFound, VariantsSupported, VariantsFound, ClosureWalk;
    hide AllowsType, ClosureProperties, ClosureVariants, ClosureSupported, ForbiddenAmong;
    if a.shape.AnyOfShape? {
      ClosureVariantsFind(a, |Variants(a.shape)|, p);
    } else if a.shape.ObjectShape? && AllowsType(a.schema, "object") {
      ClosurePropertiesFind(a, |ShapeProperties(a.shape)|, p);
      ForbiddenIsReported(a, p);
    } else if ItemPlace(a).Some? {
      ClosureFinds(ItemPlace(a).value, p);
    }
  }

  lemma {:induction false} ClosureFinds(a: Place, p: string)
    ensures Matches(ClosureWalk(a.shape, a.schema, a.path), AllSupported(Closure, a), Found(Closure, a, p), p)
    decreases a.shape, a.schema, 2, 0
  {
    SupportedStep(Closure, a);
    ClosureNode(a, p);
    if ClosureSupported(a.schema) {
      var n := |BranchesOf(a.schema)|;
      ClosureBranchesFind(a, n, p);
      ClosureRestFinds(a, p);
      SupportedByLists(Closure, a);
      FoundByLists(Closure, a, p);
      hide AllSupported, Found, Supports, Reports, Leads, ClosureBranches, ClosureRest, BranchesSupported, BranchesFound;
    }
  }

  // ---------- the reported paths ----------

  function WalkOf(kind: Kind, shape: Shape, schema: Json): Walk {
    match kind
    case Types => TypeWalk(shape, schema, "")
    case Presence => PresenceWalk(shape, schema, "")
    case Closure => ClosureWalk(shape, schema, "")
  }

  /**
   * A comparison meets only supported constructs exactly when it supports every place a route leads to, and then its
   * paths are exactly those it reports at such places.
   */
  lemma PathsExactly(kind: Kind, shape: Shape, schema: Json)
    ensures WalkOf(kind, shape, schema).supported <==> AllSupported(kind, Place(shape, schema, ""))
    ensures WalkOf(kind, shape, schema).supported ==>
      forall p :: p in WalkOf(kind, shape, schema).paths <==> Found(kind, Place(shape, schema, ""), p)
  {
    hide TypeWalk, PresenceWalk, ClosureWalk, AllSupported, Found;
    var a := Place(shape, schema, "");
    forall p ensures Matches(WalkOf(kind, shape, schema), AllSupported(kind, a), Found(kind, a, p), p) {
      match kind
      case Types => TypeFinds(a, p);
      case Presence => PresenceFinds(a, p);
      case Closure => ClosureFinds(a, p);
    }
    assert Matches(WalkOf(kind, shape, schema), AllSupported(kind, a), Found(kind, a, ""), "");
    forall p ensures WalkOf(kind, shape, schema).supported ==> (p in WalkOf(kind, shape, schema).paths <==> Found(kind, a, p)) {
      assert Matches(WalkOf(kind, shape, schema), AllSupported(kind, a), Found(kind, a, p), p);
    }
  }
}
