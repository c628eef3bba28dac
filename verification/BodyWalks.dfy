/** The three comparisons of a literal's shape with an expanded schema, without budgets. */
module BodyWalks {
  import opened JsonValues
  import opened Shapes
  import JsonPointer
  import SchemaExpansion
  import SchemaValidity

  /**
   * What a traversal meets: only supported constructs, its number of steps, the levels below its start, the paths it
   * reports, and those of them it reports before its last step.
   */
  datatype RawWalk = Walk(supported: bool, steps: nat, height: nat, paths: set<string>, early: set<string>)
  type Walk = w: RawWalk | w.early <= w.paths witness Walk(true, 0, 0, {}, {})

  const NOTHING: Walk := Walk(true, 0, 0, {}, {})
  const STEP: Walk := Walk(true, 1, 0, {}, {})
  const REFUSED: Walk := Walk(false, 0, 0, {}, {})

  function Report(path: string): Walk {
    Walk(true, 0, 0, {path}, {})
  }

  /** One walk after another. */
  function Then(a: Walk, b: Walk): Walk {
    Walk(a.supported && b.supported,
         a.steps + b.steps,
         if a.height > b.height then a.height else b.height,
         a.paths + b.paths,
         if b.steps > 0 then a.paths + b.early else a.early)
  }

  function Deeper(a: Walk): Walk {
    a.(height := a.height + 1)
  }

  // ---------- schema nodes ----------

  /** An object without references and without the compositions outside the policy. */
  predicate PlainNode(schema: Json) {
    && schema.Obj?
    && !Has(schema, "$ref") && !Has(schema, "anyOf") && !Has(schema, "oneOf") && !Has(schema, "not")
  }

  predicate SupportedType(schema: Json) {
    match Get(schema, "type")
    case None => true
    case Some(Str(name)) => name in SchemaValidity.TYPES
    case Some(_) => false
  }

  /** Absent, or at most 10000 distinct non-empty names. */
  predicate SupportedRequired(schema: Json) {
    match Get(schema, "required")
    case None => true
    case Some(Arr(names)) =>
      && |names| <= 10000
      && (forall i :: 0 <= i < |names| ==> names[i].Str? && names[i].text != "")
      && (forall i, j :: 0 <= i < j < |names| ==> names[i] != names[j])
    case Some(_) => false
  }

  function RequiredNames(schema: Json): seq<Json> {
    match Get(schema, "required")
    case Some(Arr(names)) => names
    case _ => []
  }

  /** The declared type is absent or the given one. */
  predicate AllowsType(schema: Json, name: string) {
    var declared := Get(schema, "type");
    declared == None || declared == Some(Str(name))
  }

  predicate TypeDiffers(shape: Shape, schema: Json) {
    match Get(schema, "type")
    case Some(Str(name)) => name != TypeName(shape) && !(name == "number" && TypeName(shape) == "integer")
    case _ => false
  }

  predicate PropertiesAreObject(schema: Json) {
    var properties := Get(schema, "properties");
    properties.Some? ==> properties.value.Obj?
  }

  function PropertySchema(schema: Json, name: string): (r: Option<Json>)
    ensures r.Some? ==> r.value < schema
  {
    Get(SchemaValidity.PropertySchemas(schema), name)
  }

  function Child(path: string, name: string): string {
    path + "/" + JsonPointer.Escape(name)
  }

  function BranchesOf(schema: Json): (r: seq<Json>)
    ensures forall i :: 0 <= i < |r| ==> r[i] < schema
  {
    var branches := SchemaExpansion.Branches(schema);
    if branches.Some? then branches.value else []
  }

  predicate SupportedAllOf(schema: Json) {
    SchemaExpansion.Branches(schema).Some?
  }

  function ShapeProperties(shape: Shape): (r: seq<Property>)
    ensures forall i :: 0 <= i < |r| ==> r[i].shape < shape
  {
    if shape.ObjectShape? then shape.properties else []
  }

  function Variants(shape: Shape): (r: seq<Shape>)
    ensures forall i :: 0 <= i < |r| ==> r[i] < shape
  {
    if shape.AnyOfShape? then shape.variants else []
  }

  // ---------- types ----------

  /** Paths whose literal type is not the declared one. */
  function TypeWalk(shape: Shape, schema: Json, path: string): Walk
    decreases shape, schema, 2, 0
  {
    if !PlainNode(schema) || !SupportedAllOf(schema) then Then(STEP, REFUSED)
    else Then(Then(STEP, TypeBranches(shape, schema, path, |BranchesOf(schema)|)), TypeRest(shape, schema, path))
  }

  /** The node's own keywords, after its branches. */
  function TypeRest(shape: Shape, schema: Json, path: string): Walk
    decreases shape, schema, 1, 0
  {
    if shape.AnyOfShape? then TypeVariants(shape, schema, path, |Variants(shape)|)
    else if !SupportedType(schema) then REFUSED
    else if TypeDiffers(shape, schema) then Report(if path == "" then "/" else path)
    else if shape.ObjectShape? then
      if !PropertiesAreObject(schema) then REFUSED
      else TypeProperties(shape, schema, path, |ShapeProperties(shape)|)
    else if shape.ArrayShape? && shape.items.Some? && Has(schema, "items") then
      Deeper(TypeWalk(shape.items.value, Get(schema, "items").value, path + "/*"))
    else NOTHING
  }

  function TypeBranches(shape: Shape, schema: Json, path: string, n: nat): Walk
    requires n <= |BranchesOf(schema)|
    decreases shape, schema, 0, n
  {
    if n == 0 then NOTHING
    else Then(TypeBranches(shape, schema, path, n - 1), Deeper(TypeWalk(shape, BranchesOf(schema)[n - 1], path)))
  }

  function TypeVariants(shape: Shape, schema: Json, path: string, n: nat): Walk
    requires n <= |Variants(shape)|
    decreases shape, schema, 0, n
  {
    if n == 0 then NOTHING
    else Then(TypeVariants(shape, schema, path, n - 1), Deeper(TypeWalk(Variants(shape)[n - 1], schema, path)))
  }

  function TypeProperties(shape: Shape, schema: Json, path: string, n: nat): Walk
    requires n <= |ShapeProperties(shape)|
    decreases shape, schema, 0, n
  {
    if n == 0 then NOTHING
    else Then(TypeProperties(shape, schema, path, n - 1), TypeProperty(shape, schema, path, n - 1))
  }

  function TypeProperty(shape: Shape, schema: Json, path: string, i: nat): Walk
    requires i < |ShapeProperties(shape)|
    decreases shape, schema, 0, i
  {
    var property := ShapeProperties(shape)[i];
    match PropertySchema(schema, property.name)
    case None => NOTHING
    case Some(declared) => Deeper(TypeWalk(property.shape, declared, Child(path, property.name)))
  }

  // ---------- presence ----------

  /** Paths of required fields the literal does not have. */
  function PresenceWalk(shape: Shape, schema: Json, path: string): Walk
    decreases shape, schema, 2, 0
  {
    if !PlainNode(schema) || !SupportedType(schema) || !SupportedRequired(schema) || !SupportedAllOf(schema)
    then Then(STEP, REFUSED)
    else Then(Then(STEP, PresenceBranches(shape, schema, path, |BranchesOf(schema)|)), PresenceRest(shape, schema, path))
  }

  function PresenceRest(shape: Shape, schema: Json, path: string): Walk
    decreases shape, schema, 1, 0
  {
    if shape.AnyOfShape? then PresenceVariants(shape, schema, path, |Variants(shape)|)
    else if shape.ObjectShape? && AllowsType(schema, "object") then
      Then(PresenceRequired(shape, schema, path, |RequiredNames(schema)|),
           if !PropertiesAreObject(schema) then REFUSED
           else if !Has(schema, "properties") then NOTHING
           else PresenceProperties(shape, schema, path, |ShapeProperties(shape)|))
    else if shape.ArrayShape? && AllowsType(schema, "array") && shape.items.Some? && Has(schema, "items") then
      Deeper(PresenceWalk(shape.items.value, Get(schema, "items").value, path + "/*"))
    else NOTHING
  }

  function PresenceBranches(shape: Shape, schema: Json, path: string, n: nat): Walk
    requires n <= |BranchesOf(schema)|
    decreases shape, schema, 0, n
  {
    if n == 0 then NOTHING
    else Then(PresenceBranches(shape, schema, path, n - 1), Deeper(PresenceWalk(shape, BranchesOf(schema)[n - 1], path)))
  }

  function PresenceVariants(shape: Shape, schema: Json, path: string, n: nat): Walk
    requires n <= |Variants(shape)|
    decreases shape, schema, 0, n
  {
    if n == 0 then NOTHING
    else Then(PresenceVariants(shape, schema, path, n - 1), Deeper(PresenceWalk(Variants(shape)[n - 1], schema, path)))
  }

  function PresenceRequired(shape: Shape, schema: Json, path: string, n: nat): Walk
    requires n <= |RequiredNames(schema)|
  {
    if n == 0 then NOTHING
    else Then(PresenceRequired(shape, schema, path, n - 1), RequiredName(shape, RequiredNames(schema)[n - 1], path))
  }

  function RequiredName(shape: Shape, name: Json, path: string): Walk {
    if name.Str? && !Lists(ShapeProperties(shape), name.text) then Then(STEP, Report(Child(path, name.text))) else STEP
  }

  function PresenceProperties(shape: Shape, schema: Json, path: string, n: nat): Walk
    requires n <= |ShapeProperties(shape)|
    decreases shape, schema, 0, n
  {
    if n == 0 then NOTHING
    else Then(PresenceProperties(shape, schema, path, n - 1), PresenceProperty(shape, schema, path, n - 1))
  }

  function PresenceProperty(shape: Shape, schema: Json, path: string, i: nat): Walk
    requires i < |ShapeProperties(shape)|
    decreases shape, schema, 0, i
  {
    var property := ShapeProperties(shape)[i];
    match PropertySchema(schema, property.name)
    case None => STEP
    case Some(declared) => Then(STEP, Deeper(PresenceWalk(property.shape, declared, Child(path, property.name))))
  }

  // ---------- closure ----------

  predicate SupportedClosure(schema: Json) {
    var additional := Get(schema, "additionalProperties");
    additional.Some? ==> additional.value.Bool?
  }

  /** Paths of literal fields an explicitly closed object forbids. */
  function ClosureWalk(shape: Shape, schema: Json, path: string): Walk
    decreases shape, schema, 2, 0
  {
    if !PlainNode(schema) || Has(schema, "patternProperties") || !SupportedType(schema) || !SupportedClosure(schema)
       || !PropertiesAreObject(schema) || !SupportedAllOf(schema)
    then Then(STEP, REFUSED)
    else Then(Then(STEP, ClosureBranches(shape, schema, path, |BranchesOf(schema)|)), ClosureRest(shape, schema, path))
  }

  function ClosureRest(shape: Shape, schema: Json, path: string): Walk
    decreases shape, schema, 1, 0
  {
    if shape.AnyOfShape? then ClosureVariants(shape, schema, path, |Variants(shape)|)
    else if shape.ObjectShape? && AllowsType(schema, "object") then
      ClosureProperties(shape, schema, path, |ShapeProperties(shape)|)
    else if shape.ArrayShape? && AllowsType(schema, "array") && shape.items.Some? && Has(schema, "items") then
      Deeper(ClosureWalk(shape.items.value, Get(schema, "items").value, path + "/*"))
    else NOTHING
  }

  function ClosureBranches(shape: Shape, schema: Json, path: string, n: nat): Walk
    requires n <= |BranchesOf(schema)|
    decreases shape, schema, 0, n
  {
    if n == 0 then NOTHING
    else Then(ClosureBranches(shape, schema, path, n - 1), Deeper(ClosureWalk(shape, BranchesOf(schema)[n - 1], path)))
  }

  function ClosureVariants(shape: Shape, schema: Json, path: string, n: nat): Walk
    requires n <= |Variants(shape)|
    decreases shape, schema, 0, n
  {
    if n == 0 then NOTHING
    else Then(ClosureVariants(shape, schema, path, n - 1), Deeper(ClosureWalk(Variants(shape)[n - 1], schema, path)))
  }

  function ClosureProperties(shape: Shape, schema: Json, path: string, n: nat): Walk
    requires n <= |ShapeProperties(shape)|
    decreases shape, schema, 0, n
  {
    if n == 0 then NOTHING
    else Then(ClosureProperties(shape, schema, path, n - 1), ClosureProperty(shape, schema, path, n - 1))
  }

  function ClosureProperty(shape: Shape, schema: Json, path: string, i: nat): Walk
    requires i < |ShapeProperties(shape)|
    decreases shape, schema, 0, i
  {
    var property := ShapeProperties(shape)[i];
    match PropertySchema(schema, property.name)
    case Some(declared) => Then(STEP, Deeper(ClosureWalk(property.shape, declared, Child(path, property.name))))
    case None =>
      if Get(schema, "additionalProperties") == Some(Bool(false)) then Then(STEP, Report(Child(path, property.name)))
      else STEP
  }
}
