/** How long the list of type discrepancies can get: the result limit is only looked at on entering a visit. */
module BodyTypeLimit {
  import opened JsonValues
  import opened Shapes
  import opened BodyWalks
  import BodyComparison
  import JsonPointer
  import SchemaExpansion
  import SchemaValidity
  import Strings

  // ---------- the last visit ----------

  datatype Visit = Visit(shape: Shape, schema: Json, path: string)

  /** The last of the first so many properties that the schema declares too. */
  function LastDeclared(shape: Shape, schema: Json, path: string, n: nat): (r: Option<Visit>)
    requires n <= |ShapeProperties(shape)|
    ensures r.Some? ==> r.value.shape < shape && r.value.schema < schema
  {
    if n == 0 then None
    else
      var property := ShapeProperties(shape)[n - 1];
      match PropertySchema(schema, property.name)
      case Some(declared) => Some(Visit(property.shape, declared, Child(path, property.name)))
      case None => LastDeclared(shape, schema, path, n - 1)
  }

  /** The last node visited directly below this one after its branches, if any. */
  function LastBelow(shape: Shape, schema: Json, path: string): (r: Option<Visit>)
    ensures r.Some? ==> r.value.shape < shape
  {
    if shape.AnyOfShape? then
      if shape.variants == [] then None else Some(Visit(shape.variants[|shape.variants| - 1], schema, path))
    else if TypeDiffers(shape, schema) then None
    else if shape.ObjectShape? then LastDeclared(shape, schema, path, |ShapeProperties(shape)|)
    else if shape.ArrayShape? && shape.items.Some? && Has(schema, "items") then
      Some(Visit(shape.items.value, Get(schema, "items").value, path + "/*"))
    else None
  }

  function Own(path: string): string {
    if path == "" then "/" else path
  }

  /**
   * The paths of the nodes on the way to the last visit that still report once it has been entered: those of a
   * differing type whose last branch leads there, and the last one itself.
   */
  function LastChain(shape: Shape, schema: Json, path: string): set<string>
    decreases shape, schema
  {
    match LastBelow(shape, schema, path)
    case Some(below) => LastChain(below.shape, below.schema, below.path)
    case None =>
      (if !shape.AnyOfShape? && TypeDiffers(shape, schema) then {Own(path)} else {}) +
      if BranchesOf(schema) == [] then {} else LastChain(shape, BranchesOf(schema)[|BranchesOf(schema)| - 1], path)
  }

  // ---------- what is reported after it, and how much ----------

  /** After its last step a walk reports exactly these paths. */
  predicate EndsWith(w: Walk, late: set<string>) {
    w.paths == w.early + late
  }

  /** At most one path for every two levels; the node's own path counted or not. */
  predicate Sparse(late: set<string>, own: string, height: nat) {
    |late| <= height / 2 + 1 && |late - {own}| <= (height + 1) / 2
  }

  predicate SparseBelow(late: set<string>, own: string, height: nat) {
    |late| <= (height + 1) / 2 && |late - {own}| <= height / 2
  }

  lemma OneLevelUp(late: set<string>, own: string, below: nat, height: nat)
    requires Sparse(late, own, below) && height >= below + 1
    ensures SparseBelow(late, own, height)
  {
  }

  lemma AnotherPath(late: set<string>, own: string, below: nat, height: nat, path: string)
    requires Sparse(late, own, below) && height >= below + 1
    ensures Sparse(late, path, height)
  {
    Strings.CardinalityMonotone(late - {path}, late);
  }

  lemma OwnPathAdded(late: set<string>, own: string, below: nat, height: nat)
    requires SparseBelow(late, own, below) && height >= below
    ensures Sparse(late, own, height) && Sparse(late + {own}, own, height)
  {
    assert late + {own} == (late - {own}) + {own};
    assert (late + {own}) - {own} == late - {own};
  }

  lemma EndsThen(a: Walk, b: Walk, late: set<string>)
    requires b.steps > 0 && EndsWith(b, late)
    ensures EndsWith(Then(a, b), late)
  {
  }

  lemma EndsBefore(a: Walk, b: Walk, late: set<string>)
    requires b.steps == 0 && EndsWith(a, late)
    ensures EndsWith(Then(a, b), b.paths + late)
  {
  }

  lemma ThenFacts(a: Walk, b: Walk)
    ensures Then(a, b).supported == (a.supported && b.supported)
    ensures Then(a, b).height >= a.height && Then(a, b).height >= b.height
    ensures Then(a, b).steps == a.steps + b.steps
  {
  }

  lemma {:induction false} ChainIsLate(shape: Shape, schema: Json, path: string)
    requires TypeWalk(shape, schema, path).supported
    ensures EndsWith(TypeWalk(shape, schema, path), LastChain(shape, schema, path))
    ensures Sparse(LastChain(shape, schema, path), Own(path), TypeWalk(shape, schema, path).height)
    decreases shape, schema, 2, 0
  {
    hide TypeBranches, TypeRest, Then, EndsWith, Sparse, SparseBelow, LastChain, BranchesOf;
    ThenFacts(STEP, REFUSED);
    var n := |BranchesOf(schema)|;
    var branches, rest := TypeBranches(shape, schema, path, n), TypeRest(shape, schema, path);
    var head := Then(STEP, branches);
    ThenFacts(STEP, branches);
    ThenFacts(head, rest);
    ChainUnfolds(shape, schema, path);
    if LastBelow(shape, schema, path).Some? {
      RestIsLate(shape, schema, path);
      EndsThen(head, rest, LastChain(shape, schema, path));
      SparseHigher(LastChain(shape, schema, path), Own(path), rest.height, Then(head, rest).height);
    } else {
      BranchesAreLate(shape, schema, path, n);
      RestReports(shape, schema, path);
      var late := LateOf(shape, schema, path, n);
      StepThen(branches, late);
      EndsBefore(head, rest, late);
      OwnPathAdded(late, Own(path), branches.height, Then(head, rest).height);
      assert rest.paths + late == if rest.paths == {} then late else late + {Own(path)};
    }
  }

  lemma SparseHigher(late: set<string>, own: string, below: nat, height: nat)
    requires Sparse(late, own, below) && height >= below
    ensures Sparse(late, own, height)
  {
  }

  lemma StepThen(branches: Walk, late: set<string>)
    requires EndsWith(branches, late) && (branches.steps == 0 ==> late == {} && branches.paths == {})
    ensures EndsWith(Then(STEP, branches), late)
  {
  }

  /** What the last of the first so many branches still reports. */
  function LateOf(shape: Shape, schema: Json, path: string, n: nat): set<string>
    requires n <= |BranchesOf(schema)|
  {
    if n == 0 then {} else LastChain(shape, BranchesOf(schema)[n - 1], path)
  }

  lemma ChainUnfolds(shape: Shape, schema: Json, path: string)
    ensures LastBelow(shape, schema, path).Some? ==>
      var below := LastBelow(shape, schema, path).value;
      LastChain(shape, schema, path) == LastChain(below.shape, below.schema, below.path)
    ensures LastBelow(shape, schema, path).None? ==>
      LastChain(shape, schema, path) ==
        (if !shape.AnyOfShape? && TypeDiffers(shape, schema) then {Own(path)} else {})
        + LateOf(shape, schema, path, |BranchesOf(schema)|)
  {
    hide LastBelow, TypeDiffers, BranchesOf;
  }

  /** Without a further visit the rest of a node reports its own path or nothing. */
  lemma RestReports(shape: Shape, schema: Json, path: string)
    requires LastBelow(shape, schema, path).None? && TypeRest(shape, schema, path).supported
    ensures TypeRest(shape, schema, path).steps == 0
    ensures TypeRest(shape, schema, path).paths == if !shape.AnyOfShape? && TypeDiffers(shape, schema) then {Own(path)} else {}
  {
    hide TypeWalk;
    if shape.ObjectShape? && !TypeDiffers(shape, schema) { NoneDeclared(shape, schema, path, |ShapeProperties(shape)|); }
  }

  lemma {:induction false} NoneDeclared(shape: Shape, schema: Json, path: string, n: nat)
    requires n <= |ShapeProperties(shape)| && LastDeclared(shape, schema, path, n).None?
    ensures TypeProperties(shape, schema, path, n) == NOTHING
  {
    hide TypeWalk, TypeProperty, ShapeProperties;
    if n > 0 {
      UndeclaredProperty(shape, schema, path, n);
      hide LastDeclared;
      NoneDeclared(shape, schema, path, n - 1);
    }
  }

  lemma UndeclaredProperty(shape: Shape, schema: Json, path: string, n: nat)
    requires 0 < n <= |ShapeProperties(shape)| && LastDeclared(shape, schema, path, n).None?
    ensures LastDeclared(shape, schema, path, n - 1).None? && TypeProperty(shape, schema, path, n - 1) == NOTHING
  {
    hide TypeWalk, ShapeProperties, PropertySchema, Child;
  }

  lemma {:induction false} BranchesAreLate(shape: Shape, schema: Json, path: string, n: nat)
    requires n <= |BranchesOf(schema)| && TypeBranches(shape, schema, path, n).supported
    ensures var w, late := TypeBranches(shape, schema, path, n), LateOf(shape, schema, path, n);
      EndsWith(w, late) && SparseBelow(late, Own(path), w.height) && (w.steps == 0 ==> late == {} && w.paths == {})
    decreases shape, schema, 0, n
  {
    hide TypeWalk, BranchesOf, LastChain;
    if n > 0 {
      var last := TypeWalk(shape, BranchesOf(schema)[n - 1], path);
      ChainIsLate(shape, BranchesOf(schema)[n - 1], path);
      BodyComparison.TypeWalkSteps(shape, BranchesOf(schema)[n - 1], path);
      EndsThen(TypeBranches(shape, schema, path, n - 1), Deeper(last), LateOf(shape, schema, path, n));
      OneLevelUp(LateOf(shape, schema, path, n), Own(path), last.height, TypeBranches(shape, schema, path, n).height);
    }
  }

  /** With a further visit the rest ends with what that visit's node still reports. */
  lemma {:induction false} RestIsLate(shape: Shape, schema: Json, path: string)
    requires LastBelow(shape, schema, path).Some? && TypeRest(shape, schema, path).supported
    ensures var w, late := TypeRest(shape, schema, path), LastChain(shape, schema, path);
      w.steps > 0 && EndsWith(w, late) && Sparse(late, Own(path), w.height)
    decreases shape, schema, 1, 0
  {
    hide TypeWalk, LastChain, Sparse, EndsWith;
    ChainUnfolds(shape, schema, path);
    var below := LastBelow(shape, schema, path).value;
    if shape.AnyOfShape? {
      VariantsAreLate(shape, schema, path);
    } else if shape.ObjectShape? {
      PropertiesAreLate(shape, schema, path, |ShapeProperties(shape)|);
    } else {
      BelowIsLate(below);
      AnotherPath(LastChain(below.shape, below.schema, below.path), Own(below.path),
                  TypeWalk(below.shape, below.schema, below.path).height, TypeRest(shape, schema, path).height, Own(path));
      DeeperEnds(TypeWalk(below.shape, below.schema, below.path), LastChain(below.shape, below.schema, below.path));
    }
  }

  lemma DeeperEnds(w: Walk, late: set<string>)
    requires EndsWith(w, late)
    ensures EndsWith(Deeper(w), late)
  {
  }

  lemma {:induction false} BelowIsLate(below: Visit)
    requires TypeWalk(below.shape, below.schema, below.path).supported
    ensures var w, late := TypeWalk(below.shape, below.schema, below.path), LastChain(below.shape, below.schema, below.path);
      w.steps > 0 && EndsWith(w, late) && Sparse(late, Own(below.path), w.height)
    decreases below.shape, below.schema, 3, 0
  {
    ChainIsLate(below.shape, below.schema, below.path);
    BodyComparison.TypeWalkSteps(below.shape, below.schema, below.path);
  }

  lemma {:induction false} VariantsAreLate(shape: Shape, schema: Json, path: string)
    requires shape.AnyOfShape? && shape.variants != [] && TypeVariants(shape, schema, path, |Variants(shape)|).supported
    ensures var w, late := TypeVariants(shape, schema, path, |Variants(shape)|), LastChain(Variants(shape)[|Variants(shape)| - 1], schema, path);
      w.steps > 0 && EndsWith(w, late) && Sparse(late, Own(path), w.height)
    decreases shape, schema, 0, 0
  {
    var n := |Variants(shape)|;
    var last, late := TypeWalk(Variants(shape)[n - 1], schema, path), LastChain(Variants(shape)[n - 1], schema, path);
    BelowIsLate(Visit(Variants(shape)[n - 1], schema, path));
    hide TypeWalk, LastChain, Sparse, EndsWith;
    DeeperEnds(last, late);
    EndsThen(TypeVariants(shape, schema, path, n - 1), Deeper(last), late);
    AnotherPath(late, Own(path), last.height, TypeVariants(shape, schema, path, n).height, Own(path));
  }

  lemma {:induction false} PropertiesAreLate(shape: Shape, schema: Json, path: string, n: nat)
    requires n <= |ShapeProperties(shape)| && LastDeclared(shape, schema, path, n).Some?
    requires TypeProperties(shape, schema, path, n).supported
    ensures var w, below := TypeProperties(shape, schema, path, n), LastDeclared(shape, schema, path, n).value;
      var late := LastChain(below.shape, below.schema, below.path);
      w.steps > 0 && EndsWith(w, late) && Sparse(late, Own(path), w.height)
    decreases shape, schema, 0, n
  {
    hide TypeWalk, LastChain, Sparse, EndsWith, ShapeProperties, PropertySchema, Child;
    var property := ShapeProperties(shape)[n - 1];
    var declared, before := PropertySchema(schema, property.name), TypeProperties(shape, schema, path, n - 1);
    if declared.Some? {
      var below := Visit(property.shape, declared.value, Child(path, property.name));
      var last, late := TypeWalk(below.shape, below.schema, below.path), LastChain(below.shape, below.schema, below.path);
      BelowIsLate(below);
      DeeperEnds(last, late);
      EndsThen(before, Deeper(last), late);
      AnotherPath(late, Own(below.path), last.height, TypeProperties(shape, schema, path, n).height, Own(path));
    } else {
      var below := LastDeclared(shape, schema, path, n - 1).value;
      PropertiesAreLate(shape, schema, path, n - 1);
      EndsBefore(before, NOTHING, LastChain(below.shape, below.schema, below.path));
      assert {} + LastChain(below.shape, below.schema, below.path) == LastChain(below.shape, below.schema, below.path);
    }
  }

  // ---------- the limit ----------

  predicate ComparesTypes(shape: Shape, schema: Json) {
    !BodyComparison.Excused(TypeWalk(shape, schema, ""), BodyComparison.FRESH, 0, BodyComparison.AtEntry)
  }

  /** A compared list is what had been found when the last visit was entered, fewer than 32 paths, and the last chain. */
  lemma ComparedTypesList(shape: Shape, schema: Json)
    requires ComparesTypes(shape, schema)
    ensures var w := TypeWalk(shape, schema, "");
      w.paths == w.early + LastChain(shape, schema, "") && |w.early| < BodyComparison.MAX_PATHS
    ensures |LastChain(shape, schema, "")| <= 33
  {
    ChainIsLate(shape, schema, "");
    BodyComparison.TypeWalkSteps(shape, schema, "");
    hide TypeWalk, LastChain;
    var w := TypeWalk(shape, schema, "");
    assert {} + w.early == w.early;
  }

  /**
   * It has at most 32 paths exactly when the paths only the last chain reports fit into what the last look at the limit
   * left; so it does when that chain reports at most one. It never has more than 64.
   */
  lemma ComparedTypesWithinLimit(shape: Shape, schema: Json)
    requires ComparesTypes(shape, schema)
    ensures var w, late := TypeWalk(shape, schema, ""), LastChain(shape, schema, "");
      && (|w.paths| <= BodyComparison.MAX_PATHS <==> |late - w.early| <= BodyComparison.MAX_PATHS - |w.early|)
      && (|late| <= 1 ==> |w.paths| <= BodyComparison.MAX_PATHS)
      && |w.paths| <= 64
  {
    ComparedTypesList(shape, schema);
    hide TypeWalk, LastChain;
    var w, late := TypeWalk(shape, schema, ""), LastChain(shape, schema, "");
    assert w.early + late == w.early + (late - w.early);
    Strings.CardinalityMonotone(late - w.early, late);
  }

  // ---------- a compared list of 64 paths ----------

  const TEXT := Obj([Field("type", Str("string"))])

  function Holding(fields: seq<Field>): Json {
    Obj([Field("properties", Obj(fields))])
  }

  /** A node that declares a string, around a branch. */
  function Composed(branch: Json): Json {
    Obj([Field("type", Str("string")), Field("allOf", Arr([branch]))])
  }

  /** Objects one inside the other under the key `x`, around an integer. */
  function Nested(k: nat): Shape {
    if k == 0 then IntegerShape else ObjectShape([Property("x", Nested(k - 1))])
  }

  /** Composed nodes one inside the other, each declaring a string. */
  function Stair(k: nat): Json {
    if k == 0 then TEXT else Composed(Holding([Field("x", Stair(k - 1))]))
  }

  function StairPaths(path: string, k: nat): set<string>
    decreases k
  {
    {path} + if k == 0 then {} else StairPaths(path + "/x", k - 1)
  }

  lemma {:induction false} StairCount(path: string, k: nat)
    decreases k
    ensures |StairPaths(path, k)| == k + 1 && forall p :: p in StairPaths(path, k) ==> |p| >= |path| && p[..|path|] == path
  {
    if k > 0 {
      StairCount(path + "/x", k - 1);
      var above := StairPaths(path + "/x", k - 1);
      forall p | p in StairPaths(path, k) ensures |p| >= |path| && p[..|path|] == path {
        if p != path { assert (path + "/x")[..|path|] == path && p[..|path|] == p[..|path + "/x"|][..|path|]; }
      }
      assert path !in above;
    } else {
      assert StairPaths(path, 0) == {path};
    }
  }

  lemma TextNode()
    ensures PlainNode(TEXT) && SupportedAllOf(TEXT) && SupportedType(TEXT) && BranchesOf(TEXT) == []
    ensures Get(TEXT, "type") == Some(Str("string"))
  {
  }

  lemma ComposedNode(branch: Json)
    ensures PlainNode(Composed(branch)) && SupportedAllOf(Composed(branch)) && SupportedType(Composed(branch))
    ensures BranchesOf(Composed(branch)) == [branch] && Get(Composed(branch), "type") == Some(Str("string"))
  {
    var fields := Composed(branch).fields;
    assert fields[0].key == "type" && fields[1].key == "allOf" && "type"[0] != "allOf"[0];
    assert forall key :: key != "type" && key != "allOf" ==> Find(fields, key) == 2;
    assert Find(fields, "allOf") == 1;
    assert Get(Composed(branch), "allOf") == Some(Arr([branch]));
  }

  lemma HoldingNode(fields: seq<Field>)
    ensures var schema := Holding(fields);
      && PlainNode(schema) && SupportedAllOf(schema) && SupportedType(schema) && BranchesOf(schema) == []
      && Get(schema, "type") == None && PropertiesAreObject(schema)
      && forall name :: PropertySchema(schema, name) == Get(Obj(fields), name)
  {
    assert Get(Holding(fields), "properties") == Some(Obj(fields));
  }

  lemma TextWalk(path: string)
    ensures TypeWalk(IntegerShape, TEXT, path) == Walk(true, 1, 0, {Own(path)}, {})
  {
    TextNode();
    hide PlainNode, SupportedAllOf, SupportedType, BranchesOf;
    assert TypeBranches(IntegerShape, TEXT, path, 0) == NOTHING;
    assert TypeRest(IntegerShape, TEXT, path) == Report(Own(path));
  }

  /** An object where a branch of a composed node holds it: the branch's properties, and then the node's own path. */
  lemma ComposedWalk(shape: Shape, fields: seq<Field>, path: string)
    requires shape.ObjectShape?
    ensures var inner := TypeProperties(shape, Holding(fields), path, |shape.properties|);
      TypeWalk(shape, Composed(Holding(fields)), path)
        == Then(Then(STEP, Deeper(Then(STEP, inner))), Report(Own(path)))
  {
    var branch := Holding(fields);
    HoldingNode(fields);
    ComposedNode(branch);
    hide PlainNode, SupportedAllOf, SupportedType, BranchesOf, TypeProperties, Holding, Composed, PropertiesAreObject;
    var inner := TypeProperties(shape, branch, path, |shape.properties|);
    assert TypeRest(shape, branch, path) == inner;
    assert TypeBranches(shape, branch, path, 0) == NOTHING;
    assert TypeWalk(shape, branch, path) == Then(STEP, inner);
    assert TypeBranches(shape, Composed(branch), path, 0) == NOTHING;
    ThenNothing(Deeper(Then(STEP, inner)));
    assert TypeBranches(shape, Composed(branch), path, 1) == Deeper(Then(STEP, inner));
    assert TypeRest(shape, Composed(branch), path) == Report(Own(path));
  }

  lemma ThenNothing(w: Walk)
    ensures Then(NOTHING, w) == (if w.steps > 0 then w else w.(early := {})) && Then(STEP, NOTHING) == STEP
  {
    assert {} + w.paths == w.paths && {} + w.early == w.early;
  }

  lemma PlainChild(path: string, c: char)
    requires c != '~' && c != '/'
    ensures Child(path, [c]) == path + "/" + [c]
  {
    JsonPointer.EscapeIsEach([c]);
    assert [c][1..] == [];
    assert JsonPointer.EscapeEach([c]) == [c] + JsonPointer.EscapeEach([]);
  }

  /** One step of the stair: two levels, one path, reported last. */
  lemma StairStep(shape: Shape, schema: Json, path: string, w: Walk)
    requires path != "" && TypeWalk(shape, schema, path + "/x") == w && w.steps > 0 && w.early == {}
    ensures TypeWalk(ObjectShape([Property("x", shape)]), Composed(Holding([Field("x", schema)])), path)
         == Walk(w.supported, w.steps + 2, w.height + 2, w.paths + {path}, {})
  {
    hide TypeWalk, TypeProperties, Composed, Holding, Child, Then;
    var around, fields := ObjectShape([Property("x", shape)]), [Field("x", schema)];
    PlainChild(path, 'x');
    assert path + "/" + "x" == path + "/x";
    ComposedWalk(around, fields, path);
    OneProperty(around, fields, path);
    ThenNothing(Deeper(w));
    assert TypeProperties(around, Holding(fields), path, 1) == Deeper(w);
    AroundInner(Deeper(w), path);
  }

  lemma StairUp(j: nat, path: string)
    requires path != "" && TypeWalk(Nested(j), Stair(j), path + "/x") == Walk(true, 2 * j + 1, 2 * j, StairPaths(path + "/x", j), {})
    ensures TypeWalk(Nested(j + 1), Stair(j + 1), path) == Walk(true, 2 * j + 3, 2 * j + 2, StairPaths(path, j + 1), {})
  {
    StairNode(j + 1);
    assert StairPaths(path, j + 1) == StairPaths(path + "/x", j) + {path};
    hide *;
    StairStep(Nested(j), Stair(j), path, Walk(true, 2 * j + 1, 2 * j, StairPaths(path + "/x", j), {}));
  }

  lemma {:induction false} StairWalk(k: nat, path: string)
    requires path != ""
    ensures TypeWalk(Nested(k), Stair(k), path) == Walk(true, 2 * k + 1, 2 * k, StairPaths(path, k), {})
    decreases k
  {
    hide TypeWalk;
    if k == 0 {
      TextWalk(path);
      assert StairPaths(path, 0) == {path};
    } else {
      StairWalk(k - 1, path + "/x");
      StairUp(k - 1, path);
    }
  }

  lemma AroundInner(inner: Walk, path: string)
    requires inner.steps > 0
    ensures Then(Then(STEP, Deeper(Then(STEP, inner))), Report(path))
         == Walk(inner.supported, inner.steps + 2, inner.height + 1, inner.paths + {path}, inner.early)
  {
    assert {} + ({} + inner.paths) == inner.paths && {} + ({} + inner.early) == inner.early;
  }

  lemma StairNode(k: nat)
    requires k > 0
    ensures Nested(k) == ObjectShape([Property("x", Nested(k - 1))])
    ensures Stair(k) == Composed(Holding([Field("x", Stair(k - 1))]))
  {
  }

  lemma OneProperty(shape: Shape, fields: seq<Field>, path: string)
    requires shape.ObjectShape? && |shape.properties| == 1 && |fields| == 1 && fields[0].key == shape.properties[0].name
    ensures var below := TypeWalk(shape.properties[0].shape, fields[0].value, Child(path, fields[0].key));
      TypeProperties(shape, Holding(fields), path, 1) == Then(NOTHING, Deeper(below))
  {
    HoldingNode(fields);
    assert Find(fields, fields[0].key) == 0;
    hide TypeWalk, Holding, Child;
  }

  function Letter(k: nat): char
    requires k < 31
  {
    (65 + k) as char
  }

  /** Thirty-one integers, and then the nested objects. */
  function CrowdedProperties(): (r: seq<Property>)
    ensures |r| == 32
  {
    seq(31, k requires 0 <= k < 31 => Property([Letter(k)], IntegerShape)) + [Property("x", Nested(31))]
  }

  function CrowdedFields(): (r: seq<Field>)
    ensures |r| == 32
  {
    seq(31, k requires 0 <= k < 31 => Field([Letter(k)], TEXT)) + [Field("x", Stair(31))]
  }

  function Letters(n: nat): set<string>
    requires n <= 31
  {
    set k | 0 <= k < n :: "/" + [Letter(k)]
  }

  lemma {:induction false} LettersCount(n: nat)
    requires n <= 31
    ensures |Letters(n)| == n
  {
    if n > 0 {
      LettersCount(n - 1);
      assert forall k :: 0 <= k < n - 1 ==> ("/" + [Letter(k)])[1] != ("/" + [Letter(n - 1)])[1];
      assert Letters(n) == Letters(n - 1) + {"/" + [Letter(n - 1)]};
    }
  }

  /** The last field is found under `x`, and each letter at its place. */
  lemma CrowdedLookup(k: nat)
    requires k < 32
    ensures CrowdedProperties()[k].name == CrowdedFields()[k].key && Find(CrowdedFields(), CrowdedFields()[k].key) == k
  {
    hide Nested, Stair;
    var fields := CrowdedFields();
    assert forall i :: 0 <= i < 32 && i != k ==> fields[i].key[0] != fields[k].key[0];
  }

  lemma CrowdedProperty(k: nat)
    requires k < 32
    ensures var shape := ObjectShape(CrowdedProperties());
      TypeProperty(shape, Holding(CrowdedFields()), "", k) ==
        Deeper(TypeWalk(CrowdedProperties()[k].shape, CrowdedFields()[k].value, Child("", CrowdedFields()[k].key)))
  {
    CrowdedLookup(k);
    HoldingNode(CrowdedFields());
    hide TypeWalk, CrowdedProperties, CrowdedFields, Holding, Child;
  }

  lemma LetterIsPlain(k: nat)
    requires k < 31
    ensures Letter(k) != '~' && Letter(k) != '/'
  {
  }

  lemma LetterWalk(k: nat)
    requires k < 31
    ensures TypeProperty(ObjectShape(CrowdedProperties()), Holding(CrowdedFields()), "", k)
         == Walk(true, 1, 1, {"/" + [Letter(k)]}, {})
  {
    hide TypeProperty, TypeWalk, Holding, Child, Nested, Stair;
    assert CrowdedProperties()[k].shape == IntegerShape && CrowdedFields()[k] == Field([Letter(k)], TEXT);
    hide CrowdedProperties, CrowdedFields, Letter;
    CrowdedProperty(k);
    LetterIsPlain(k);
    PlainChild("", Letter(k));
    TextWalk("/" + [Letter(k)]);
    assert "" + "/" + [Letter(k)] == "/" + [Letter(k)];
  }

  lemma {:induction false} LettersWalk(n: nat)
    requires n <= 31
    ensures var w := TypeProperties(ObjectShape(CrowdedProperties()), Holding(CrowdedFields()), "", n);
      w.supported && w.steps == n && w.height <= 1 && w.paths == Letters(n)
  {
    hide TypeProperty, CrowdedProperties, CrowdedFields, Holding, Letter;
    if n > 0 {
      LettersWalk(n - 1);
      LetterWalk(n - 1);
      assert Letters(n) == Letters(n - 1) + {"/" + [Letter(n - 1)]};
    } else {
      assert Letters(0) == {};
    }
  }

  lemma LastCrowded()
    ensures CrowdedProperties()[31] == Property("x", Nested(31)) && CrowdedFields()[31] == Field("x", Stair(31))
  {
    hide Nested, Stair;
  }

  lemma LastPart(head: Walk, last: Walk)
    requires last.steps > 0 && last.early == {} && head.height <= last.height
    ensures Then(head, last)
         == Walk(head.supported && last.supported, head.steps + last.steps, last.height, head.paths + last.paths, head.paths)
  {
    assert head.paths + {} == head.paths;
  }

  lemma CrowdedWalk()
    ensures var w := TypeProperties(ObjectShape(CrowdedProperties()), Holding(CrowdedFields()), "", 32);
      w == Walk(true, 94, 63, Letters(31) + StairPaths("/x", 31), Letters(31))
  {
    LastCrowded();
    hide TypeProperty, TypeWalk, Holding, Child, Nested, Stair, StairPaths, Letters, CrowdedProperties, CrowdedFields, Then;
    LettersWalk(31);
    CrowdedProperty(31);
    StairWalk(31, "/x");
    PlainChild("", 'x');
    assert "" + "/" + "x" == "/x";
    var head, last := TypeProperties(ObjectShape(CrowdedProperties()), Holding(CrowdedFields()), "", 31),
                      TypeProperty(ObjectShape(CrowdedProperties()), Holding(CrowdedFields()), "", 31);
    assert last == Walk(true, 63, 63, StairPaths("/x", 31), {});
    LastPart(head, last);
  }

  lemma CrowdedCount()
    ensures |{"/"} + (Letters(31) + StairPaths("/x", 31))| == 64
  {
    LettersCount(31);
    StairCount("/x", 31);
    var letters, stair := Letters(31), StairPaths("/x", 31);
    hide Letters, StairPaths;
    forall p | p in letters ensures p !in stair && |p| == 2 { LetterIsNoStair(p); }
    assert letters * stair == {} && "/" !in letters + stair;
    assert |letters + stair| == |letters| + |stair|;
  }

  lemma LetterIsNoStair(p: string)
    requires p in Letters(31)
    ensures p !in StairPaths("/x", 31) && |p| == 2
  {
    StairCount("/x", 31);
    hide StairPaths;
    assert p[..2][1] != "/x"[1];
  }

  /** The bound is attained: the type comparison can answer "compared" with 64 paths. */
  lemma ComparedTypesCanExceedLimit()
    ensures exists shape, schema :: ComparesTypes(shape, schema) && |TypeWalk(shape, schema, "").paths| == 64
  {
    var shape, schema := ObjectShape(CrowdedProperties()), Composed(Holding(CrowdedFields()));
    hide TypeWalk, TypeProperties, Letters, StairPaths, Composed, Holding, CrowdedProperties, CrowdedFields, Then;
    ComposedWalk(shape, CrowdedFields(), "");
    CrowdedWalk();
    CrowdedCount();
    LettersCount(31);
    AroundInner(Walk(true, 94, 63, Letters(31) + StairPaths("/x", 31), Letters(31)), "/");
    var w, inner := TypeWalk(shape, schema, ""), Letters(31) + StairPaths("/x", 31);
    assert w == Walk(true, 96, 64, inner + {"/"}, Letters(31));
    assert {"/"} + inner == inner + {"/"} && {} + w.early == w.early;
    assert ComparesTypes(shape, schema);
  }
}
