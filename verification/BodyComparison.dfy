/** The budgeted comparers, proved against the unbudgeted walks. */
module BodyComparison {
  import opened JsonValues
  import opened Shapes
  import opened BodyWalks
  import BodyCosts
  import BodyPaths
  import JsonPointer
  import SchemaValidity
  import Strings

  const MAX_STEPS := 10000
  const MAX_DEPTH := 64
  const MAX_PATHS := 32

  /** The counters a comparison shares between its visits. */
  datatype Tally = Tally(steps: nat, unresolved: bool, found: set<string>)

  /** When a comparison looks at its result limit: on entering a visit, or after every result. */
  datatype LimitCheck = AtEntry | AtEachResult

  predicate Crowded(w: Walk, found: set<string>, check: LimitCheck) {
    match check
    case AtEntry => w.steps > 0 && |found + w.early| >= MAX_PATHS
    case AtEachResult => |found + w.paths| > MAX_PATHS
  }

  /** The reasons for giving up: an unsupported construct, or the step, depth or result limit. */
  predicate Excused(w: Walk, before: Tally, depth: nat, check: LimitCheck) {
    || !w.supported
    || before.steps + w.steps > MAX_STEPS
    || depth + w.height > MAX_DEPTH
    || Crowded(w, before.found, check)
  }

  /** The budgets are not yet exceeded. */
  predicate Room(t: Tally, depth: nat, check: LimitCheck) {
    t.unresolved
    || (t.steps <= MAX_STEPS && depth <= MAX_DEPTH && (check.AtEachResult? ==> |t.found| <= MAX_PATHS))
  }

  /** Giving up is final; otherwise the comparison gives up exactly with an excuse, or does what the walk describes. */
  predicate Outcome(w: Walk, before: Tally, after: Tally, depth: nat, check: LimitCheck) {
    if before.unresolved then after.unresolved
    else if Excused(w, before, depth, check) then after.unresolved
    else after == Tally(before.steps + w.steps, false, before.found + w.paths)
  }

  lemma OutcomeNothing(t: Tally, depth: nat, check: LimitCheck)
    requires Room(t, depth, check)
    ensures Outcome(NOTHING, t, t, depth, check)
  {
    assert t.found + {} == t.found;
  }

  lemma OutcomeRoom(w: Walk, before: Tally, after: Tally, depth: nat, check: LimitCheck)
    requires Outcome(w, before, after, depth, check)
    ensures Room(after, depth, check)
  {
  }

  lemma CrowdedThen(a: Walk, b: Walk, found: set<string>, check: LimitCheck)
    ensures Crowded(Then(a, b), found, check) <==> Crowded(a, found, check) || Crowded(b, found + a.paths, check)
  {
    var w := Then(a, b);
    assert found + w.paths == found + a.paths + b.paths;
    Strings.CardinalityMonotone(found + a.paths, found + w.paths);
    if b.steps > 0 {
      assert found + w.early == found + a.paths + b.early;
      Strings.CardinalityMonotone(found + a.early, found + w.early);
    }
  }

  /** Giving up early is excused by whatever part was walked. */
  lemma OutcomeStop(a: Walk, b: Walk, before: Tally, after: Tally, depth: nat, check: LimitCheck)
    requires Outcome(a, before, after, depth, check) && after.unresolved
    ensures Outcome(Then(a, b), before, after, depth, check)
  {
    CrowdedThen(a, b, before.found, check);
  }

  lemma OutcomeThen(a: Walk, b: Walk, before: Tally, middle: Tally, after: Tally, depth: nat, check: LimitCheck)
    requires Outcome(a, before, middle, depth, check) && Outcome(b, middle, after, depth, check)
    ensures Outcome(Then(a, b), before, after, depth, check)
  {
    CrowdedThen(a, b, before.found, check);
    assert before.found + Then(a, b).paths == before.found + a.paths + b.paths;
  }

  lemma OutcomeDeeper(w: Walk, before: Tally, after: Tally, depth: nat, check: LimitCheck)
    requires Outcome(w, before, after, depth + 1, check)
    ensures Outcome(Deeper(w), before, after, depth, check)
  {
  }

  lemma OutcomeRefused(before: Tally, after: Tally, depth: nat, check: LimitCheck)
    requires after.unresolved
    ensures Outcome(REFUSED, before, after, depth, check)
  {
  }

  /** One step, refused when it is one too many. */
  lemma OutcomeStep(before: Tally, after: Tally, depth: nat, check: LimitCheck)
    requires Room(before, depth, check)
    requires check.AtEntry? ==> before.unresolved || |before.found| < MAX_PATHS
    requires after == Tally(before.steps + 1, before.unresolved || before.steps >= MAX_STEPS, before.found)
    ensures Outcome(STEP, before, after, depth, check)
  {
    assert before.found + {} == before.found;
  }

  /** One reported path, refused when it is one too many. */
  lemma OutcomeReport(path: string, before: Tally, after: Tally, depth: nat, check: LimitCheck)
    requires Room(before, depth, check)
    requires after.found == before.found + {path} && after.steps == before.steps
    requires after.unresolved <==> before.unresolved || (check.AtEachResult? && |after.found| > MAX_PATHS)
    ensures Outcome(Report(path), before, after, depth, check)
  {
  }

  /** A visit refused at its door. */
  lemma OutcomeRefusedVisit(w: Walk, before: Tally, after: Tally, depth: nat, check: LimitCheck)
    requires after.unresolved && w.steps >= 1
    requires before.unresolved || before.steps >= MAX_STEPS || depth > MAX_DEPTH
             || (check.AtEntry? && |before.found| >= MAX_PATHS)
    ensures Outcome(w, before, after, depth, check)
  {
    Strings.CardinalityMonotone(before.found, before.found + w.early);
  }

  lemma TypeWalkSteps(shape: Shape, schema: Json, path: string)
    ensures TypeWalk(shape, schema, path).steps >= 1
  {
    hide TypeRest, TypeBranches;
  }

  lemma PresenceWalkSteps(shape: Shape, schema: Json, path: string)
    ensures PresenceWalk(shape, schema, path).steps >= 1
  {
    hide PresenceRest, PresenceBranches;
  }

  lemma ClosureWalkSteps(shape: Shape, schema: Json, path: string)
    ensures ClosureWalk(shape, schema, path).steps >= 1
  {
    hide ClosureRest, ClosureBranches;
  }

  lemma NoBranches(schema: Json)
    requires !Has(schema, "allOf")
    ensures SupportedAllOf(schema) && BranchesOf(schema) == []
  {
  }

  lemma TypeBranchesNone(shape: Shape, schema: Json, path: string)
    ensures TypeBranches(shape, schema, path, 0) == NOTHING
  {
  }

  lemma PresenceBranchesNone(shape: Shape, schema: Json, path: string)
    ensures PresenceBranches(shape, schema, path, 0) == NOTHING
  {
  }

  lemma ClosureBranchesNone(shape: Shape, schema: Json, path: string)
    ensures ClosureBranches(shape, schema, path, 0) == NOTHING
  {
  }

  lemma {:induction false} PresenceRequiredStop(shape: Shape, schema: Json, path: string, k: nat, n: nat,
                                   before: Tally, after: Tally, depth: nat)
    requires k <= n <= |RequiredNames(schema)|
    requires Outcome(PresenceRequired(shape, schema, path, k), before, after, depth, AtEachResult) && after.unresolved
    ensures Outcome(PresenceRequired(shape, schema, path, n), before, after, depth, AtEachResult)
    decreases n
  {
    hide Outcome, Then;
    if k < n {
      PresenceRequiredStop(shape, schema, path, k, n - 1, before, after, depth);
      OutcomeStop(PresenceRequired(shape, schema, path, n - 1), RequiredName(shape, RequiredNames(schema)[n - 1], path), before, after, depth, AtEachResult);
    }
  }

  lemma {:induction false} PresencePropertiesStop(shape: Shape, schema: Json, path: string, k: nat, n: nat,
                                   before: Tally, after: Tally, depth: nat)
    requires k <= n <= |ShapeProperties(shape)|
    requires Outcome(PresenceProperties(shape, schema, path, k), before, after, depth, AtEachResult) && after.unresolved
    ensures Outcome(PresenceProperties(shape, schema, path, n), before, after, depth, AtEachResult)
    decreases n
  {
    hide Outcome, Then;
    if k < n {
      PresencePropertiesStop(shape, schema, path, k, n - 1, before, after, depth);
      OutcomeStop(PresenceProperties(shape, schema, path, n - 1), PresenceProperty(shape, schema, path, n - 1), before, after, depth, AtEachResult);
    }
  }

  lemma {:induction false} ClosurePropertiesStop(shape: Shape, schema: Json, path: string, k: nat, n: nat,
                                   before: Tally, after: Tally, depth: nat)
    requires k <= n <= |ShapeProperties(shape)|
    requires Outcome(ClosureProperties(shape, schema, path, k), before, after, depth, AtEachResult) && after.unresolved
    ensures Outcome(ClosureProperties(shape, schema, path, n), before, after, depth, AtEachResult)
    decreases n
  {
    hide Outcome, Then;
    if k < n {
      ClosurePropertiesStop(shape, schema, path, k, n - 1, before, after, depth);
      OutcomeStop(ClosureProperties(shape, schema, path, n - 1), ClosureProperty(shape, schema, path, n - 1), before, after, depth, AtEachResult);
    }
  }

  class Comparer {
    var steps: nat
    var unresolved: bool
    var found: set<string>

    constructor ()
      ensures Now() == Tally(0, false, {})
    {
      steps, unresolved, found := 0, false, {};
    }

    function Now(): Tally
      reads this
    {
      Tally(steps, unresolved, found)
    }

    /** Give up at a node: a step was taken, then something unsupported was met. */
    method Refuse(ghost start: Tally, ghost depth: nat, ghost check: LimitCheck)
      requires Outcome(STEP, start, Now(), depth, check)
      modifies this
      ensures Outcome(Then(STEP, REFUSED), start, Now(), depth, check)
    {
      ghost var entered := Now();
      unresolved := true;
      OutcomeRefused(entered, Now(), depth, check);
      OutcomeThen(STEP, REFUSED, start, entered, Now(), depth, check);
    }

    /** Count one step; false once the budget is spent or the comparison has given up. */
    method Consume(ghost depth: nat) returns (open: bool)
      requires Room(Now(), depth, AtEachResult)
      modifies this
      ensures Outcome(STEP, old(Now()), Now(), depth, AtEachResult)
      ensures open <==> !unresolved
    {
      steps := steps + 1;
      if steps > MAX_STEPS { unresolved := true; }
      open := !unresolved;
      OutcomeStep(old(Now()), Now(), depth, AtEachResult);
    }

    // ---------- types ----------

    method VisitType(shape: Shape, schema: Json, path: string, depth: nat)
      modifies this
      ensures Outcome(TypeWalk(shape, schema, path), old(Now()), Now(), depth, AtEntry)
      decreases shape, schema, 2, 0
    {
      hide TypeRest, TypeBranches, Outcome, Then;
      hide PlainNode, SupportedType, SupportedRequired, SupportedClosure, PropertiesAreObject, SupportedAllOf, BranchesOf;
      ghost var start, check := Now(), AtEntry;
      TypeWalkSteps(shape, schema, path);
      steps := steps + 1;
      if steps > MAX_STEPS || depth > MAX_DEPTH || |found| >= MAX_PATHS {
        unresolved := true;
        OutcomeRefusedVisit(TypeWalk(shape, schema, path), start, Now(), depth, check);
        return;
      }
      ghost var entered := Now();
      OutcomeStep(start, entered, depth, check);
      if !PlainNode(schema) { Refuse(start, depth, check); return; }
      if Has(schema, "allOf") {
        if !SupportedAllOf(schema) { Refuse(start, depth, check); return; }
        VisitTypeBranches(shape, schema, path, depth);
      } else {
        NoBranches(schema);
        TypeBranchesNone(shape, schema, path);
        OutcomeNothing(entered, depth, check);
      }
      ghost var composed := Now();
      ghost var branches := TypeBranches(shape, schema, path, |BranchesOf(schema)|);
      OutcomeThen(STEP, branches, start, entered, composed, depth, check);
      if Has(schema, "allOf") && unresolved {
        OutcomeStop(Then(STEP, branches), TypeRest(shape, schema, path), start, composed, depth, check);
        return;
      }
      OutcomeRoom(branches, entered, composed, depth, check);
      VisitTypeRest(shape, schema, path, depth);
      OutcomeThen(Then(STEP, branches), TypeRest(shape, schema, path), start, composed, Now(), depth, check);
    }

    method VisitTypeBranches(shape: Shape, schema: Json, path: string, depth: nat)
      requires Room(Now(), depth, AtEntry)
      modifies this
      ensures Outcome(TypeBranches(shape, schema, path, |BranchesOf(schema)|), old(Now()), Now(), depth, AtEntry)
      decreases shape, schema, 0, 0
    {
      hide TypeWalk, Outcome, Then, Deeper, BranchesOf;
      var branches := BranchesOf(schema);
      OutcomeNothing(Now(), depth, AtEntry);
      for k := 0 to |branches|
        invariant Outcome(TypeBranches(shape, schema, path, k), old(Now()), Now(), depth, AtEntry)
      {
        ghost var middle := Now();
        OutcomeRoom(TypeBranches(shape, schema, path, k), old(Now()), middle, depth, AtEntry);
        VisitType(shape, branches[k], path, depth + 1);
        OutcomeDeeper(TypeWalk(shape, branches[k], path), middle, Now(), depth, AtEntry);
        OutcomeThen(TypeBranches(shape, schema, path, k), Deeper(TypeWalk(shape, branches[k], path)),
                    old(Now()), middle, Now(), depth, AtEntry);
      }
    }

    method VisitTypeVariants(shape: Shape, schema: Json, path: string, depth: nat)
      requires Room(Now(), depth, AtEntry)
      modifies this
      ensures Outcome(TypeVariants(shape, schema, path, |Variants(shape)|), old(Now()), Now(), depth, AtEntry)
      decreases shape, schema, 0, 0
    {
      hide TypeWalk, Outcome, Then, Deeper, Variants;
      var variants := Variants(shape);
      OutcomeNothing(Now(), depth, AtEntry);
      for k := 0 to |variants|
        invariant Outcome(TypeVariants(shape, schema, path, k), old(Now()), Now(), depth, AtEntry)
      {
        ghost var middle := Now();
        OutcomeRoom(TypeVariants(shape, schema, path, k), old(Now()), middle, depth, AtEntry);
        VisitType(variants[k], schema, path, depth + 1);
        OutcomeDeeper(TypeWalk(variants[k], schema, path), middle, Now(), depth, AtEntry);
        OutcomeThen(TypeVariants(shape, schema, path, k), Deeper(TypeWalk(variants[k], schema, path)),
                    old(Now()), middle, Now(), depth, AtEntry);
      }
    }

    method VisitTypeRest(shape: Shape, schema: Json, path: string, depth: nat)
      requires Room(Now(), depth, AtEntry)
      modifies this
      ensures Outcome(TypeRest(shape, schema, path), old(Now()), Now(), depth, AtEntry)
      decreases shape, schema, 1, 0
    {
      hide TypeWalk, TypeVariants, TypeProperties, Outcome, Deeper;
      hide SupportedType, TypeDiffers, PropertiesAreObject;
      if shape.AnyOfShape? { VisitTypeVariants(shape, schema, path, depth); return; }
      if !SupportedType(schema) {
        unresolved := true;
        OutcomeRefused(old(Now()), Now(), depth, AtEntry);
        return;
      }
      if TypeDiffers(shape, schema) {
        var reported := if path == "" then "/" else path;
        found := found + {reported};
        OutcomeReport(reported, old(Now()), Now(), depth, AtEntry);
        return;
      }
      if shape.ObjectShape? {
        if !PropertiesAreObject(schema) {
          unresolved := true;
          OutcomeRefused(old(Now()), Now(), depth, AtEntry);
          return;
        }
        VisitTypeProperties(shape, schema, path, depth);
        return;
      }
      if shape.ArrayShape? && shape.items.Some? && Has(schema, "items") {
        VisitType(shape.items.value, Get(schema, "items").value, path + "/*", depth + 1);
        OutcomeDeeper(TypeWalk(shape.items.value, Get(schema, "items").value, path + "/*"), old(Now()), Now(), depth, AtEntry);
        return;
      }
      OutcomeNothing(Now(), depth, AtEntry);
    }

    method VisitTypeProperties(shape: Shape, schema: Json, path: string, depth: nat)
      requires Room(Now(), depth, AtEntry)
      modifies this
      ensures Outcome(TypeProperties(shape, schema, path, |ShapeProperties(shape)|), old(Now()), Now(), depth, AtEntry)
      decreases shape, schema, 0, 0
    {
      hide TypeWalk, Outcome, Then, Deeper, ShapeProperties, PropertySchema, Child;
      var properties := ShapeProperties(shape);
      OutcomeNothing(Now(), depth, AtEntry);
      for k := 0 to |properties|
        invariant Outcome(TypeProperties(shape, schema, path, k), old(Now()), Now(), depth, AtEntry)
      {
        ghost var middle := Now();
        OutcomeRoom(TypeProperties(shape, schema, path, k), old(Now()), middle, depth, AtEntry);
        var declared := PropertySchema(schema, properties[k].name);
        if declared.Some? {
          var child := Child(path, properties[k].name);
          VisitType(properties[k].shape, declared.value, child, depth + 1);
          OutcomeDeeper(TypeWalk(properties[k].shape, declared.value, child), middle, Now(), depth, AtEntry);
        } else {
          OutcomeNothing(middle, depth, AtEntry);
        }
        OutcomeThen(TypeProperties(shape, schema, path, k), TypeProperty(shape, schema, path, k),
                    old(Now()), middle, Now(), depth, AtEntry);
      }
    }

    // ---------- presence ----------

    method VisitPresence(shape: Shape, schema: Json, path: string, depth: nat)
      requires unresolved || |found| <= MAX_PATHS
      modifies this
      ensures Outcome(PresenceWalk(shape, schema, path), old(Now()), Now(), depth, AtEachResult)
      decreases shape, schema, 2, 0
    {
      hide PresenceRest, PresenceBranches, Outcome, Then;
      hide PlainNode, SupportedType, SupportedRequired, SupportedClosure, PropertiesAreObject, SupportedAllOf, BranchesOf;
      ghost var start, check := Now(), AtEachResult;
      PresenceWalkSteps(shape, schema, path);
      steps := steps + 1;
      if steps > MAX_STEPS { unresolved := true; }
      if unresolved || depth > MAX_DEPTH {
        unresolved := true;
        OutcomeRefusedVisit(PresenceWalk(shape, schema, path), start, Now(), depth, check);
        return;
      }
      ghost var entered := Now();
      OutcomeStep(start, entered, depth, check);
      if !PlainNode(schema) { Refuse(start, depth, check); return; }
      if !SupportedType(schema) { Refuse(start, depth, check); return; }
      if !SupportedRequired(schema) { Refuse(start, depth, check); return; }
      if Has(schema, "allOf") {
        if !SupportedAllOf(schema) { Refuse(start, depth, check); return; }
        VisitPresenceBranches(shape, schema, path, depth);
      } else {
        NoBranches(schema);
        PresenceBranchesNone(shape, schema, path);
        OutcomeNothing(entered, depth, check);
      }
      ghost var composed := Now();
      ghost var branches := PresenceBranches(shape, schema, path, |BranchesOf(schema)|);
      OutcomeThen(STEP, branches, start, entered, composed, depth, check);
      if Has(schema, "allOf") && unresolved {
        OutcomeStop(Then(STEP, branches), PresenceRest(shape, schema, path), start, composed, depth, check);
        return;
      }
      OutcomeRoom(branches, entered, composed, depth, check);
      VisitPresenceRest(shape, schema, path, depth);
      OutcomeThen(Then(STEP, branches), PresenceRest(shape, schema, path), start, composed, Now(), depth, check);
    }

    method VisitPresenceBranches(shape: Shape, schema: Json, path: string, depth: nat)
      requires Room(Now(), depth, AtEachResult)
      modifies this
      ensures Outcome(PresenceBranches(shape, schema, path, |BranchesOf(schema)|), old(Now()), Now(), depth, AtEachResult)
      decreases shape, schema, 0, 0
    {
      hide PresenceWalk, Outcome, Then, Deeper, BranchesOf;
      var branches := BranchesOf(schema);
      OutcomeNothing(Now(), depth, AtEachResult);
      for k := 0 to |branches|
        invariant Outcome(PresenceBranches(shape, schema, path, k), old(Now()), Now(), depth, AtEachResult)
      {
        ghost var middle := Now();
        OutcomeRoom(PresenceBranches(shape, schema, path, k), old(Now()), middle, depth, AtEachResult);
        VisitPresence(shape, branches[k], path, depth + 1);
        OutcomeDeeper(PresenceWalk(shape, branches[k], path), middle, Now(), depth, AtEachResult);
        OutcomeThen(PresenceBranches(shape, schema, path, k), Deeper(PresenceWalk(shape, branches[k], path)),
                    old(Now()), middle, Now(), depth, AtEachResult);
      }
    }

    method VisitPresenceVariants(shape: Shape, schema: Json, path: string, depth: nat)
      requires Room(Now(), depth, AtEachResult)
      modifies this
      ensures Outcome(PresenceVariants(shape, schema, path, |Variants(shape)|), old(Now()), Now(), depth, AtEachResult)
      decreases shape, schema, 0, 0
    {
      hide PresenceWalk, Outcome, Then, Deeper, Variants;
      var variants := Variants(shape);
      OutcomeNothing(Now(), depth, AtEachResult);
      for k := 0 to |variants|
        invariant Outcome(PresenceVariants(shape, schema, path, k), old(Now()), Now(), depth, AtEachResult)
      {
        ghost var middle := Now();
        OutcomeRoom(PresenceVariants(shape, schema, path, k), old(Now()), middle, depth, AtEachResult);
        VisitPresence(variants[k], schema, path, depth + 1);
        OutcomeDeeper(PresenceWalk(variants[k], schema, path), middle, Now(), depth, AtEachResult);
        OutcomeThen(PresenceVariants(shape, schema, path, k), Deeper(PresenceWalk(variants[k], schema, path)),
                    old(Now()), middle, Now(), depth, AtEachResult);
      }
    }

    method VisitPresenceRest(shape: Shape, schema: Json, path: string, depth: nat)
      requires Room(Now(), depth, AtEachResult)
      modifies this
      ensures Outcome(PresenceRest(shape, schema, path), old(Now()), Now(), depth, AtEachResult)
      decreases shape, schema, 1, 0
    {
      hide PresenceWalk, PresenceVariants, PresenceProperties, PresenceRequired, Outcome, Then, Deeper;
      hide AllowsType, PropertiesAreObject, RequiredNames;
      if shape.AnyOfShape? { VisitPresenceVariants(shape, schema, path, depth); return; }
      if shape.ObjectShape? && AllowsType(schema, "object") {
        ghost var required := PresenceRequired(shape, schema, path, |RequiredNames(schema)|);
        ghost var fields := if !PropertiesAreObject(schema) then REFUSED
                            else if !Has(schema, "properties") then NOTHING
                            else PresenceProperties(shape, schema, path, |ShapeProperties(shape)|);
        var open := VisitPresenceRequired(shape, schema, path, depth);
        ghost var middle := Now();
        OutcomeRoom(required, old(Now()), middle, depth, AtEachResult);
        if !open { OutcomeStop(required, fields, old(Now()), middle, depth, AtEachResult); return; }
        if !PropertiesAreObject(schema) {
          unresolved := true;
          OutcomeRefused(middle, Now(), depth, AtEachResult);
        } else if Has(schema, "properties") {
          VisitPresenceProperties(shape, schema, path, depth);
        } else {
          OutcomeNothing(middle, depth, AtEachResult);
        }
        OutcomeThen(required, fields, old(Now()), middle, Now(), depth, AtEachResult);
        return;
      }
      if shape.ArrayShape? && AllowsType(schema, "array") && shape.items.Some? && Has(schema, "items") {
        VisitPresence(shape.items.value, Get(schema, "items").value, path + "/*", depth + 1);
        OutcomeDeeper(PresenceWalk(shape.items.value, Get(schema, "items").value, path + "/*"), old(Now()), Now(), depth, AtEachResult);
        return;
      }
      OutcomeNothing(Now(), depth, AtEachResult);
    }

    /** The loop over `required`; false when it returned early. */
    method VisitPresenceRequired(shape: Shape, schema: Json, path: string, depth: nat) returns (open: bool)
      requires Room(Now(), depth, AtEachResult)
      modifies this
      ensures Outcome(PresenceRequired(shape, schema, path, |RequiredNames(schema)|), old(Now()), Now(), depth, AtEachResult)
      ensures !open ==> unresolved
    {
      hide Outcome, Then, RequiredNames, RequiredName, Room;
      var names := RequiredNames(schema);
      OutcomeNothing(Now(), depth, AtEachResult);
      for k := 0 to |names|
        invariant Outcome(PresenceRequired(shape, schema, path, k), old(Now()), Now(), depth, AtEachResult)
      {
        ghost var middle := Now();
        OutcomeRoom(PresenceRequired(shape, schema, path, k), old(Now()), middle, depth, AtEachResult);
        open := CheckRequired(shape, names[k], path, depth);
        OutcomeThen(PresenceRequired(shape, schema, path, k), RequiredName(shape, names[k], path),
                    old(Now()), middle, Now(), depth, AtEachResult);
        if !open {
          PresenceRequiredStop(shape, schema, path, k + 1, |names|, old(Now()), Now(), depth);
          return;
        }
      }
      open := true;
    }

    method CheckRequired(shape: Shape, name: Json, path: string, ghost depth: nat) returns (open: bool)
      requires Room(Now(), depth, AtEachResult)
      modifies this
      ensures Outcome(RequiredName(shape, name, path), old(Now()), Now(), depth, AtEachResult)
      ensures !open ==> unresolved
    {
      hide Outcome, Then, Child;
      open := Consume(depth);
      ghost var counted := Now();
      ghost var missing := name.Str? && !Lists(ShapeProperties(shape), name.text);
      OutcomeRoom(STEP, old(Now()), counted, depth, AtEachResult);
      if !open {
        if missing {
          OutcomeStop(STEP, Report(Child(path, name.text)), old(Now()), counted, depth, AtEachResult);
        }
        return;
      }
      if name.Str? && !Lists(ShapeProperties(shape), name.text) { found := found + {Child(path, name.text)}; }
      if |found| > MAX_PATHS { unresolved := true; open := false; }
      if missing {
        OutcomeReport(Child(path, name.text), counted, Now(), depth, AtEachResult);
        OutcomeThen(STEP, Report(Child(path, name.text)), old(Now()), counted, Now(), depth, AtEachResult);
      }
    }

    method VisitPresenceProperties(shape: Shape, schema: Json, path: string, depth: nat)
      requires Room(Now(), depth, AtEachResult)
      modifies this
      ensures Outcome(PresenceProperties(shape, schema, path, |ShapeProperties(shape)|), old(Now()), Now(), depth, AtEachResult)
      decreases shape, schema, 0, 1
    {
      hide Outcome, Then, ShapeProperties, PresenceProperty;
      var properties := ShapeProperties(shape);
      OutcomeNothing(Now(), depth, AtEachResult);
      for k := 0 to |properties|
        invariant Outcome(PresenceProperties(shape, schema, path, k), old(Now()), Now(), depth, AtEachResult)
      {
        ghost var middle := Now();
        OutcomeRoom(PresenceProperties(shape, schema, path, k), old(Now()), middle, depth, AtEachResult);
        var open := VisitPresenceProperty(shape, schema, path, k, depth);
        OutcomeThen(PresenceProperties(shape, schema, path, k), PresenceProperty(shape, schema, path, k),
                    old(Now()), middle, Now(), depth, AtEachResult);
        if !open {
          PresencePropertiesStop(shape, schema, path, k + 1, |properties|, old(Now()), Now(), depth);
          return;
        }
      }
    }

    method VisitPresenceProperty(shape: Shape, schema: Json, path: string, k: nat, depth: nat) returns (open: bool)
      requires k < |ShapeProperties(shape)| && Room(Now(), depth, AtEachResult)
      modifies this
      ensures Outcome(PresenceProperty(shape, schema, path, k), old(Now()), Now(), depth, AtEachResult)
      ensures !open ==> unresolved
      decreases shape, schema, 0, 0
    {
      hide PresenceWalk, Outcome, Then, Deeper, PropertySchema, Child, ShapeProperties;
      var property := ShapeProperties(shape)[k];
      var declared := PropertySchema(schema, property.name);
      open := Consume(depth);
      ghost var counted := Now();
      OutcomeRoom(STEP, old(Now()), counted, depth, AtEachResult);
      if declared.Some? {
        var child := Child(path, property.name);
        ghost var below := Deeper(PresenceWalk(property.shape, declared.value, child));
        if !open { OutcomeStop(STEP, below, old(Now()), counted, depth, AtEachResult); return; }
        VisitPresence(property.shape, declared.value, child, depth + 1);
        OutcomeDeeper(PresenceWalk(property.shape, declared.value, child), counted, Now(), depth, AtEachResult);
        OutcomeThen(STEP, below, old(Now()), counted, Now(), depth, AtEachResult);
      }
    }

    // ---------- closure ----------

    method VisitClosure(shape: Shape, schema: Json, path: string, depth: nat)
      requires unresolved || |found| <= MAX_PATHS
      modifies this
      ensures Outcome(ClosureWalk(shape, schema, path), old(Now()), Now(), depth, AtEachResult)
      decreases shape, schema, 2, 0
    {
      hide ClosureRest, ClosureBranches, Outcome, Then;
      hide PlainNode, SupportedType, SupportedRequired, SupportedClosure, PropertiesAreObject, SupportedAllOf, BranchesOf;
      ghost var start, check := Now(), AtEachResult;
      ClosureWalkSteps(shape, schema, path);
      steps := steps + 1;
      if steps > MAX_STEPS { unresolved := true; }
      if unresolved || depth > MAX_DEPTH {
        unresolved := true;
        OutcomeRefusedVisit(ClosureWalk(shape, schema, path), start, Now(), depth, check);
        return;
      }
      ghost var entered := Now();
      OutcomeStep(start, entered, depth, check);
      if !PlainNode(schema) || Has(schema, "patternProperties") { Refuse(start, depth, check); return; }
      if !SupportedType(schema) { Refuse(start, depth, check); return; }
      if !SupportedClosure(schema) { Refuse(start, depth, check); return; }
      if !PropertiesAreObject(schema) { Refuse(start, depth, check); return; }
      if Has(schema, "allOf") {
        if !SupportedAllOf(schema) { Refuse(start, depth, check); return; }
        VisitClosureBranches(shape, schema, path, depth);
      } else {
        NoBranches(schema);
        ClosureBranchesNone(shape, schema, path);
        OutcomeNothing(entered, depth, check);
      }
      ghost var composed := Now();
      ghost var branches := ClosureBranches(shape, schema, path, |BranchesOf(schema)|);
      OutcomeThen(STEP, branches, start, entered, composed, depth, check);
      if Has(schema, "allOf") && unresolved {
        OutcomeStop(Then(STEP, branches), ClosureRest(shape, schema, path), start, composed, depth, check);
        return;
      }
      OutcomeRoom(branches, entered, composed, depth, check);
      VisitClosureRest(shape, schema, path, depth);
      OutcomeThen(Then(STEP, branches), ClosureRest(shape, schema, path), start, composed, Now(), depth, check);
    }

    method VisitClosureBranches(shape: Shape, schema: Json, path: string, depth: nat)
      requires Room(Now(), depth, AtEachResult)
      modifies this
      ensures Outcome(ClosureBranches(shape, schema, path, |BranchesOf(schema)|), old(Now()), Now(), depth, AtEachResult)
      decreases shape, schema, 0, 0
    {
      hide ClosureWalk, Outcome, Then, Deeper, BranchesOf;
      var branches := BranchesOf(schema);
      OutcomeNothing(Now(), depth, AtEachResult);
      for k := 0 to |branches|
        invariant Outcome(ClosureBranches(shape, schema, path, k), old(Now()), Now(), depth, AtEachResult)
      {
        ghost var middle := Now();
        OutcomeRoom(ClosureBranches(shape, schema, path, k), old(Now()), middle, depth, AtEachResult);
        VisitClosure(shape, branches[k], path, depth + 1);
        OutcomeDeeper(ClosureWalk(shape, branches[k], path), middle, Now(), depth, AtEachResult);
        OutcomeThen(ClosureBranches(shape, schema, path, k), Deeper(ClosureWalk(shape, branches[k], path)),
                    old(Now()), middle, Now(), depth, AtEachResult);
      }
    }

    method VisitClosureVariants(shape: Shape, schema: Json, path: string, depth: nat)
      requires Room(Now(), depth, AtEachResult)
      modifies this
      ensures Outcome(ClosureVariants(shape, schema, path, |Variants(shape)|), old(Now()), Now(), depth, AtEachResult)
      decreases shape, schema, 0, 0
    {
      hide ClosureWalk, Outcome, Then, Deeper, Variants;
      var variants := Variants(shape);
      OutcomeNothing(Now(), depth, AtEachResult);
      for k := 0 to |variants|
        invariant Outcome(ClosureVariants(shape, schema, path, k), old(Now()), Now(), depth, AtEachResult)
      {
        ghost var middle := Now();
        OutcomeRoom(ClosureVariants(shape, schema, path, k), old(Now()), middle, depth, AtEachResult);
        VisitClosure(variants[k], schema, path, depth + 1);
        OutcomeDeeper(ClosureWalk(variants[k], schema, path), middle, Now(), depth, AtEachResult);
        OutcomeThen(ClosureVariants(shape, schema, path, k), Deeper(ClosureWalk(variants[k], schema, path)),
                    old(Now()), middle, Now(), depth, AtEachResult);
      }
    }

    method VisitClosureRest(shape: Shape, schema: Json, path: string, depth: nat)
      requires Room(Now(), depth, AtEachResult)
      modifies this
      ensures Outcome(ClosureRest(shape, schema, path), old(Now()), Now(), depth, AtEachResult)
      decreases shape, schema, 1, 0
    {
      hide ClosureWalk, ClosureVariants, ClosureProperties, Outcome, Deeper, AllowsType;
      if shape.AnyOfShape? { VisitClosureVariants(shape, schema, path, depth); return; }
      if shape.ObjectShape? && AllowsType(schema, "object") {
        VisitClosureProperties(shape, schema, path, depth);
        return;
      }
      if shape.ArrayShape? && AllowsType(schema, "array") && shape.items.Some? && Has(schema, "items") {
        VisitClosure(shape.items.value, Get(schema, "items").value, path + "/*", depth + 1);
        OutcomeDeeper(ClosureWalk(shape.items.value, Get(schema, "items").value, path + "/*"), old(Now()), Now(), depth, AtEachResult);
        return;
      }
      OutcomeNothing(Now(), depth, AtEachResult);
    }

    method VisitClosureProperties(shape: Shape, schema: Json, path: string, depth: nat)
      requires Room(Now(), depth, AtEachResult)
      modifies this
      ensures Outcome(ClosureProperties(shape, schema, path, |ShapeProperties(shape)|), old(Now()), Now(), depth, AtEachResult)
      decreases shape, schema, 0, 1
    {
      hide Outcome, Then, ShapeProperties, ClosureProperty;
      var properties := ShapeProperties(shape);
      OutcomeNothing(Now(), depth, AtEachResult);
      for k := 0 to |properties|
        invariant Outcome(ClosureProperties(shape, schema, path, k), old(Now()), Now(), depth, AtEachResult)
      {
        ghost var middle := Now();
        OutcomeRoom(ClosureProperties(shape, schema, path, k), old(Now()), middle, depth, AtEachResult);
        var open := VisitClosureProperty(shape, schema, path, k, depth);
        OutcomeThen(ClosureProperties(shape, schema, path, k), ClosureProperty(shape, schema, path, k),
                    old(Now()), middle, Now(), depth, AtEachResult);
        if !open {
          ClosurePropertiesStop(shape, schema, path, k + 1, |properties|, old(Now()), Now(), depth);
          return;
        }
      }
    }

    method VisitClosureProperty(shape: Shape, schema: Json, path: string, k: nat, depth: nat) returns (open: bool)
      requires k < |ShapeProperties(shape)| && Room(Now(), depth, AtEachResult)
      modifies this
      ensures Outcome(ClosureProperty(shape, schema, path, k), old(Now()), Now(), depth, AtEachResult)
      ensures !open ==> unresolved
      decreases shape, schema, 0, 0
    {
      hide ClosureWalk, Outcome, Then, Deeper, PropertySchema, Child, ShapeProperties;
      var property := ShapeProperties(shape)[k];
      var declared := PropertySchema(schema, property.name);
      var child := Child(path, property.name);
      ghost var below := if declared.Some? then Deeper(ClosureWalk(property.shape, declared.value, child)) else Report(child);
      open := Consume(depth);
      ghost var counted := Now();
      OutcomeRoom(STEP, old(Now()), counted, depth, AtEachResult);
      if !open { OutcomeStop(STEP, below, old(Now()), counted, depth, AtEachResult); return; }
      if declared.Some? {
        VisitClosure(property.shape, declared.value, child, depth + 1);
        OutcomeDeeper(ClosureWalk(property.shape, declared.value, child), counted, Now(), depth, AtEachResult);
        OutcomeRoom(below, counted, Now(), depth, AtEachResult);
      } else if Get(schema, "additionalProperties") == Some(Bool(false)) {
        found := found + {child};
      }
      if |found| > MAX_PATHS { unresolved := true; open := false; }
      if declared.None? && Get(schema, "additionalProperties") == Some(Bool(false)) {
        OutcomeReport(child, counted, Now(), depth, AtEachResult);
      }
      if declared.Some? || Get(schema, "additionalProperties") == Some(Bool(false)) {
        OutcomeThen(STEP, below, old(Now()), counted, Now(), depth, AtEachResult);
      }
    }
  }

  // ---------- the comparisons ----------

  datatype Comparison = Compared(paths: seq<string>) | Unresolved

  const FRESH := Tally(0, false, {})

  /** Compared exactly when there is no excuse; then the list is the sorted, duplicate-free set of the walk. */
  predicate Refines(r: Comparison, w: Walk, check: LimitCheck) {
    && (r.Compared? <==> !Excused(w, FRESH, 0, check))
    && (r.Compared? ==> Strings.Increasing(r.paths) && Strings.Elements(r.paths) == w.paths)
  }

  lemma LimitsSaid(kind: BodyPaths.Kind, actual: Shape, expected: Json)
    ensures var a, w := BodyPaths.Place(actual, expected, ""), BodyPaths.WalkOf(kind, actual, expected);
      w.supported ==>
        && (BodyCosts.Affordable(kind, a) <==> w.steps <= 10000 && w.height <= 64)
        && (BodyCosts.FewPaths(kind, a) <==> |w.paths| <= 32)
  {
    hide BodyPaths.WalkOf, BodyCosts.Affordable, BodyCosts.FewPaths;
    if BodyPaths.WalkOf(kind, actual, expected).supported { BodyCosts.LimitsExactly(kind, actual, expected); }
  }

  method CompareResponseBodyTypes(actual: Shape, expected: Json) returns (r: Comparison)
    ensures Refines(r, TypeWalk(actual, expected, ""), AtEntry)
    ensures var a, w := BodyPaths.Place(actual, expected, ""), TypeWalk(actual, expected, "");
      && (r.Compared? <==>
            BodyPaths.AllSupported(BodyPaths.Types, a) && BodyCosts.Affordable(BodyPaths.Types, a) && |w.early| < 32)
      && (r.Compared? ==> forall p :: p in r.paths <==> BodyPaths.Found(BodyPaths.Types, a, p))
  {
    BodyPaths.PathsExactly(BodyPaths.Types, actual, expected);
    LimitsSaid(BodyPaths.Types, actual, expected);
    TypeWalkSteps(actual, expected, "");
    hide BodyPaths.AllSupported, BodyPaths.Found, BodyCosts.Affordable, BodyCosts.FewPaths, TypeWalk;
    var comparer := new Comparer();
    comparer.VisitType(actual, expected, "", 0);
    assert {} + TypeWalk(actual, expected, "").paths == TypeWalk(actual, expected, "").paths;
    assert {} + TypeWalk(actual, expected, "").early == TypeWalk(actual, expected, "").early;
    if comparer.unresolved { return Unresolved; }
    var listed := Strings.Sorted(comparer.found);
    r := Compared(listed);
    assert forall p :: p in listed <==> p in Strings.Elements(listed);
  }

  method CompareResponseBodyPresence(actual: Shape, expected: Json) returns (r: Comparison)
    ensures Refines(r, PresenceWalk(actual, expected, ""), AtEachResult)
    ensures r.Compared? ==> |r.paths| <= MAX_PATHS
    ensures var a := BodyPaths.Place(actual, expected, "");
      && (r.Compared? <==>
            && BodyPaths.AllSupported(BodyPaths.Presence, a)
            && BodyCosts.Affordable(BodyPaths.Presence, a) && BodyCosts.FewPaths(BodyPaths.Presence, a))
      && (r.Compared? ==> forall p :: p in r.paths <==> BodyPaths.Found(BodyPaths.Presence, a, p))
  {
    BodyPaths.PathsExactly(BodyPaths.Presence, actual, expected);
    LimitsSaid(BodyPaths.Presence, actual, expected);
    hide BodyPaths.AllSupported, BodyPaths.Found, BodyCosts.Affordable, BodyCosts.FewPaths, PresenceWalk;
    var comparer := new Comparer();
    comparer.VisitPresence(actual, expected, "", 0);
    assert {} + PresenceWalk(actual, expected, "").paths == PresenceWalk(actual, expected, "").paths;
    if comparer.unresolved { return Unresolved; }
    var listed := Strings.Sorted(comparer.found);
    r := Compared(listed);
    assert forall p :: p in listed <==> p in Strings.Elements(listed);
  }

  method CompareResponseBodyAdditionalProperties(actual: Shape, expected: Json) returns (r: Comparison)
    ensures Refines(r, ClosureWalk(actual, expected, ""), AtEachResult)
    ensures r.Compared? ==> |r.paths| <= MAX_PATHS
    ensures var a := BodyPaths.Place(actual, expected, "");
      && (r.Compared? <==>
            && BodyPaths.AllSupported(BodyPaths.Closure, a)
            && BodyCosts.Affordable(BodyPaths.Closure, a) && BodyCosts.FewPaths(BodyPaths.Closure, a))
      && (r.Compared? ==> forall p :: p in r.paths <==> BodyPaths.Found(BodyPaths.Closure, a, p))
  {
    BodyPaths.PathsExactly(BodyPaths.Closure, actual, expected);
    LimitsSaid(BodyPaths.Closure, actual, expected);
    hide BodyPaths.AllSupported, BodyPaths.Found, BodyCosts.Affordable, BodyCosts.FewPaths, ClosureWalk;
    var comparer := new Comparer();
    comparer.VisitClosure(actual, expected, "", 0);
    assert {} + ClosureWalk(actual, expected, "").paths == ClosureWalk(actual, expected, "").paths;
    if comparer.unresolved { return Unresolved; }
    var listed := Strings.Sorted(comparer.found);
    r := Compared(listed);
    assert forall p :: p in listed <==> p in Strings.Elements(listed);
  }
}
