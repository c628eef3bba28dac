/** The projection check with its budget, and the projection it guards. */
module SchemaProjectionCheck {
  import opened JsonValues
  import opened JsonPointer
  import opened CanonicalJson
  import opened SchemaProjection

  // ---------- what a check costs ----------

  /** The component a followed reference leads to. */
  ghost predicate Follows(schemas: Json, input: Json, active: set<string>) {
    && IsReference(input) && CleanReference(input)
    && ReferencedName(ReferenceText(input)).value !in active
    && Has(schemas, ReferencedName(ReferenceText(input)).value)
  }

  function Target(schemas: Json, input: Json): Json
    requires IsReference(input) && CleanReference(input) && Has(schemas, ReferencedName(ReferenceText(input)).value)
  {
    Get(schemas, ReferencedName(ReferenceText(input)).value).value
  }

  /** Visits without a budget: unsafe children are no reason to stop. */
  ghost function Visits(schemas: Json, input: Json, active: set<string>, depth: nat): (n: nat)
    ensures n > 0
    decreases Names(schemas) - active, input
  {
    if !input.Obj? || depth > MAX_DEPTH then 1
    else if IsReference(input) then
      if Follows(schemas, input, active) then
        var name := ReferencedName(ReferenceText(input)).value;
        NamedIsPresent(schemas, name);
        1 + Visits(schemas, Target(schemas, input), active + {name}, depth + 1)
      else 1
    else 1 + VisitsAll(schemas, input, AllKids(input), active, depth)
  }

  ghost function VisitsAll(schemas: Json, parent: Json, kids: seq<Json>, active: set<string>, depth: nat): nat
    requires forall i :: 0 <= i < |kids| ==> kids[i] < parent
    decreases Names(schemas) - active, parent, |kids|
  {
    if kids == [] then 0
    else Visits(schemas, kids[0], active, depth + 1) + VisitsAll(schemas, parent, kids[1..], active, depth)
  }

  ghost predicate AllProject(host: Host, schemas: Json, kids: seq<Json>, active: set<string>, depth: nat) {
    forall i :: 0 <= i < |kids| ==> Projects(host, schemas, kids[i], active, depth + 1)
  }

  /** A visit's answer and the count it leaves: exact within the budget, refused beyond it. */
  predicate Answered(safe: bool, before: nat, after: nat, projects: bool, visits: nat) {
    if before + visits <= MAX_NODES then after == before + visits && safe == projects
    else after > MAX_NODES && !safe
  }

  lemma ReferenceProjects(host: Host, schemas: Json, input: Json, active: set<string>, depth: nat)
    requires input.Obj? && depth <= MAX_DEPTH && IsReference(input)
    ensures Follows(schemas, input, active) ==>
      var name := ReferencedName(ReferenceText(input)).value;
      && name in Names(schemas)
      && (Projects(host, schemas, input, active, depth) <==> Projects(host, schemas, Target(schemas, input), active + {name}, depth + 1))
      && Visits(schemas, input, active, depth) == 1 + Visits(schemas, Target(schemas, input), active + {name}, depth + 1)
    ensures !Follows(schemas, input, active) ==>
      && (Projects(host, schemas, input, active, depth) <==>
            CleanReference(input) && ReferencedName(ReferenceText(input)).value in active)
      && Visits(schemas, input, active, depth) == 1
  {
    if CleanReference(input) { NamedIsPresent(schemas, ReferencedName(ReferenceText(input)).value); }
  }

  lemma NodeProjects(host: Host, schemas: Json, input: Json, active: set<string>, depth: nat)
    requires input.Obj? && depth <= MAX_DEPTH && !IsReference(input)
    ensures Projects(host, schemas, input, active, depth) <==>
      NodeFine(host, input) && AllProject(host, schemas, AllKids(input), active, depth)
    ensures Visits(schemas, input, active, depth) == 1 + VisitsAll(schemas, input, AllKids(input), active, depth)
  {
    hide NodeFine, AllKids;
  }

  lemma {:induction false} VisitsConcat(schemas: Json, parent: Json, a: seq<Json>, b: seq<Json>, active: set<string>, depth: nat)
    requires (forall i :: 0 <= i < |a| ==> a[i] < parent) && (forall i :: 0 <= i < |b| ==> b[i] < parent)
    ensures VisitsAll(schemas, parent, a + b, active, depth)
         == VisitsAll(schemas, parent, a, active, depth) + VisitsAll(schemas, parent, b, active, depth)
  {
    hide Visits;
    if a == [] {
      assert a + b == b;
    } else {
      assert (a + b)[1..] == a[1..] + b;
      VisitsConcat(schemas, parent, a[1..], b, active, depth);
    }
  }

  class Projector {
    const host: Host
    const schemas: Json
    var schemaProjectionNodes: nat

    constructor (host: Host, schemas: Json)
      ensures this.host == host && this.schemas == schemas && schemaProjectionNodes == 0
    {
      this.host, this.schemas, schemaProjectionNodes := host, schemas, 0;
    }

    method SchemaCanProject(input: Json, active: set<string>, depth: nat) returns (safe: bool)
      modifies this
      ensures Answered(safe, old(schemaProjectionNodes), schemaProjectionNodes,
                       Projects(host, schemas, input, active, depth), Visits(schemas, input, active, depth))
      decreases Names(schemas) - active, input, 3
    {
      hide NodeFine, AllKids, CleanReference, ReferencedName, ReferenceText;
      schemaProjectionNodes := schemaProjectionNodes + 1;
      if schemaProjectionNodes > MAX_NODES { return false; }
      if !input.Obj? || depth > MAX_DEPTH { return false; }
      if IsReference(input) {
        safe := FollowReference(input, active, depth);
      } else {
        NodeProjects(host, schemas, input, active, depth);
        hide Projects, Visits;
        var fine := NodeFine(host, input);
        var kids := VisitKids(input, active, depth);
        return fine && kids;
      }
    }

    method FollowReference(input: Json, active: set<string>, depth: nat) returns (safe: bool)
      requires input.Obj? && depth <= MAX_DEPTH && IsReference(input)
      requires schemaProjectionNodes <= MAX_NODES
      modifies this
      ensures Answered(safe, old(schemaProjectionNodes), schemaProjectionNodes,
                       Projects(host, schemas, input, active, depth), Visits(schemas, input, active, depth) - 1)
      decreases Names(schemas) - active, input, 2
    {
      ReferenceProjects(host, schemas, input, active, depth);
      hide Projects, Visits, CleanReference;
      if !CleanReference(input) { return false; }
      var name := ReferencedName(ReferenceText(input)).value;
      if name in active { return true; }
      if !Has(schemas, name) { return false; }
      safe := SchemaCanProject(Get(schemas, name).value, active + {name}, depth + 1);
    }

    /** The loop over the nested keywords and, under each, over its schemas. */
    method VisitKids(input: Json, active: set<string>, depth: nat) returns (safe: bool)
      requires input.Obj? && schemaProjectionNodes <= MAX_NODES
      modifies this
      ensures Answered(safe, old(schemaProjectionNodes), schemaProjectionNodes,
                       AllProject(host, schemas, AllKids(input), active, depth),
                       VisitsAll(schemas, input, AllKids(input), active, depth))
      decreases Names(schemas) - active, input, 1
    {
      var kids := AllKids(input);
      hide Projects, Visits, VisitsAll, AllKids;
      NoVisits(schemas, input, active, depth);
      safe := true;
      var k := 0;
      assert kids[..0] == [];
      while k < |kids|
        invariant 0 <= k <= |kids|
        invariant Answered(safe, old(schemaProjectionNodes), schemaProjectionNodes,
                           AllProject(host, schemas, kids[..k], active, depth),
                           VisitsAll(schemas, input, kids[..k], active, depth))
      {
        var child := SchemaCanProject(kids[k], active, depth + 1);
        if !child { safe := false; }
        assert kids[..k + 1] == kids[..k] + [kids[k]];
        VisitsConcat(schemas, input, kids[..k], [kids[k]], active, depth);
        OneVisit(schemas, input, kids[k], active, depth);
        k := k + 1;
      }
      assert kids[..k] == kids;
    }

    /** The check and, if it passes, the translation, which then adds no diagnostic. */
    method ProjectSchema(input: Json) returns (projected: Option<Json>)
      modifies this
      ensures var visits := Visits(schemas, input, {}, 0);
        && (projected.Some? <==> Projects(host, schemas, input, {}, 0) && old(schemaProjectionNodes) + visits <= MAX_NODES)
        && (if old(schemaProjectionNodes) + visits <= MAX_NODES then schemaProjectionNodes == old(schemaProjectionNodes) + visits
            else schemaProjectionNodes > MAX_NODES)
      ensures projected.Some? ==> ProjectedFrom(host, schemas, input, projected.value)
    {
      hide Projects, Visits, Translate, CopyOf, TextReferences;
      var safe := SchemaCanProject(input, {}, 0);
      if !safe { return None; }
      ProjectsTranslates(host, schemas, input, {}, 0);
      CopiedExactly(host, schemas, input, {}, 0);
      return Translate(host, schemas, input, 0);
    }
  }

  lemma NoVisits(schemas: Json, parent: Json, active: set<string>, depth: nat)
    ensures VisitsAll(schemas, parent, [], active, depth) == 0
  {
  }

  lemma OneVisit(schemas: Json, parent: Json, kid: Json, active: set<string>, depth: nat)
    requires kid < parent
    ensures VisitsAll(schemas, parent, [kid], active, depth) == Visits(schemas, kid, active, depth + 1) > 0
  {
    hide Visits;
    NoVisits(schemas, parent, active, depth);
    assert [kid][1..] == [];
  }

  // ---------- projecting ----------

  /** What projecting these schemas one after the other costs. */
  ghost function TotalVisits(schemas: Json, inputs: seq<Json>): nat {
    if inputs == [] then 0
    else TotalVisits(schemas, inputs[..|inputs| - 1]) + Visits(schemas, inputs[|inputs| - 1], {}, 0)
  }

  /** A projected schema loses nothing exactly unless a reference below is not text. */
  ghost predicate ProjectedFrom(host: Host, schemas: Json, input: Json, output: Json) {
    && Translate(host, schemas, input, 0) == Some(output)
    && (CopyOf(host, input, output) <==> TextReferences(input))
  }

  /**
   * All schemas of a document, checked on one count: each is projected exactly if it is projectable and the visits up
   * to and including its own fit, and then nothing is lost unless a reference below is not text.
   */
  method ProjectSchemas(host: Host, schemas: Json, inputs: seq<Json>) returns (outputs: seq<Option<Json>>)
    ensures |outputs| == |inputs|
    ensures forall i :: 0 <= i < |inputs| ==>
      (outputs[i].Some? <==> Projects(host, schemas, inputs[i], {}, 0) && TotalVisits(schemas, inputs[..i + 1]) <= MAX_NODES)
    ensures forall i :: 0 <= i < |inputs| && outputs[i].Some? ==> ProjectedFrom(host, schemas, inputs[i], outputs[i].value)
  {
    hide Projects, Visits, ProjectedFrom;
    var projector := new Projector(host, schemas);
    outputs := [];
    assert inputs[..0] == [];
    while |outputs| < |inputs|
      invariant |outputs| <= |inputs| && projector.host == host && projector.schemas == schemas
      invariant var total := TotalVisits(schemas, inputs[..|outputs|]);
        if total <= MAX_NODES then projector.schemaProjectionNodes == total else projector.schemaProjectionNodes > MAX_NODES
      invariant forall i :: 0 <= i < |outputs| ==>
        (outputs[i].Some? <==> Projects(host, schemas, inputs[i], {}, 0) && TotalVisits(schemas, inputs[..i + 1]) <= MAX_NODES)
      invariant forall i :: 0 <= i < |outputs| && outputs[i].Some? ==> ProjectedFrom(host, schemas, inputs[i], outputs[i].value)
    {
      var k := |outputs|;
      assert inputs[..k + 1][..k] == inputs[..k];
      var output := projector.ProjectSchema(inputs[k]);
      outputs := outputs + [output];
    }
  }

  /** Two schemas projected to the same output are the same up to key order: inverting the renaming recovers the input. */
  lemma ProjectionIsInvertible(host: Host, schemas: Json, a: Json, b: Json, output: Json)
    requires Distinguishing(host) && Projects(host, schemas, a, {}, 0) && Projects(host, schemas, b, {}, 0)
    requires TextReferences(a) && TextReferences(b)
    requires Translate(host, schemas, a, 0) == Some(output) && Translate(host, schemas, b, 0) == Some(output)
    ensures SameJson(a, b)
  {
    CopiedExactly(host, schemas, a, {}, 0);
    CopiedExactly(host, schemas, b, {}, 0);
    ProjectsIsClean(host, schemas, a, {}, 0);
    ProjectsIsClean(host, schemas, b, {}, 0);
    CopyRestored(host, a, b, output);
  }

  /** A reference that is not text passes the check and is dropped from the output. */
  lemma OddReferenceIsLost(host: Host, schemas: Json)
    ensures var input := Obj([Field("$ref", Bool(true))]);
      && Projects(host, schemas, input, {}, 0)
      && Translate(host, schemas, input, 0) == Some(Obj([]))
      && !CopyOf(host, input, Obj([]))
  {
    var input := Obj([Field("$ref", Bool(true))]);
    assert input.fields[0].key == "$ref";
    OnlyOneKey(input, "$ref");
    NothingElse(host, input);
    NoReferenceKeyword();
    NoKids(input, NESTED);
    NoFields(host, schemas, input, KEYWORDS);
    NodeProjects(host, schemas, input, {}, 0);
    hide NodeFine, Projects, Translatable;
    assert "$ref" in Keys(input) && Keys(Obj([])) == {};
  }

  lemma OnlyOneKey(input: Json, key: string)
    requires input.Obj? && |input.fields| == 1 && input.fields[0].key == key
    ensures forall other :: other != key ==> Get(input, other) == None
    ensures Get(input, key) == Some(input.fields[0].value) && Keys(input) == {key}
  {
    assert input.fields[1..] == [];
  }

  lemma NothingElse(host: Host, input: Json)
    requires input == Obj([Field("$ref", Bool(true))]) && forall other :: other != "$ref" ==> Get(input, other) == None
    ensures NodeFine(host, input) && Translatable(input)
  {
    hide Get;
  }

  lemma {:induction false} NoKids(input: Json, keys: seq<string>)
    requires (forall other :: other != "$ref" ==> Get(input, other) == None) && Get(input, "$ref").Some?
    ensures KidsOf(input, keys) == []
  {
    hide Get;
    if keys != [] { NoKids(input, keys[1..]); }
  }

  lemma {:induction false} NoFields(host: Host, schemas: Json, input: Json, keys: seq<string>)
    requires (forall other :: other != "$ref" ==> Get(input, other) == None) && "$ref" !in keys
    ensures TranslateKeys(host, schemas, input, keys, 0) == Some([])
  {
    hide Get, TranslateValue;
    if keys != [] { NoFields(host, schemas, input, keys[1..]); }
  }
}
