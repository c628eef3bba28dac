/** What expanding the contained references of a response schema means, without budgets. */
module SchemaExpansion {
  import opened JsonValues
  import opened JsonPointer

  const DEFINITIONS := "#/definitions/"

  // ---------- one schema node ----------

  /** The branches of `allOf`; `None` for a composition that is not a list of 1 to 32 branches. */
  function Branches(schema: Json): (r: Option<seq<Json>>)
    ensures r.Some? ==> forall i :: 0 <= i < |r.value| ==> r.value[i] < schema
  {
    match Get(schema, "allOf")
    case None => Some([])
    case Some(Arr(items)) => if 1 <= |items| <= 32 then Some(items) else None
    case Some(_) => None
  }

  function Members(schema: Json): (r: Option<seq<Field>>)
    ensures r.Some? ==> forall i :: 0 <= i < |r.value| ==> r.value[i].value < schema
  {
    match Get(schema, "properties")
    case None => Some([])
    case Some(Obj(fields)) => if exists i :: 0 <= i < |fields| && Reserved(fields[i].key) then None else Some(fields)
    case Some(_) => None
  }

  function Values(fields: seq<Field>): (r: seq<Json>)
    ensures |r| == |fields|
    ensures forall i :: 0 <= i < |r| ==> r[i] == fields[i].value
  {
    seq(|fields|, i requires 0 <= i < |fields| => fields[i].value)
  }

  function ItemSchemas(schema: Json): (r: seq<Json>)
    ensures forall i :: 0 <= i < |r| ==> r[i] < schema
    ensures |r| == if Has(schema, "items") then 1 else 0
  {
    match Get(schema, "items")
    case None => []
    case Some(item) => [item]
  }

  /** The schemas directly below a reference-free node: branches, then properties, then items. */
  function Children(schema: Json): (r: Option<seq<Json>>)
    ensures r.Some? ==> forall i :: 0 <= i < |r.value| ==> r.value[i] < schema
  {
    match (Branches(schema), Members(schema))
    case (Some(branches), Some(members)) => Some(branches + Values(members) + ItemSchemas(schema))
    case _ => None
  }

  /** The node with its children replaced one for one; every other keyword is kept. */
  function Rebuild(schema: Json, children: seq<Json>): (r: Json)
    requires schema.Obj? && Children(schema).Some? && |children| == |Children(schema).value|
    ensures r.Obj?
  {
    var n, members := |Branches(schema).value|, Members(schema).value;
    var m := n + |members|;
    var composed := Replace(schema, "allOf", Arr(children[..n]));
    var typed := Replace(composed, "properties", Obj(Zip(members, children[n..m])));
    if m < |children| then Replace(typed, "items", children[m]) else typed
  }

  lemma RebuildGet(schema: Json, children: seq<Json>)
    requires schema.Obj? && Children(schema).Some? && |children| == |Children(schema).value|
    ensures var n, members := |Branches(schema).value|, Members(schema).value;
            var m := n + |members|;
            forall key :: Get(Rebuild(schema, children), key) ==
              if !Has(schema, key) then None
              else if key == "allOf" then Some(Arr(children[..n]))
              else if key == "properties" then Some(Obj(Zip(members, children[n..m])))
              else if key == "items" then Some(children[m])
              else Get(schema, key)
  {
  }

  lemma RebuildParts(schema: Json, children: seq<Json>)
    requires schema.Obj? && Children(schema).Some? && |children| == |Children(schema).value|
    ensures var n, members := |Branches(schema).value|, Members(schema).value;
            var r, m := Rebuild(schema, children), n + |members|;
            && Branches(r) == Some(children[..n])
            && Members(r) == Some(Zip(members, children[n..m]))
            && ItemSchemas(r) == children[m..]
  {
    hide Get, Rebuild, Zip;
    var n, members := |Branches(schema).value|, Members(schema).value;
    var m := n + |members|;
    var zipped := Zip(members, children[n..m]);
    RebuildGet(schema, children);
    var r := Rebuild(schema, children);
    BranchesFromGet(r, if Has(schema, "allOf") then Some(children[..n]) else None);
    MembersFromGet(r, if Has(schema, "properties") then Some(zipped) else None);
    assert ItemSchemas(r) == children[m..] by {
      assert |children| == m + |ItemSchemas(schema)|;
    }
  }

  lemma ThreeParts(children: seq<Json>, n: nat, m: nat)
    requires n <= m <= |children|
    ensures children[..n] + children[n..m] + children[m..] == children
  {
  }

  /** Rebuilding puts the given children exactly where the old ones were and touches nothing else. */
  lemma RebuildChildren(schema: Json, children: seq<Json>)
    requires schema.Obj? && Children(schema).Some? && |children| == |Children(schema).value|
    ensures Children(Rebuild(schema, children)) == Some(children)
    ensures forall key :: key !in {"allOf", "properties", "items"} ==> Get(Rebuild(schema, children), key) == Get(schema, key)
  {
    RebuildGet(schema, children);
    RebuildParts(schema, children);
    var n, members := |Branches(schema).value|, Members(schema).value;
    var m := n + |members|;
    var r := Rebuild(schema, children);
    assert Values(Members(r).value) == children[n..m];
    ThreeParts(children, n, m);
  }

  lemma BranchesFromGet(schema: Json, branches: Option<seq<Json>>)
    requires Get(schema, "allOf") == if branches.Some? then Some(Arr(branches.value)) else None
    requires branches.Some? ==> 1 <= |branches.value| <= 32
    ensures Branches(schema) == Some(if branches.Some? then branches.value else [])
  {
  }

  lemma MembersFromGet(schema: Json, members: Option<seq<Field>>)
    requires Get(schema, "properties") == if members.Some? then Some(Obj(members.value)) else None
    requires members.Some? ==> forall i :: 0 <= i < |members.value| ==> !Reserved(members.value[i].key)
    ensures Members(schema) == Some(if members.Some? then members.value else [])
  {
  }

  // ---------- references ----------

  /** The definition a reference node names, when the node is a lone, contained, well-formed reference. */
  function Referenced(schema: Json): Option<string> {
    match Get(schema, "$ref")
    case Some(Str(target)) =>
      if |schema.fields| != 1 || !(DEFINITIONS <= target) then None
      else
        var component := target[|DEFINITIONS|..];
        if AcceptedToken(component) then Some(Unescape(component)) else None
    case _ => None
  }

  predicate Known(definitions: Json, name: string) {
    !Reserved(name) && Has(definitions, name)
  }

  function DefinitionNames(definitions: Json): (names: set<string>)
    ensures forall name :: Has(definitions, name) ==> name in names
  {
    if definitions.Obj? then
      assert forall name :: Has(definitions, name) ==>
        var i := Find(definitions.fields, name); 0 <= i < |definitions.fields| && definitions.fields[i].key == name;
      set i | 0 <= i < |definitions.fields| :: definitions.fields[i].key
    else {}
  }

  /** The evidence pointer recorded for a definition. */
  function DefinitionPointer(name: string): string {
    "/definitions/" + Escape(name)
  }

  function Pointers(names: set<string>): set<string> {
    set name | name in names :: DefinitionPointer(name)
  }

  // ---------- expansion ----------

  /** The outcome with its price: nodes visited, levels below the start, definitions used. */
  datatype Expansion<+T> =
    | Unsupported
    | Expanded(result: T, names: set<string>, visits: nat, height: nat)

  /** One list after another: results in order, prices added. */
  function Then(a: Expansion<seq<Json>>, b: Expansion<seq<Json>>): Expansion<seq<Json>> {
    if a.Unsupported? || b.Unsupported? then Unsupported
    else Expanded(a.result + b.result, a.names + b.names, a.visits + b.visits,
                  if a.height > b.height then a.height else b.height)
  }

  /** A single child, one level below its parent. */
  function Below(z: Expansion<Json>): Expansion<seq<Json>> {
    if z.Unsupported? then Unsupported else Expanded([z.result], z.names, z.visits, z.height + 1)
  }

  /** The reference node itself, around the expansion of the definition it names. */
  function Through(name: string, z: Expansion<Json>): Expansion<Json> {
    if z.Unsupported? then Unsupported else Expanded(z.result, z.names + {name}, z.visits + 1, z.height + 1)
  }

  /** The node itself, around the expansions of its children. */
  function Around(schema: Json, all: Expansion<seq<Json>>): Expansion<Json>
    requires all.Expanded? ==> schema.Obj? && Children(schema).Some? && |all.result| == |Children(schema).value|
  {
    if all.Unsupported? then Unsupported
    else Expanded(Rebuild(schema, all.result), all.names, all.visits + 1, all.height)
  }

  /** Replace every contained reference by its definition; `active` are the definitions being expanded. */
  function Expand(definitions: Json, schema: Json, active: set<string>): (r: Expansion<Json>)
    decreases DefinitionNames(definitions) - active, schema, 1, 0
  {
    if !schema.Obj? then Unsupported
    else if Has(schema, "$ref") then
      match Referenced(schema)
      case None => Unsupported
      case Some(name) =>
        if !Known(definitions, name) || name in active then Unsupported
        else Through(name, Expand(definitions, Get(definitions, name).value, active + {name}))
    else
      match Children(schema)
      case None => Unsupported
      case Some(children) => Around(schema, ExpandAll(definitions, children, schema, active))
  }

  function ExpandAll(definitions: Json, schemas: seq<Json>, ghost parent: Json, active: set<string>): (r: Expansion<seq<Json>>)
    requires forall i :: 0 <= i < |schemas| ==> schemas[i] < parent
    ensures r.Expanded? ==> |r.result| == |schemas|
    decreases DefinitionNames(definitions) - active, parent, 0, |schemas|
  {
    if schemas == [] then Expanded([], {}, 0, 0)
    else
      var last := |schemas| - 1;
      Then(ExpandAll(definitions, schemas[..last], parent, active), Below(Expand(definitions, schemas[last], active)))
  }

  lemma {:induction false} ExpandAllAt(definitions: Json, schemas: seq<Json>, parent: Json, active: set<string>, i: nat)
    requires forall k :: 0 <= k < |schemas| ==> schemas[k] < parent
    requires ExpandAll(definitions, schemas, parent, active).Expanded? && i < |schemas|
    ensures Expand(definitions, schemas[i], active).Expanded?
    ensures Expand(definitions, schemas[i], active).result == ExpandAll(definitions, schemas, parent, active).result[i]
    ensures Expand(definitions, schemas[i], active).names <= ExpandAll(definitions, schemas, parent, active).names
    decreases |schemas|
  {
    hide Expand;
    var last := |schemas| - 1;
    if i < last {
      ExpandAllAt(definitions, schemas[..last], parent, active, i);
    }
  }

  lemma {:induction false} ExpandAllNames(definitions: Json, schemas: seq<Json>, parent: Json, active: set<string>, name: string)
    returns (i: nat)
    requires forall k :: 0 <= k < |schemas| ==> schemas[k] < parent
    requires ExpandAll(definitions, schemas, parent, active).Expanded?
    requires name in ExpandAll(definitions, schemas, parent, active).names
    ensures i < |schemas| && Expand(definitions, schemas[i], active).Expanded?
    ensures name in Expand(definitions, schemas[i], active).names
    decreases |schemas|
  {
    var last := |schemas| - 1;
    if name in Expand(definitions, schemas[last], active).names {
      i := last;
    } else {
      i := ExpandAllNames(definitions, schemas[..last], parent, active, name);
    }
  }

  // ---------- no reference survives ----------

  /** No `$ref` at any node reached by allOf, properties and items. */
  ghost predicate ReferenceFree(schema: Json)
    decreases schema
  {
    && schema.Obj? && !Has(schema, "$ref")
    && Children(schema).Some?
    && forall i :: 0 <= i < |Children(schema).value| ==> ReferenceFree(Children(schema).value[i])
  }

  lemma {:induction false} ExpansionIsReferenceFree(definitions: Json, schema: Json, active: set<string>)
    requires Expand(definitions, schema, active).Expanded?
    ensures ReferenceFree(Expand(definitions, schema, active).result)
    decreases DefinitionNames(definitions) - active, schema
  {
    if Has(schema, "$ref") {
      var name := Referenced(schema).value;
      ExpansionIsReferenceFree(definitions, Get(definitions, name).value, active + {name});
    } else {
      var children := Children(schema).value;
      var results := ExpandAll(definitions, children, schema, active).result;
      RebuildChildren(schema, results);
      forall i | 0 <= i < |results| ensures ReferenceFree(results[i]) {
        ExpandAllAt(definitions, children, schema, active, i);
        ExpansionIsReferenceFree(definitions, children[i], active);
      }
    }
  }

  // ---------- reference chains ----------

  /** Definitions named at the nodes of a schema, without following them. */
  ghost function DirectReferences(schema: Json): set<string>
    decreases schema
  {
    if !schema.Obj? then {}
    else if Has(schema, "$ref") then
      match Referenced(schema) case None => {} case Some(name) => {name}
    else
      match Children(schema)
      case None => {}
      case Some(children) => set i, name | 0 <= i < |children| && name in DirectReferences(children[i]) :: name
  }

  /** `chain` follows references: each name is referenced by the definition of the one before it. */
  ghost predicate IsChain(definitions: Json, schema: Json, chain: seq<string>)
    decreases |chain|
  {
    chain == [] ||
    (chain[0] in DirectReferences(schema) && Has(definitions, chain[0])
     && IsChain(definitions, Get(definitions, chain[0]).value, chain[1..]))
  }

  lemma {:induction false} DirectReferenceExpands(definitions: Json, schema: Json, active: set<string>, name: string)
    requires Expand(definitions, schema, active).Expanded?
    requires name in DirectReferences(schema)
    ensures name !in active && Known(definitions, name)
    ensures name in Expand(definitions, schema, active).names
    ensures Expand(definitions, Get(definitions, name).value, active + {name}).Expanded?
    ensures Expand(definitions, Get(definitions, name).value, active + {name}).names
         <= Expand(definitions, schema, active).names
    decreases schema
  {
    if !Has(schema, "$ref") {
      var children := Children(schema).value;
      var i :| 0 <= i < |children| && name in DirectReferences(children[i]);
      ExpandAllAt(definitions, children, schema, active, i);
      DirectReferenceExpands(definitions, children[i], active, name);
    }
  }

  /** An expandable schema has no reference cycle below it: no chain ever repeats a definition. */
  lemma {:induction false} ChainsNeverRepeat(definitions: Json, schema: Json, active: set<string>, chain: seq<string>)
    requires Expand(definitions, schema, active).Expanded?
    requires IsChain(definitions, schema, chain)
    ensures forall i :: 0 <= i < |chain| ==> chain[i] !in active
    ensures forall i, j :: 0 <= i < j < |chain| ==> chain[i] != chain[j]
    ensures forall i :: 0 <= i < |chain| ==> chain[i] in Expand(definitions, schema, active).names
    decreases |chain|
  {
    hide Expand;
    if chain != [] {
      var name := chain[0];
      DirectReferenceExpands(definitions, schema, active, name);
      ChainsNeverRepeat(definitions, Get(definitions, name).value, active + {name}, chain[1..]);
      assert forall i :: 1 <= i < |chain| ==> chain[i] == chain[1..][i - 1];
    }
  }

  /** Every definition an expansion used is at the end of a chain from the schema. */
  lemma {:induction false} NamesAreReached(definitions: Json, schema: Json, active: set<string>, name: string)
    returns (chain: seq<string>)
    requires Expand(definitions, schema, active).Expanded?
    requires name in Expand(definitions, schema, active).names
    ensures IsChain(definitions, schema, chain) && chain != [] && chain[|chain| - 1] == name
    decreases DefinitionNames(definitions) - active, schema
  {
    if Has(schema, "$ref") {
      var first := Referenced(schema).value;
      if first == name {
        chain := [name];
      } else {
        var rest := NamesAreReached(definitions, Get(definitions, first).value, active + {first}, name);
        chain := [first] + rest;
        assert chain[1..] == rest;
      }
    } else {
      var children := Children(schema).value;
      var i := ExpandAllNames(definitions, children, schema, active, name);
      chain := NamesAreReached(definitions, children[i], active, name);
      assert chain[0] in DirectReferences(schema);
    }
  }

  /** The definitions used are exactly those some chain from the schema ends in. */
  lemma NamesAreExactlyReached(definitions: Json, schema: Json, name: string)
    requires Expand(definitions, schema, {}).Expanded?
    ensures name in Expand(definitions, schema, {}).names <==>
      exists chain :: IsChain(definitions, schema, chain) && chain != [] && chain[|chain| - 1] == name
  {
    if name in Expand(definitions, schema, {}).names {
      var chain := NamesAreReached(definitions, schema, {}, name);
    }
    forall chain | IsChain(definitions, schema, chain) && chain != [] && chain[|chain| - 1] == name
      ensures name in Expand(definitions, schema, {}).names
    {
      ChainsNeverRepeat(definitions, schema, {}, chain);
    }
  }

  /** Hence a reachable reference cycle is never expanded. */
  lemma CycleIsUnsupported(definitions: Json, schema: Json, chain: seq<string>)
    requires IsChain(definitions, schema, chain)
    requires exists i, j :: 0 <= i < j < |chain| && chain[i] == chain[j]
    ensures Expand(definitions, schema, {}).Unsupported?
  {
    if Expand(definitions, schema, {}).Expanded? {
      ChainsNeverRepeat(definitions, schema, {}, chain);
      assert false;
    }
  }
}
