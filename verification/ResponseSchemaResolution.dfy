/** The budgeted resolver of contained references, proved against `SchemaExpansion.Expand`. */
module ResponseSchemaResolution {
  import opened JsonValues
  import opened SchemaExpansion
  import JsonPointer
  import SchemaRoutes
  import Strings

  const MAX_NODES := 10000
  const MAX_DEPTH := 64
  const MAX_POINTERS := 128

  /** The expansion exists and stays within every budget left. */
  predicate Fits<T>(e: Expansion<T>, nodes: nat, depth: nat, pointers: set<string>) {
    && e.Expanded?
    && nodes + e.visits <= MAX_NODES
    && depth + e.height <= MAX_DEPTH
    && |pointers + Pointers(e.names)| <= MAX_POINTERS
  }

  lemma PointersUnion(a: set<string>, b: set<string>)
    ensures Pointers(a + b) == Pointers(a) + Pointers(b)
  {
  }

  lemma ThenNothing(a: Expansion<seq<Json>>)
    ensures Then(a, Expanded([], {}, 0, 0)) == a
    ensures Then(Expanded([], {}, 0, 0), a) == a
  {
    if a.Expanded? {
      assert a.result + [] == a.result == [] + a.result && a.names + {} == a.names == {} + a.names;
    }
  }

  lemma ThenAssociative(a: Expansion<seq<Json>>, b: Expansion<seq<Json>>, c: Expansion<seq<Json>>)
    ensures Then(Then(a, b), c) == Then(a, Then(b, c))
  {
    if a.Expanded? && b.Expanded? && c.Expanded? {
      assert a.result + b.result + c.result == a.result + (b.result + c.result);
      assert a.names + b.names + c.names == a.names + (b.names + c.names);
    }
  }

  lemma {:induction false} ExpandAllAppend(definitions: Json, xs: seq<Json>, ys: seq<Json>, parent: Json, active: set<string>)
    requires forall i :: 0 <= i < |xs| ==> xs[i] < parent
    requires forall i :: 0 <= i < |ys| ==> ys[i] < parent
    ensures ExpandAll(definitions, xs + ys, parent, active)
         == Then(ExpandAll(definitions, xs, parent, active), ExpandAll(definitions, ys, parent, active))
    decreases |ys|
  {
    hide Expand, Then, Below;
    var a := ExpandAll(definitions, xs, parent, active);
    if ys == [] {
      assert xs + ys == xs;
      ThenNothing(a);
    } else {
      var last := |ys| - 1;
      assert (xs + ys)[..|xs + ys| - 1] == xs + ys[..last];
      ExpandAllAppend(definitions, xs, ys[..last], parent, active);
      ThenAssociative(a, ExpandAll(definitions, ys[..last], parent, active), Below(Expand(definitions, ys[last], active)));
    }
  }

  /** Fitting one part after another is fitting both at once. */
  lemma FitsThen(a: Expansion<seq<Json>>, b: Expansion<seq<Json>>, nodes: nat, depth: nat, pointers: set<string>)
    ensures Fits(Then(a, b), nodes, depth, pointers) <==>
      Fits(a, nodes, depth, pointers) && Fits(b, nodes + a.visits, depth, pointers + Pointers(a.names))
    ensures a.Expanded? && b.Expanded? ==>
      pointers + Pointers(Then(a, b).names) == pointers + Pointers(a.names) + Pointers(b.names)
  {
    hide Pointers;
    if a.Expanded? && b.Expanded? {
      PointersUnion(a.names, b.names);
      assert pointers + Pointers(a.names + b.names) == pointers + Pointers(a.names) + Pointers(b.names);
      Strings.CardinalityMonotone(pointers + Pointers(a.names), pointers + Pointers(a.names + b.names));
    }
  }

  lemma ExpandAllNone(definitions: Json, parent: Json, active: set<string>)
    ensures ExpandAll(definitions, [], parent, active) == Expanded([], {}, 0, 0)
  {
  }

  lemma ExpandAllOne(definitions: Json, schema: Json, parent: Json, active: set<string>)
    requires schema < parent
    ensures ExpandAll(definitions, [schema], parent, active) == Below(Expand(definitions, schema, active))
  {
    assert [schema][..0] == [];
    assert ExpandAll(definitions, [], parent, active) == Expanded([], {}, 0, 0);
    ThenNothing(Below(Expand(definitions, schema, active)));
  }

  lemma FitsBelow(z: Expansion<Json>, nodes: nat, depth: nat, pointers: set<string>)
    ensures Fits(Below(z), nodes, depth, pointers) <==> Fits(z, nodes, depth + 1, pointers)
  {
  }

  lemma FitsAround(schema: Json, all: Expansion<seq<Json>>, nodes: nat, depth: nat, pointers: set<string>)
    requires all.Expanded? ==> schema.Obj? && Children(schema).Some? && |all.result| == |Children(schema).value|
    ensures Fits(Around(schema, all), nodes, depth, pointers) <==> Fits(all, nodes + 1, depth, pointers)
  {
    hide Rebuild, Children;
  }

  lemma FitsThrough(name: string, z: Expansion<Json>, nodes: nat, depth: nat, pointers: set<string>)
    ensures Fits(Through(name, z), nodes, depth, pointers) <==>
      && |pointers + {DefinitionPointer(name)}| <= MAX_POINTERS
      && Fits(z, nodes + 1, depth + 1, pointers + {DefinitionPointer(name)})
    ensures z.Expanded? ==>
      pointers + Pointers(Through(name, z).names) == pointers + {DefinitionPointer(name)} + Pointers(z.names)
  {
    if z.Expanded? {
      assert Pointers(z.names + {name}) == Pointers(z.names) + {DefinitionPointer(name)};
      var all := pointers + Pointers(z.names + {name});
      assert all == pointers + {DefinitionPointer(name)} + Pointers(z.names);
      Strings.CardinalityMonotone(pointers + {DefinitionPointer(name)}, all);
    }
  }

  lemma ExpandReference(definitions: Json, schema: Json, active: set<string>)
    requires schema.Obj? && Has(schema, "$ref")
    ensures Expand(definitions, schema, active) ==
      match Referenced(schema)
      case None => Unsupported
      case Some(name) =>
        if !Known(definitions, name) || name in active then Unsupported
        else Through(name, Expand(definitions, Get(definitions, name).value, active + {name}))
  {
  }

  lemma ExpandNode(definitions: Json, schema: Json, active: set<string>)
    requires schema.Obj? && !Has(schema, "$ref")
    ensures Expand(definitions, schema, active) ==
      match Children(schema)
      case None => Unsupported
      case Some(children) => Around(schema, ExpandAll(definitions, children, schema, active))
  {
  }

  lemma VisitCost(definitions: Json, schema: Json, active: set<string>)
    ensures var e := Expand(definitions, schema, active); e.Expanded? ==> schema.Obj? && e.visits >= 1
  {
  }

  /** One more element: the prefix grows by exactly that element's expansion, and a misfit is final. */
  lemma ExtendFit(definitions: Json, schemas: seq<Json>, k: nat, parent: Json, active: set<string>,
                  depth: nat, nodes: nat, pointers: set<string>)
    requires forall i :: 0 <= i < |schemas| ==> schemas[i] < parent
    requires k < |schemas|
    requires Fits(ExpandAll(definitions, schemas[..k], parent, active), nodes, depth, pointers)
    ensures var a, z, b := ExpandAll(definitions, schemas[..k], parent, active), Expand(definitions, schemas[k], active),
              ExpandAll(definitions, schemas[..k + 1], parent, active);
            && b == Then(a, Below(z))
            && (Fits(b, nodes, depth, pointers) <==> Fits(z, nodes + a.visits, depth + 1, pointers + Pointers(a.names)))
            && (Fits(ExpandAll(definitions, schemas, parent, active), nodes, depth, pointers) ==> Fits(b, nodes, depth, pointers))
            && (z.Expanded? ==> pointers + Pointers(b.names) == pointers + Pointers(a.names) + Pointers(z.names))
  {
    hide Expand, ExpandAll, Pointers;
    var a, z, b, rest := ExpandAll(definitions, schemas[..k], parent, active), Expand(definitions, schemas[k], active),
      ExpandAll(definitions, schemas[..k + 1], parent, active), ExpandAll(definitions, schemas[k + 1..], parent, active);
    assert schemas[..k + 1] == schemas[..k] + [schemas[k]];
    assert schemas == schemas[..k + 1] + schemas[k + 1..];
    ExpandAllOne(definitions, schemas[k], parent, active);
    ExpandAllAppend(definitions, schemas[..k], [schemas[k]], parent, active);
    ExpandAllAppend(definitions, schemas[..k + 1], schemas[k + 1..], parent, active);
    ExtendPrices(a, z, rest, nodes, depth, pointers);
  }

  lemma ExtendPrices(a: Expansion<seq<Json>>, z: Expansion<Json>, rest: Expansion<seq<Json>>,
                     nodes: nat, depth: nat, pointers: set<string>)
    requires Fits(a, nodes, depth, pointers)
    ensures var b := Then(a, Below(z));
            && (Fits(b, nodes, depth, pointers) <==> Fits(z, nodes + a.visits, depth + 1, pointers + Pointers(a.names)))
            && (Fits(Then(b, rest), nodes, depth, pointers) ==> Fits(b, nodes, depth, pointers))
            && (z.Expanded? ==> pointers + Pointers(b.names) == pointers + Pointers(a.names) + Pointers(z.names))
  {
    hide Pointers;
    var b := Then(a, Below(z));
    FitsThen(a, Below(z), nodes, depth, pointers);
    FitsBelow(z, nodes + a.visits, depth, pointers + Pointers(a.names));
    assert Fits(Then(b, rest), nodes, depth, pointers) ==> Fits(b, nodes, depth, pointers) by {
      FitsThen(b, rest, nodes, depth, pointers);
    }
  }

  lemma NoPointers(pointers: set<string>)
    ensures pointers + Pointers({}) == pointers
  {
  }

  /** A node fits exactly when its three parts fit one after the other. */
  lemma NodeFits(definitions: Json, schema: Json, active: set<string>, nodes: nat, depth: nat, pointers: set<string>)
    requires schema.Obj? && !Has(schema, "$ref") && nodes >= 1
    ensures var e := Expand(definitions, schema, active);
            if Branches(schema).None? || Members(schema).None? then e.Unsupported?
            else
              var a := ExpandAll(definitions, Branches(schema).value, schema, active);
              var b := ExpandAll(definitions, Values(Members(schema).value), schema, active);
              var c := ExpandAll(definitions, ItemSchemas(schema), schema, active);
              && (Fits(e, nodes - 1, depth, pointers) <==>
                  && Fits(a, nodes, depth, pointers)
                  && Fits(b, nodes + a.visits, depth, pointers + Pointers(a.names))
                  && Fits(c, nodes + a.visits + b.visits, depth, pointers + Pointers(a.names) + Pointers(b.names)))
              && (a.Expanded? && b.Expanded? && c.Expanded? ==>
                  && e.Expanded? && |a.result + b.result + c.result| == |Children(schema).value|
                  && e.result == Rebuild(schema, a.result + b.result + c.result)
                  && nodes - 1 + e.visits == nodes + a.visits + b.visits + c.visits
                  && pointers + Pointers(e.names)
                     == pointers + Pointers(a.names) + Pointers(b.names) + Pointers(c.names))
  {
    hide Expand, ExpandAll, Pointers, Rebuild, Branches, Members, ItemSchemas, Values;
    ExpandNode(definitions, schema, active);
    if Branches(schema).Some? && Members(schema).Some? {
      var bs, vs, its := Branches(schema).value, Values(Members(schema).value), ItemSchemas(schema);
      ExpandAllAppend(definitions, bs, vs, schema, active);
      ExpandAllAppend(definitions, bs + vs, its, schema, active);
      var a, b, c := ExpandAll(definitions, bs, schema, active), ExpandAll(definitions, vs, schema, active),
        ExpandAll(definitions, its, schema, active);
      FitsThen(a, b, nodes, depth, pointers);
      FitsThen(Then(a, b), c, nodes, depth, pointers);
      FitsAround(schema, Then(Then(a, b), c), nodes - 1, depth, pointers);
    }
  }

  lemma RebuildInOrder(schema: Json, bs: seq<Json>, vs: seq<Json>, its: seq<Json>)
    requires schema.Obj? && Children(schema).Some?
    requires |bs| == |Branches(schema).value| && |vs| == |Members(schema).value| && |its| == |ItemSchemas(schema)|
    ensures var composed := Replace(schema, "allOf", Arr(bs));
            var typed := Replace(composed, "properties", Obj(Zip(Members(schema).value, vs)));
            Rebuild(schema, bs + vs + its) == if its != [] then Replace(typed, "items", its[0]) else typed
  {
    hide Replace, Branches, Members, ItemSchemas, Zip;
    var children := bs + vs + its;
    assert children[..|bs|] == bs;
    assert children[|bs|..|bs| + |vs|] == vs;
  }

  lemma KnownPointer(definitions: Json, name: string)
    requires Known(definitions, name)
    ensures DefinitionPointer(name) in Pointers(DefinitionNames(definitions))
  {
    hide DefinitionPointer;
    assert name in DefinitionNames(definitions);
  }

  class Resolver {
    const definitions: Json
    var nodes: nat
    var pointers: set<string>
    var active: set<string>

    constructor (definitions: Json)
      ensures this.definitions == definitions && nodes == 0 && pointers == {} && active == {} && OnlyKnown()
    {
      this.definitions := definitions;
      nodes, pointers, active := 0, {}, {};
    }

    /** Every recorded pointer is that of a definition there is. */
    ghost predicate OnlyKnown()
      reads this
    {
      pointers <= Pointers(DefinitionNames(definitions)) && |pointers| <= MAX_POINTERS + 1
    }

    /** The state after a successful visit: the result, and what the visit cost. */
    ghost predicate Took<T>(e: Expansion<T>, result: T, nodes0: nat, active0: set<string>, pointers0: set<string>)
      reads this
    {
      && e.Expanded? && result == e.result && active == active0
      && nodes == nodes0 + e.visits && pointers == pointers0 + Pointers(e.names)
    }

    /** Visit one schema; `None` is the exception that abandons the whole resolution. */
    method Visit(value: Json, depth: nat) returns (r: Option<Json>)
      requires depth <= MAX_DEPTH + 1 && |pointers| <= MAX_POINTERS
      requires OnlyKnown()
      modifies this
      ensures OnlyKnown()
      ensures r.Some? <==> Fits(Expand(definitions, value, old(active)), old(nodes), depth, old(pointers))
      ensures r.Some? ==> Took(Expand(definitions, value, old(active)), r.value, old(nodes), old(active), old(pointers))
      decreases MAX_DEPTH + 1 - depth, 2, 0
    {
      hide Expand, Pointers, DefinitionPointer;
      VisitCost(definitions, value, active);
      nodes := nodes + 1;
      if nodes > MAX_NODES || depth > MAX_DEPTH || !value.Obj? { return None; }
      if Has(value, "$ref") {
        ExpandReference(definitions, value, active);
        var target := Referenced(value);
        if target.None? { return None; }
        var name := target.value;
        if !Known(definitions, name) || name in active { return None; }
        KnownPointer(definitions, name);
        pointers := pointers + {DefinitionPointer(name)};
        FitsThrough(name, Expand(definitions, Get(definitions, name).value, active + {name}),
                    old(nodes), depth, old(pointers));
        if |pointers| > MAX_POINTERS { return None; }
        active := active + {name};
        r := Visit(Get(definitions, name).value, depth + 1);
        if r.Some? {
          active := active - {name};
          assert active == old(active);
        }
      } else {
        r := VisitNode(value, depth);
      }
    }

    /** The reference-free case: branches, then properties, then items, each one level deeper. */
    method VisitNode(value: Json, depth: nat) returns (r: Option<Json>)
      requires value.Obj? && !Has(value, "$ref")
      requires depth <= MAX_DEPTH && 1 <= nodes <= MAX_NODES && |pointers| <= MAX_POINTERS
      requires OnlyKnown()
      modifies this
      ensures OnlyKnown()
      ensures r.Some? <==> Fits(Expand(definitions, value, old(active)), old(nodes) - 1, depth, old(pointers))
      ensures r.Some? ==>
        Took(Expand(definitions, value, old(active)), r.value, old(nodes) - 1, old(active), old(pointers))
      decreases MAX_DEPTH + 1 - depth, 1, 0
    {
      hide Expand, ExpandAll, Pointers, Branches, Members, ItemSchemas, Rebuild, Values, Zip, Replace;
      ExpandNode(definitions, value, active);
      var result := value;
      var composed := VisitBranches(value, depth);
      NodeFits(definitions, value, old(active), old(nodes), depth, old(pointers));
      if composed.None? { return None; }
      result := Replace(result, "allOf", Arr(composed.value));
      var typed := VisitProperties(value, depth);
      if typed.None? { return None; }
      result := Replace(result, "properties", Obj(Zip(Members(value).value, typed.value)));
      var item := VisitItems(value, depth);
      if item.None? { return None; }
      if item.value != [] { result := Replace(result, "items", item.value[0]); }
      RebuildInOrder(value, composed.value, typed.value, item.value);
      r := Some(result);
    }

    method VisitBranches(value: Json, depth: nat) returns (r: Option<seq<Json>>)
      requires depth <= MAX_DEPTH && nodes <= MAX_NODES && |pointers| <= MAX_POINTERS
      requires OnlyKnown()
      modifies this
      ensures OnlyKnown()
      ensures r.Some? <==>
        && Branches(value).Some?
        && Fits(ExpandAll(definitions, Branches(value).value, value, old(active)), old(nodes), depth, old(pointers))
      ensures r.Some? ==> Took(ExpandAll(definitions, Branches(value).value, value, old(active)), r.value,
                               old(nodes), old(active), old(pointers))
      decreases MAX_DEPTH + 1 - depth, 0, 1
    {
      var branches := Branches(value);
      if branches.None? { return None; }
      r := VisitAll(branches.value, value, depth);
    }

    method VisitProperties(value: Json, depth: nat) returns (r: Option<seq<Json>>)
      requires depth <= MAX_DEPTH && nodes <= MAX_NODES && |pointers| <= MAX_POINTERS
      requires OnlyKnown()
      modifies this
      ensures OnlyKnown()
      ensures r.Some? <==>
        && Members(value).Some?
        && Fits(ExpandAll(definitions, Values(Members(value).value), value, old(active)), old(nodes), depth, old(pointers))
      ensures r.Some? ==> Took(ExpandAll(definitions, Values(Members(value).value), value, old(active)), r.value,
                               old(nodes), old(active), old(pointers))
      decreases MAX_DEPTH + 1 - depth, 0, 1
    {
      hide Expand, ExpandAll, Fits, Pointers;
      var properties := Get(value, "properties");
      if properties.Some? && !properties.value.Obj? { return None; }
      var fields := if properties.Some? then properties.value.fields else [];
      r := VisitMembers(fields, value, depth);
    }

    method VisitItems(value: Json, depth: nat) returns (r: Option<seq<Json>>)
      requires depth <= MAX_DEPTH && nodes <= MAX_NODES && |pointers| <= MAX_POINTERS
      requires OnlyKnown()
      modifies this
      ensures OnlyKnown()
      ensures r.Some? <==>
        Fits(ExpandAll(definitions, ItemSchemas(value), value, old(active)), old(nodes), depth, old(pointers))
      ensures r.Some? ==> Took(ExpandAll(definitions, ItemSchemas(value), value, old(active)), r.value,
                               old(nodes), old(active), old(pointers))
      decreases MAX_DEPTH + 1 - depth, 0, 1
    {
      hide Expand, ExpandAll, Pointers;
      var item := Get(value, "items");
      if item.None? {
        ExpandAllNone(definitions, value, active);
        NoPointers(pointers);
        return Some([]);
      }
      ExpandAllOne(definitions, item.value, value, active);
      assert ItemSchemas(value) == [item.value];
      FitsBelow(Expand(definitions, item.value, active), nodes, depth, pointers);
      var visited := Visit(item.value, depth + 1);
      if visited.None? { return None; }
      r := Some([visited.value]);
    }

    /** `schemas.map(child => visit(child, depth + 1))`. */
    method VisitAll(schemas: seq<Json>, ghost parent: Json, depth: nat) returns (r: Option<seq<Json>>)
      requires forall i :: 0 <= i < |schemas| ==> schemas[i] < parent
      requires depth <= MAX_DEPTH && nodes <= MAX_NODES && |pointers| <= MAX_POINTERS
      requires OnlyKnown()
      modifies this
      ensures OnlyKnown()
      ensures r.Some? <==> Fits(ExpandAll(definitions, schemas, parent, old(active)), old(nodes), depth, old(pointers))
      ensures r.Some? ==>
        Took(ExpandAll(definitions, schemas, parent, old(active)), r.value, old(nodes), old(active), old(pointers))
      decreases MAX_DEPTH + 1 - depth, 0, 0
    {
      hide Expand, ExpandAll, Pointers;
      ExpandAllNone(definitions, parent, active);
      var results: seq<Json> := [];
      var k := 0;
      NoPointers(pointers);
      while k < |schemas|
        invariant 0 <= k <= |schemas| && OnlyKnown()
        invariant Fits(ExpandAll(definitions, schemas[..k], parent, old(active)), old(nodes), depth, old(pointers))
        invariant Took(ExpandAll(definitions, schemas[..k], parent, old(active)), results, old(nodes), old(active), old(pointers))
      {
        ExtendFit(definitions, schemas, k, parent, active, depth, old(nodes), old(pointers));
        var visited := Visit(schemas[k], depth + 1);
        if visited.None? { return None; }
        results := results + [visited.value];
        k := k + 1;
      }
      assert schemas[..k] == schemas;
      r := Some(results);
    }

    /** The loop over `Object.entries(properties)`; a reserved name abandons the resolution. */
    method VisitMembers(fields: seq<Field>, ghost parent: Json, depth: nat) returns (r: Option<seq<Json>>)
      requires forall i :: 0 <= i < |fields| ==> fields[i].value < parent
      requires depth <= MAX_DEPTH && nodes <= MAX_NODES && |pointers| <= MAX_POINTERS
      requires OnlyKnown()
      modifies this
      ensures OnlyKnown()
      ensures r.Some? <==>
        && (forall i :: 0 <= i < |fields| ==> !Reserved(fields[i].key))
        && Fits(ExpandAll(definitions, Values(fields), parent, old(active)), old(nodes), depth, old(pointers))
      ensures r.Some? ==>
        Took(ExpandAll(definitions, Values(fields), parent, old(active)), r.value, old(nodes), old(active), old(pointers))
      decreases MAX_DEPTH + 1 - depth, 0, 0
    {
      hide Expand, ExpandAll, Reserved, Pointers;
      ExpandAllNone(definitions, parent, active);
      var results: seq<Json> := [];
      var k := 0;
      ghost var schemas := Values(fields);
      NoPointers(pointers);
      while k < |fields|
        invariant 0 <= k <= |fields| && OnlyKnown()
        invariant forall i :: 0 <= i < k ==> !Reserved(fields[i].key)
        invariant Fits(ExpandAll(definitions, schemas[..k], parent, old(active)), old(nodes), depth, old(pointers))
        invariant Took(ExpandAll(definitions, schemas[..k], parent, old(active)), results, old(nodes), old(active), old(pointers))
      {
        if Reserved(fields[k].key) { return None; }
        assert forall i :: 0 <= i < k + 1 ==> !Reserved(fields[i].key);
        ExtendFit(definitions, schemas, k, parent, active, depth, old(nodes), old(pointers));
        var visited := Visit(fields[k].value, depth + 1);
        if visited.None? { return None; }
        results := results + [visited.value];
        k := k + 1;
      }
      assert schemas[..k] == schemas;
      r := Some(results);
    }
  }

  datatype Resolution = Resolved(schema: Json, pointers: seq<string>) | Unresolved(pointers: seq<string>)

  lemma {:induction false} PointerCount(names: set<string>)
    ensures |Pointers(names)| == |names|
  {
    if names == {} {
      assert Pointers(names) == {};
    } else {
      var name :| name in names;
      PointerCount(names - {name});
      assert Pointers(names) == Pointers(names - {name}) + {DefinitionPointer(name)};
      forall other | other in names - {name} ensures DefinitionPointer(other) != DefinitionPointer(name) {
        JsonPointer.UnescapeEscape(other);
        JsonPointer.UnescapeEscape(name);
        var prefix := |"/definitions/"|;
        assert DefinitionPointer(other)[prefix..] == JsonPointer.Escape(other);
        assert DefinitionPointer(name)[prefix..] == JsonPointer.Escape(name);
      }
    }
  }

  lemma ResolvableFits(definitions: Json, schema: Json)
    ensures SchemaRoutes.Resolvable(definitions, schema) <==> Fits(Expand(definitions, schema, {}), 0, 0, {})
  {
    SchemaRoutes.ResolvableExactly(definitions, schema);
    var e := Expand(definitions, schema, {});
    if e.Expanded? {
      PointerCount(e.names);
      assert {} + Pointers(e.names) == Pointers(e.names);
    }
  }

  /**
   * Resolved exactly when all routes from the schema arrive at well-formed nodes, none follows a definition twice, and
   * their number, their lengths and the definitions they follow are within the limits. Then the schema is the expansion,
   * and the pointers are the sorted pointers of the definitions used. Otherwise too they are sorted, and each is that of
   * a definition there is.
   */
  method ResolveResponseSchema(schema: Json, definitions: Json) returns (r: Resolution)
    ensures r.Resolved? <==> SchemaRoutes.Resolvable(definitions, schema)
    ensures r.Resolved? <==> Fits(Expand(definitions, schema, {}), 0, 0, {})
    ensures r.Resolved? ==>
      && r.schema == Expand(definitions, schema, {}).result
      && Strings.Elements(r.pointers) == Pointers(Expand(definitions, schema, {}).names)
    ensures Strings.Increasing(r.pointers) && Strings.Elements(r.pointers) <= Pointers(DefinitionNames(definitions))
  {
    hide Expand, SchemaRoutes.Resolvable;
    ResolvableFits(definitions, schema);
    var resolver := new Resolver(definitions);
    var visited := resolver.Visit(schema, 0);
    var pointers := Strings.Sorted(resolver.pointers);
    r := if visited.Some? then Resolved(visited.value, pointers) else Unresolved(pointers);
  }
}
