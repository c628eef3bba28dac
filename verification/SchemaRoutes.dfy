/**
 * Which schemas expand, said on the JSON alone: by the routes through allOf, properties, items and references, the nodes
 * they arrive at, and their number.
 */
module SchemaRoutes {
  import opened JsonValues
  import opened JsonPointer
  import opened SchemaExpansion
  import Strings

  // ---------- routes ----------

  datatype Turn = Branch(index: nat) | Member(index: nat) | Items | Reference(name: string)
  type Route = seq<Turn>

  /** A node with nothing but a reference to the definition of that name. */
  predicate Names(node: Json, name: string) {
    && name != "" && '%' !in name
    && Get(node, "$ref") == Some(Str("#/definitions/" + Escape(name))) && |node.fields| == 1
  }

  function Turned(definitions: Json, node: Json, turn: Turn): Option<Json> {
    match turn
    case Reference(name) => if Names(node, name) then Get(definitions, name) else None
    case Branch(i) =>
      (match (Get(node, "$ref"), Get(node, "allOf"))
       case (None, Some(Arr(branches))) => if i < |branches| then Some(branches[i]) else None
       case _ => None)
    case Member(i) =>
      (match (Get(node, "$ref"), Get(node, "properties"))
       case (None, Some(Obj(fields))) => if i < |fields| then Some(fields[i].value) else None
       case _ => None)
    case Items => if Has(node, "$ref") then None else Get(node, "items")
  }

  /** The node a route arrives at, if it exists. */
  function Arrived(definitions: Json, node: Json, route: Route): Option<Json>
    decreases |route|
  {
    if route == [] then Some(node)
    else
      match Turned(definitions, node, route[0])
      case None => None
      case Some(next) => Arrived(definitions, next, route[1..])
  }

  /** A lone reference to a definition there is, or a list of 1 to 32 branches and an object of properties, if any. */
  ghost predicate WellFormedNode(definitions: Json, node: Json) {
    && node.Obj?
    && if Has(node, "$ref") then
         exists name :: Names(node, name) && name !in {"__proto__", "prototype", "constructor"} && Has(definitions, name)
       else
         && (match Get(node, "allOf")
             case None => true
             case Some(Arr(branches)) => 1 <= |branches| <= 32
             case Some(_) => false)
         && (match Get(node, "properties")
             case None => true
             case Some(Obj(fields)) =>
               forall i :: 0 <= i < |fields| ==> fields[i].key !in {"__proto__", "prototype", "constructor"}
             case Some(_) => false)
  }

  ghost predicate NeverTwice(route: Route) {
    forall i, j :: 0 <= i < j < |route| && route[i].Reference? && route[j].Reference? ==> route[i].name != route[j].name
  }

  ghost predicate Fresh(route: Route, active: set<string>) {
    forall i :: 0 <= i < |route| && route[i].Reference? ==> route[i].name !in active
  }

  ghost predicate GoodRoute(definitions: Json, schema: Json, active: set<string>, route: Route) {
    var node := Arrived(definitions, schema, route);
    node.Some? ==> WellFormedNode(definitions, node.value) && NeverTwice(route) && Fresh(route, active)
  }

  // ---------- reference nodes ----------

  /** What the two passes make of a reference is what the reference names. */
  lemma ReferencedIsNamed(node: Json, name: string)
    requires node.Obj?
    ensures Referenced(node) == Some(name) <==> Names(node, name)
  {
    if Referenced(node) == Some(name) {
      var token := Get(node, "$ref").value.text[|DEFINITIONS|..];
      EscapeUnescape(token);
      UnescapeIsEach(token);
      PercentSurvives(token);
      assert Get(node, "$ref").value.text == DEFINITIONS + Escape(name);
    }
    if Names(node, name) {
      var text := DEFINITIONS + Escape(name);
      assert text[|DEFINITIONS|..] == Escape(name);
      EscapeIsEach(name);
      NoPercentEscaped(name);
      UnescapeEscape(name);
    }
  }

  lemma {:induction false} PercentSurvives(token: string)
    requires TildesEscaped(token) && '%' !in token && token != ""
    ensures '%' !in UnescapeEach(token) && UnescapeEach(token) != ""
    decreases |token|
  {
    var step := if token[0] == '~' then 2 else 1;
    var tail := token[step..];
    assert forall i :: 0 <= i < |tail| ==> tail[i] == token[i + step];
    if tail != "" { PercentSurvives(tail); }
  }

  lemma {:induction false} NoPercentEscaped(name: string)
    requires '%' !in name
    ensures '%' !in EscapeEach(name)
  {
    if name != "" { NoPercentEscaped(name[1..]); }
  }

  lemma NamesOne(node: Json, one: string, two: string)
    requires Names(node, one) && Names(node, two)
    ensures one == two
  {
    ReferencedIsNamed(node, one);
    ReferencedIsNamed(node, two);
  }

  // ---------- one node ----------

  /** The turn to a node's child, branches first, then properties, then items. */
  function TurnTo(node: Json, k: nat): Turn
    requires Children(node).Some? && k < |Children(node).value|
  {
    var n, m := |Branches(node).value|, |Members(node).value|;
    if k < n then Branch(k) else if k < n + m then Member(k - n) else Items
  }

  /** A reference-free node is well formed exactly when it has children to speak of. */
  lemma WellFormedHasChildren(definitions: Json, node: Json)
    requires node.Obj? && !Has(node, "$ref")
    ensures WellFormedNode(definitions, node) <==> Children(node).Some?
  {
  }

  lemma TurnToChild(definitions: Json, node: Json, k: nat)
    requires node.Obj? && !Has(node, "$ref") && Children(node).Some? && k < |Children(node).value|
    ensures Turned(definitions, node, TurnTo(node, k)) == Some(Children(node).value[k])
  {
  }

  /** Every turn at a reference-free node leads to one of its children. */
  lemma ChildOfTurn(definitions: Json, node: Json, turn: Turn) returns (k: nat)
    requires node.Obj? && !Has(node, "$ref") && Children(node).Some? && Turned(definitions, node, turn).Some?
    ensures k < |Children(node).value| && turn == TurnTo(node, k)
    ensures Turned(definitions, node, turn) == Some(Children(node).value[k])
  {
    var n, m := |Branches(node).value|, |Members(node).value|;
    k := if turn.Branch? then turn.index else if turn.Member? then n + turn.index else n + m;
  }

  lemma TurnsDiffer(node: Json, j: nat, k: nat)
    requires Children(node).Some? && j < k < |Children(node).value|
    ensures TurnTo(node, j) != TurnTo(node, k)
  {
  }

  lemma ArrivedStep(definitions: Json, node: Json, turn: Turn, rest: Route)
    ensures Arrived(definitions, node, [turn] + rest) ==
      var next := Turned(definitions, node, turn); if next.None? then None else Arrived(definitions, next.value, rest)
  {
    assert ([turn] + rest)[1..] == rest;
  }

  // ---------- what expands ----------

  lemma ReferenceExpands(definitions: Json, node: Json, active: set<string>, name: string)
    requires Names(node, name)
    ensures Expand(definitions, node, active).Expanded? <==>
      && Known(definitions, name) && name !in active
      && Expand(definitions, Get(definitions, name).value, active + {name}).Expanded?
  {
    ReferencedIsNamed(node, name);
    hide Names, Known;
  }

  /** The definitions being followed after a turn. */
  function Further(active: set<string>, turn: Turn): set<string> {
    if turn.Reference? then active + {turn.name} else active
  }

  lemma RepetitionBehind(turn: Turn, rest: Route, active: set<string>)
    ensures NeverTwice([turn] + rest) && Fresh([turn] + rest, active) <==>
      NeverTwice(rest) && Fresh(rest, Further(active, turn)) && (turn.Reference? ==> turn.name !in active)
  {
    var route := [turn] + rest;
    assert route[0] == turn && forall i :: 0 <= i < |rest| ==> rest[i] == route[i + 1];
    assert forall i :: 1 <= i < |route| ==> route[i] == rest[i - 1];
  }

  /** A route from a well-formed node is good exactly when what is behind its first turn is. */
  lemma GoodBehind(definitions: Json, node: Json, active: set<string>, turn: Turn, rest: Route)
    requires Turned(definitions, node, turn).Some? && (turn.Reference? ==> turn.name !in active)
    ensures GoodRoute(definitions, node, active, [turn] + rest) <==>
      GoodRoute(definitions, Turned(definitions, node, turn).value, Further(active, turn), rest)
  {
    ArrivedStep(definitions, node, turn, rest);
    RepetitionBehind(turn, rest, active);
    hide Turned, Arrived, WellFormedNode, NeverTwice, Fresh, Further;
  }

  /** All routes of an expandable schema are good. */
  lemma {:induction false} ExpandedIsGood(definitions: Json, node: Json, active: set<string>, route: Route)
    requires Expand(definitions, node, active).Expanded?
    ensures GoodRoute(definitions, node, active, route)
    decreases |route|
  {
    WellFormedHere(definitions, node, active);
    hide WellFormedNode, Turned;
    if route != [] && Turned(definitions, node, route[0]).Some? {
      var next := NextExpands(definitions, node, active, route[0]);
      hide Expand, GoodRoute;
      ExpandedIsGood(definitions, next, Further(active, route[0]), route[1..]);
      GoodBehind(definitions, node, active, route[0], route[1..]);
      assert route == [route[0]] + route[1..];
    }
  }

  lemma WellFormedHere(definitions: Json, node: Json, active: set<string>)
    requires Expand(definitions, node, active).Expanded?
    ensures WellFormedNode(definitions, node)
  {
    if Has(node, "$ref") {
      ReferencedIsNamed(node, Referenced(node).value);
    } else {
      WellFormedHasChildren(definitions, node);
    }
  }

  lemma NextExpands(definitions: Json, node: Json, active: set<string>, turn: Turn) returns (next: Json)
    requires Expand(definitions, node, active).Expanded? && Turned(definitions, node, turn).Some?
    ensures Turned(definitions, node, turn) == Some(next)
    ensures turn.Reference? ==> turn.name !in active && Expand(definitions, next, active + {turn.name}).Expanded?
    ensures !turn.Reference? ==> Expand(definitions, next, active).Expanded?
  {
    next := Turned(definitions, node, turn).value;
    if turn.Reference? {
      ReferenceExpands(definitions, node, active, turn.name);
    } else {
      var k := ChildOfTurn(definitions, node, turn);
      ExpandAllAt(definitions, Children(node).value, node, active, k);
    }
  }

  lemma ActiveIsBad(definitions: Json, node: Json, active: set<string>, name: string)
    requires Names(node, name) && Has(definitions, name) && name in active
    ensures !GoodRoute(definitions, node, active, [Reference(name)])
  {
    ArrivedStep(definitions, node, Reference(name), []);
    assert [Reference(name)] == [Reference(name)] + [];
    assert [Reference(name)][0].name in active;
  }

  /** A schema that does not expand has a route that is not good. */
  lemma {:induction false} BadRoute(definitions: Json, node: Json, active: set<string>) returns (route: Route)
    requires Expand(definitions, node, active).Unsupported?
    ensures !GoodRoute(definitions, node, active, route)
    decreases DefinitionNames(definitions) - active, node
  {
    hide GoodRoute, Names, Children, Turned, Further;
    if !WellFormedNode(definitions, node) {
      IllFormedIsBad(definitions, node, active);
      route := [];
    } else if Has(node, "$ref") {
      var name :| Names(node, name) && name !in {"__proto__", "prototype", "constructor"} && Has(definitions, name);
      ReferenceExpands(definitions, node, active, name);
      hide Expand, WellFormedNode;
      if name in active {
        route := [Reference(name)];
        ActiveIsBad(definitions, node, active, name);
      } else {
        var rest := BadRoute(definitions, Get(definitions, name).value, active + {name});
        route := [Reference(name)] + rest;
        FollowedTurn(definitions, node, active, name);
        GoodBehind(definitions, node, active, Reference(name), rest);
      }
    } else {
      WellFormedHasChildren(definitions, node);
      hide WellFormedNode;
      var k := UnsupportedChild(definitions, Children(node).value, node, active);
      TurnToChild(definitions, node, k);
      ChildTurn(node, k, active);
      hide Expand;
      var rest := BadRoute(definitions, Children(node).value[k], active);
      route := [TurnTo(node, k)] + rest;
      GoodBehind(definitions, node, active, TurnTo(node, k), rest);
    }
  }

  lemma IllFormedIsBad(definitions: Json, node: Json, active: set<string>)
    requires !WellFormedNode(definitions, node)
    ensures !GoodRoute(definitions, node, active, [])
  {
  }

  lemma FollowedTurn(definitions: Json, node: Json, active: set<string>, name: string)
    requires Names(node, name) && Has(definitions, name)
    ensures Turned(definitions, node, Reference(name)) == Get(definitions, name)
    ensures Further(active, Reference(name)) == active + {name}
  {
  }

  lemma ChildTurn(node: Json, k: nat, active: set<string>)
    requires Children(node).Some? && k < |Children(node).value|
    ensures !TurnTo(node, k).Reference? && Further(active, TurnTo(node, k)) == active
  {
  }

  lemma {:induction false} UnsupportedChild(definitions: Json, schemas: seq<Json>, parent: Json, active: set<string>) returns (k: nat)
    requires forall i :: 0 <= i < |schemas| ==> schemas[i] < parent
    requires ExpandAll(definitions, schemas, parent, active).Unsupported?
    ensures k < |schemas| && Expand(definitions, schemas[k], active).Unsupported?
    decreases |schemas|
  {
    hide Expand;
    var last := |schemas| - 1;
    if Expand(definitions, schemas[last], active).Unsupported? {
      k := last;
    } else {
      k := UnsupportedChild(definitions, schemas[..last], parent, active);
    }
  }

  /** A schema expands exactly when all its routes arrive at well-formed nodes and none follows a definition twice. */
  lemma ExpandsExactly(definitions: Json, schema: Json)
    ensures Expand(definitions, schema, {}).Expanded? <==> forall route :: GoodRoute(definitions, schema, {}, route)
  {
    hide Expand, GoodRoute;
    if Expand(definitions, schema, {}).Expanded? {
      forall route ensures GoodRoute(definitions, schema, {}, route) { ExpandedIsGood(definitions, schema, {}, route); }
    } else {
      var route := BadRoute(definitions, schema, {});
    }
  }

  // ---------- what an expansion costs ----------

  /** All routes there are. */
  ghost predicate AreAll(definitions: Json, node: Json, routes: set<Route>) {
    forall route :: route in routes <==> Arrived(definitions, node, route).Some?
  }

  /** The definitions routes follow. */
  function Followed(routes: set<Route>): set<string> {
    set route: Route, i | route in routes && 0 <= i < |route| && route[i].Reference? :: route[i].name
  }

  lemma FollowedUnion(a: set<Route>, b: set<Route>)
    ensures Followed(a + b) == Followed(a) + Followed(b)
  {
  }

  lemma FollowedBehind(turn: Turn, routes: set<Route>)
    requires routes != {}
    ensures Followed(Behind(turn, routes)) == Further(Followed(routes), turn)
  {
    var behind := Behind(turn, routes);
    forall name | name in Followed(behind) ensures name in Further(Followed(routes), turn) {
      var route: Route, i :| route in behind && 0 <= i < |route| && route[i] == Reference(name);
      if i > 0 { assert route[1..][i - 1] == Reference(name); }
    }
    forall name | name in Further(Followed(routes), turn) ensures name in Followed(behind) {
      if name in Followed(routes) {
        var route: Route, i :| route in routes && 0 <= i < |route| && route[i] == Reference(name);
        assert ([turn] + route)[1..] == route && ([turn] + route)[i + 1] == Reference(name);
      } else {
        var route :| route in routes;
        assert ([turn] + route)[1..] == route && ([turn] + route)[0] == Reference(name);
      }
    }
  }

  /** The longest of them has that many turns. */
  ghost predicate Longest(routes: set<Route>, height: nat) {
    (forall route :: route in routes ==> |route| <= height) && exists route :: route in routes && |route| == height
  }

  function Behind(turn: Turn, routes: set<Route>): (r: set<Route>)
    ensures forall route :: route in r <==> route != [] && route[0] == turn && route[1..] in routes
  {
    var r := set rest | rest in routes :: [turn] + rest;
    assert forall rest :: ([turn] + rest)[1..] == rest;
    assert forall route: Route :: route != [] && route[0] == turn && route[1..] in routes ==> route == [turn] + route[1..];
    r
  }

  lemma {:induction false} BehindCount(turn: Turn, routes: set<Route>)
    ensures |Behind(turn, routes)| == |routes|
  {
    if routes == {} {
      assert Behind(turn, routes) == {};
    } else {
      var route :| route in routes;
      BehindCount(turn, routes - {route});
      assert ([turn] + route)[1..] == route;
      assert forall other: Route :: other != [] && other[0] == turn && other[1..] == route ==> other == [turn] + route;
      assert Behind(turn, routes) == Behind(turn, routes - {route}) + {[turn] + route};
    }
  }

  predicate StartsWith(definitions: Json, node: Json, k: nat, route: Route)
    requires Children(node).Some? && k < |Children(node).value|
  {
    route != [] && route[0] == TurnTo(node, k) && Arrived(definitions, Children(node).value[k], route[1..]).Some?
  }

  /** The routes through the first so many children. */
  ghost predicate AreAllBelow(definitions: Json, node: Json, n: nat, routes: set<Route>)
    requires Children(node).Some? && n <= |Children(node).value|
  {
    forall route :: route in routes <==> exists k :: 0 <= k < n && StartsWith(definitions, node, k, route)
  }

  ghost predicate Priced(e: Expansion<seq<Json>>, routes: set<Route>) {
    && e.Expanded? && e.visits == |routes| && e.names == Followed(routes)
    && (if routes == {} then e.height == 0 else Longest(routes, e.height))
  }

  lemma BelowOne(definitions: Json, node: Json, n: nat, before: set<Route>, last: set<Route>)
    requires node.Obj? && !Has(node, "$ref") && Children(node).Some? && n < |Children(node).value|
    requires AreAllBelow(definitions, node, n, before) && AreAll(definitions, Children(node).value[n], last)
    ensures AreAllBelow(definitions, node, n + 1, before + Behind(TurnTo(node, n), last))
    ensures before !! Behind(TurnTo(node, n), last)
  {
    hide Children, Arrived, TurnTo;
    var turn, behind := TurnTo(node, n), Behind(TurnTo(node, n), last);
    forall route | route in before && route in behind ensures false {
      var k :| 0 <= k < n && StartsWith(definitions, node, k, route);
      TurnsDiffer(node, k, n);
    }
    forall route: Route ensures route in before + behind <==> exists k :: 0 <= k < n + 1 && StartsWith(definitions, node, k, route) {
      if route in behind { assert StartsWith(definitions, node, n, route); }
    }
  }

  lemma PriceOne(a: Expansion<seq<Json>>, z: Expansion<Json>, before: set<Route>, last: set<Route>, turn: Turn)
    requires Priced(a, before) && before !! Behind(turn, last) && !turn.Reference?
    requires Costs(z, last)
    ensures Priced(Then(a, Below(z)), before + Behind(turn, last))
  {
    BehindCount(turn, last);
    FollowedBehind(turn, last);
    var behind := Behind(turn, last);
    FollowedUnion(before, behind);
    hide Followed;
    var longest :| longest in last && |longest| == z.height;
    assert ([turn] + longest)[1..] == longest;
    assert [turn] + longest in behind;
    forall route | route in behind ensures |route| <= z.height + 1 { assert route[1..] in last; }
    if before != {} {
      var other :| other in before && |other| == a.height;
      assert other in before + behind;
    }
  }

  lemma ExpandAllLast(definitions: Json, node: Json, active: set<string>, n: nat)
    requires node.Obj? && Children(node).Some? && 0 < n <= |Children(node).value|
    ensures var children := Children(node).value;
      var before, last := ExpandAll(definitions, children[..n - 1], node, active), Expand(definitions, children[n - 1], active);
      && ExpandAll(definitions, children[..n], node, active) == Then(before, Below(last))
      && (Then(before, Below(last)).Expanded? ==> before.Expanded? && last.Expanded?)
  {
    hide Expand, Children;
    var schemas := Children(node).value[..n];
    assert schemas[..n - 1] == Children(node).value[..n - 1] && schemas[n - 1] == Children(node).value[n - 1];
  }

  lemma {:induction false} RoutesBelow(definitions: Json, node: Json, active: set<string>, n: nat) returns (routes: set<Route>)
    requires node.Obj? && !Has(node, "$ref") && Children(node).Some? && n <= |Children(node).value|
    requires ExpandAll(definitions, Children(node).value[..n], node, active).Expanded?
    ensures AreAllBelow(definitions, node, n, routes)
    ensures Priced(ExpandAll(definitions, Children(node).value[..n], node, active), routes)
    decreases DefinitionNames(definitions) - active, node, 0, n
  {
    hide Expand, Children, AreAll, AreAllBelow, Priced, Longest, Costs;
    if n == 0 {
      routes := {};
      NothingBelow(definitions, node);
      assert Children(node).value[..0] == [];
      NothingPriced();
    } else {
      ExpandAllLast(definitions, node, active, n);
      hide ExpandAll, Then, Below, TurnTo;
      var child := Children(node).value[n - 1];
      var before := RoutesBelow(definitions, node, active, n - 1);
      var last := AllRoutes(definitions, child, active);
      BelowOne(definitions, node, n - 1, before, last);
      ChildTurn(node, n - 1, {});
      routes := before + Behind(TurnTo(node, n - 1), last);
      PriceOne(ExpandAll(definitions, Children(node).value[..n - 1], node, active), Expand(definitions, child, active),
               before, last, TurnTo(node, n - 1));
    }
  }

  lemma NothingBelow(definitions: Json, node: Json)
    requires Children(node).Some?
    ensures AreAllBelow(definitions, node, 0, {})
  {
  }

  lemma NothingPriced()
    ensures Priced(Expanded([], {}, 0, 0), {})
  {
  }

  /** As many visits as routes, as deep as the longest, by the definitions they follow. */
  ghost predicate Costs(e: Expansion<Json>, routes: set<Route>) {
    e.Expanded? && e.visits == |routes| && Longest(routes, e.height) && e.names == Followed(routes)
  }

  lemma ReferenceCosts(name: string, z: Expansion<Json>, rest: set<Route>)
    requires Costs(z, rest)
    ensures [] !in Behind(Reference(name), rest) && Costs(Through(name, z), {[]} + Behind(Reference(name), rest))
  {
    BehindCount(Reference(name), rest);
    FollowedBehind(Reference(name), rest);
    FollowedAround(Behind(Reference(name), rest));
    LongestBehind(Reference(name), rest, z.height);
    hide Longest, Followed;
    assert |{[]} + Behind(Reference(name), rest)| == 1 + |rest|;
  }

  lemma NodeCosts(node: Json, all: Expansion<seq<Json>>, below: set<Route>)
    requires node.Obj? && Children(node).Some? && Priced(all, below) && [] !in below && |all.result| == |Children(node).value|
    ensures Costs(Around(node, all), {[]} + below)
  {
    FollowedAround(below);
    LongestAround(all, below);
    hide Longest, Followed, Rebuild, Children;
    assert |{[]} + below| == 1 + |below|;
  }

  lemma NodeExpansion(definitions: Json, node: Json, active: set<string>)
    requires Expand(definitions, node, active).Expanded? && !Has(node, "$ref")
    ensures Children(node).Some?
    ensures var all := ExpandAll(definitions, Children(node).value, node, active);
      all.Expanded? && Expand(definitions, node, active) == Around(node, all)
    ensures Children(node).value[..|Children(node).value|] == Children(node).value
  {
  }

  lemma ReferenceExpansion(definitions: Json, node: Json, active: set<string>) returns (name: string)
    requires Expand(definitions, node, active).Expanded? && Has(node, "$ref")
    ensures Names(node, name) && Has(definitions, name) && name !in active
    ensures var z := Expand(definitions, Get(definitions, name).value, active + {name});
      z.Expanded? && Expand(definitions, node, active) == Through(name, z)
  {
    name := Referenced(node).value;
    ReferencedIsNamed(node, name);
  }

  /** An expansion costs what its routes do. */
  lemma {:induction false} AllRoutes(definitions: Json, node: Json, active: set<string>) returns (routes: set<Route>)
    requires Expand(definitions, node, active).Expanded?
    ensures AreAll(definitions, node, routes) && Costs(Expand(definitions, node, active), routes)
    decreases DefinitionNames(definitions) - active, node, 1, 0
  {
    if Has(node, "$ref") {
      var name := ReferenceExpansion(definitions, node, active);
      hide Expand, AreAll, Costs, Names, Through;
      var rest := AllRoutes(definitions, Get(definitions, name).value, active + {name});
      routes := {[]} + Behind(Reference(name), rest);
      ReferenceRoutes(definitions, node, name, rest);
      ReferenceCosts(name, Expand(definitions, Get(definitions, name).value, active + {name}), rest);
    } else {
      assert node.Obj?;
      NodeExpansion(definitions, node, active);
      hide Expand, ExpandAll, AreAll, AreAllBelow, Costs, Priced, Children, Around;
      var below := RoutesBelow(definitions, node, active, |Children(node).value|);
      routes := {[]} + below;
      NodeRoutes(definitions, node, below);
      NodeCosts(node, ExpandAll(definitions, Children(node).value, node, active), below);
    }
  }

  lemma FollowedAround(below: set<Route>)
    ensures Followed({[]} + below) == Followed(below)
  {
    FollowedUnion({[]}, below);
    assert Followed({[]}) == {};
  }

  lemma ReferenceRoutes(definitions: Json, node: Json, name: string, rest: set<Route>)
    requires Names(node, name) && Has(definitions, name) && AreAll(definitions, Get(definitions, name).value, rest)
    ensures AreAll(definitions, node, {[]} + Behind(Reference(name), rest)) && [] !in Behind(Reference(name), rest)
  {
    var routes := {[]} + Behind(Reference(name), rest);
    forall route: Route ensures route in routes <==> Arrived(definitions, node, route).Some? {
      if route != [] && Turned(definitions, node, route[0]).Some? {
        if route[0].Reference? { NamesOne(node, name, route[0].name); }
      }
    }
  }

  lemma NodeRoutes(definitions: Json, node: Json, below: set<Route>)
    requires node.Obj? && !Has(node, "$ref") && Children(node).Some?
    requires AreAllBelow(definitions, node, |Children(node).value|, below)
    ensures AreAll(definitions, node, {[]} + below) && [] !in below
  {
    hide Children, TurnTo, Turned;
    forall route: Route ensures route in {[]} + below <==> Arrived(definitions, node, route).Some? {
      if route != [] {
        if Arrived(definitions, node, route).Some? {
          var k := ChildOfTurn(definitions, node, route[0]);
          assert StartsWith(definitions, node, k, route);
        }
        forall k | 0 <= k < |Children(node).value| && StartsWith(definitions, node, k, route)
          ensures Turned(definitions, node, route[0]) == Some(Children(node).value[k])
        {
          TurnToChild(definitions, node, k);
        }
      }
    }
  }

  lemma LongestBehind(turn: Turn, rest: set<Route>, height: nat)
    requires Longest(rest, height)
    ensures Longest({[]} + Behind(turn, rest), height + 1)
  {
    var longest :| longest in rest && |longest| == height;
    assert ([turn] + longest)[1..] == longest;
    assert [turn] + longest in {[]} + Behind(turn, rest);
  }

  lemma LongestAround(all: Expansion<seq<Json>>, below: set<Route>)
    requires Priced(all, below)
    ensures Longest({[]} + below, all.height)
  {
    if below == {} {
      assert [] in {[]} + below;
    } else {
      var longest :| longest in below && |longest| == all.height;
      assert longest in {[]} + below;
    }
  }

  // ---------- what resolves ----------

  ghost predicate WithinLimits(definitions: Json, schema: Json, routes: set<Route>) {
    && |routes| <= 10000 && |Followed(routes)| <= 128
    && (forall route: Route :: route in routes ==> |route| <= 64)
    && forall route: Route :: route in routes ==>
         NeverTwice(route) && Arrived(definitions, schema, route).Some?
         && WellFormedNode(definitions, Arrived(definitions, schema, route).value)
  }

  /**
   * There are at most 10000 routes, each of at most 64 turns, through at most 128 definitions; each arrives at a
   * well-formed node, and none follows a definition twice.
   */
  ghost predicate Resolvable(definitions: Json, schema: Json) {
    exists routes :: AreAll(definitions, schema, routes) && WithinLimits(definitions, schema, routes)
  }

  lemma RoutesUnique(definitions: Json, schema: Json, one: set<Route>, two: set<Route>)
    requires AreAll(definitions, schema, one) && AreAll(definitions, schema, two)
    ensures one == two
  {
    forall route ensures route in one <==> route in two { }
  }

  /** A schema is resolvable exactly when it expands at a price within the limits. */
  lemma ResolvableExactly(definitions: Json, schema: Json)
    ensures var e := Expand(definitions, schema, {});
      Resolvable(definitions, schema) <==> e.Expanded? && e.visits <= 10000 && e.height <= 64 && |e.names| <= 128
  {
    ExpandsExactly(definitions, schema);
    hide Expand, Followed, AreAll, NeverTwice, WellFormedNode;
    if Resolvable(definitions, schema) {
      var routes :| AreAll(definitions, schema, routes) && WithinLimits(definitions, schema, routes);
      forall route ensures GoodRoute(definitions, schema, {}, route) {
        InAll(definitions, schema, routes, route);
      }
      hide GoodRoute;
      var all := AllRoutes(definitions, schema, {});
      RoutesUnique(definitions, schema, routes, all);
    }
    if Expand(definitions, schema, {}).Expanded? {
      var all := AllRoutes(definitions, schema, {});
      forall route: Route | route in all ensures NeverTwice(route) && Arrived(definitions, schema, route).Some?
        && WellFormedNode(definitions, Arrived(definitions, schema, route).value)
      {
        InAll(definitions, schema, all, route);
        assert GoodRoute(definitions, schema, {}, route);
      }
    }
  }

  lemma InAll(definitions: Json, schema: Json, routes: set<Route>, route: Route)
    requires AreAll(definitions, schema, routes)
    ensures route in routes <==> Arrived(definitions, schema, route).Some?
  {
  }
}
