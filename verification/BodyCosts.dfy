/** What a comparison costs: its steps are counted at the places its routes lead to, and its depth is the longest route. */
module BodyCosts {
  import opened JsonValues
  import opened Shapes
  import opened BodyWalks
  import opened BodyPaths
  import JsonPointer
  import SchemaExpansion

  // ---------- routes ----------

  datatype Move = Branch(index: nat) | Variant(index: nat) | FieldOf(index: nat) | Items
  type Route = seq<Move>

  /** The place a move leads to. */
  function Moved(a: Place, move: Move): Option<Place> {
    match move
    case Branch(i) =>
      (match Get(a.schema, "allOf")
       case Some(Arr(branches)) => if i < |branches| then Some(Place(a.shape, branches[i], a.path)) else None
       case _ => None)
    case Variant(i) =>
      if a.shape.AnyOfShape? && i < |a.shape.variants| then Some(Place(a.shape.variants[i], a.schema, a.path)) else None
    case FieldOf(i) =>
      if !a.shape.ObjectShape? || i >= |a.shape.properties| || !Declares(a.schema, "object") then None
      else
        (match Declared(a.schema, a.shape.properties[i].name)
         case Some(declared) => Some(Place(a.shape.properties[i].shape, declared, FieldPath(a, a.shape.properties[i].name)))
         case None => None)
    case Items =>
      if !a.shape.ArrayShape? || a.shape.items.None? || !Declares(a.schema, "array") || !Has(a.schema, "items") then None
      else Some(Place(a.shape.items.value, Get(a.schema, "items").value, a.path + "/*"))
  }

  function Arrived(a: Place, route: Route): Option<Place>
    decreases |route|
  {
    if route == [] then Some(a)
    else
      match Moved(a, route[0])
      case Some(m) => Arrived(m, route[1..])
      case None => None
  }

  /** The steps a comparison counts at a place: one, and one for each name or field it looks at there. */
  function Toll(kind: Kind, place: Place): nat {
    var fields := place.shape.ObjectShape? && Declares(place.schema, "object");
    match kind
    case Types => 1
    case Presence =>
      if !fields then 1
      else
        1 + (match Get(place.schema, "required") case Some(Arr(names)) => |names| case _ => 0)
        + (if Has(place.schema, "properties") then |place.shape.properties| else 0)
    case Closure => if !fields then 1 else 1 + |place.shape.properties|
  }

  /** Each step, as the route to its place and its number there. */
  type Tick = (Route, nat)

  ghost predicate AreTicks(kind: Kind, a: Place, ticks: set<Tick>) {
    forall route: Route, t: nat :: (route, t) in ticks <==> Arrived(a, route).Some? && t < Toll(kind, Arrived(a, route).value)
  }

  /** No route is longer, and one is that long. */
  ghost predicate Longest(a: Place, height: nat) {
    && (forall route: Route :: Arrived(a, route).Some? ==> |route| <= height)
    && exists route: Route :: Arrived(a, route).Some? && |route| == height
  }

  function WalkAt(kind: Kind, a: Place): Walk {
    match kind
    case Types => TypeWalk(a.shape, a.schema, a.path)
    case Presence => PresenceWalk(a.shape, a.schema, a.path)
    case Closure => ClosureWalk(a.shape, a.schema, a.path)
  }

  lemma MovedLeads(a: Place, move: Move)
    requires Moved(a, move).Some?
    ensures Leads(a, Moved(a, move).value)
  {
    if move.FieldOf? { assert IsField(a, Moved(a, move).value, move.index); }
  }

  // ---------- sums over moves ----------

  function StepsOf(kind: Kind, a: Place, move: Move): nat {
    if Moved(a, move).Some? then WalkAt(kind, Moved(a, move).value).steps else 0
  }

  function HeightOf(kind: Kind, a: Place, move: Move): nat {
    if Moved(a, move).Some? then WalkAt(kind, Moved(a, move).value).height + 1 else 0
  }

  function Max(a: nat, b: nat): nat {
    if a > b then a else b
  }

  /** All the steps, and the greatest height, behind these moves. */
  function Sum(kind: Kind, a: Place, moves: seq<Move>): (nat, nat) {
    if moves == [] then (0, 0)
    else
      var rest, last := Sum(kind, a, moves[..|moves| - 1]), moves[|moves| - 1];
      (rest.0 + StepsOf(kind, a, last), Max(rest.1, HeightOf(kind, a, last)))
  }

  lemma {:induction false} SumConcat(kind: Kind, a: Place, one: seq<Move>, two: seq<Move>)
    ensures var s, t := Sum(kind, a, one), Sum(kind, a, two);
      Sum(kind, a, one + two) == (s.0 + t.0, Max(s.1, t.1))
  {
    hide StepsOf, HeightOf;
    if two == [] {
      assert one + two == one;
    } else {
      SumConcat(kind, a, one, two[..|two| - 1]);
      assert (one + two)[..|one + two| - 1] == one + two[..|two| - 1];
      assert (one + two)[|one + two| - 1] == two[|two| - 1];
    }
  }

  lemma SumOne(kind: Kind, a: Place, move: Move)
    ensures Sum(kind, a, [move]) == (StepsOf(kind, a, move), HeightOf(kind, a, move))
  {
    hide StepsOf, HeightOf;
    assert [move][..0] == [];
    assert Sum(kind, a, []) == (0, 0);
  }

  function BranchMoves(n: nat): (r: seq<Move>)
    ensures |r| == n && forall i :: 0 <= i < n ==> r[i] == Branch(i)
  {
    seq(n, i requires 0 <= i => Branch(i))
  }

  function VariantMoves(n: nat): (r: seq<Move>)
    ensures |r| == n && forall i :: 0 <= i < n ==> r[i] == Variant(i)
  {
    seq(n, i requires 0 <= i => Variant(i))
  }

  function FieldMoves(n: nat): (r: seq<Move>)
    ensures |r| == n && forall i :: 0 <= i < n ==> r[i] == FieldOf(i)
  {
    seq(n, i requires 0 <= i => FieldOf(i))
  }

  /** Every move there may be at a place. */
  function MovesAt(a: Place): seq<Move> {
    BranchMoves(|BranchesOf(a.schema)|) + (VariantMoves(|Variants(a.shape)|) + (FieldMoves(|ShapeProperties(a.shape)|) + [Items]))
  }

  // ---------- the traversals as sums ----------

  function BranchWalk(kind: Kind, a: Place, n: nat): Walk
    requires n <= |BranchesOf(a.schema)|
  {
    match kind
    case Types => TypeBranches(a.shape, a.schema, a.path, n)
    case Presence => PresenceBranches(a.shape, a.schema, a.path, n)
    case Closure => ClosureBranches(a.shape, a.schema, a.path, n)
  }

  function VariantWalk(kind: Kind, a: Place, n: nat): Walk
    requires n <= |Variants(a.shape)|
  {
    match kind
    case Types => TypeVariants(a.shape, a.schema, a.path, n)
    case Presence => PresenceVariants(a.shape, a.schema, a.path, n)
    case Closure => ClosureVariants(a.shape, a.schema, a.path, n)
  }

  function FieldWalk(kind: Kind, a: Place, n: nat): Walk
    requires n <= |ShapeProperties(a.shape)|
  {
    match kind
    case Types => TypeProperties(a.shape, a.schema, a.path, n)
    case Presence => PresenceProperties(a.shape, a.schema, a.path, n)
    case Closure => ClosureProperties(a.shape, a.schema, a.path, n)
  }

  predicate Costs(w: Walk, steps: nat, height: nat) {
    w.steps == steps && w.height == height
  }

  lemma BranchStep(kind: Kind, a: Place, n: nat)
    requires 0 < n <= |BranchesOf(a.schema)|
    ensures BranchWalk(kind, a, n) == Then(BranchWalk(kind, a, n - 1), Deeper(WalkAt(kind, BranchPlace(a, n - 1))))
    ensures BranchWalk(kind, a, 0) == NOTHING
  {
  }

  lemma VariantStep(kind: Kind, a: Place, n: nat)
    requires 0 < n <= |Variants(a.shape)|
    ensures VariantWalk(kind, a, n) == Then(VariantWalk(kind, a, n - 1), Deeper(WalkAt(kind, VariantPlace(a, n - 1))))
    ensures VariantWalk(kind, a, 0) == NOTHING
  {
  }

  lemma BranchMoved(a: Place, i: nat)
    requires SupportedAllOf(a.schema) && i < |BranchesOf(a.schema)|
    ensures Moved(a, Branch(i)) == Some(BranchPlace(a, i))
  {
  }

  lemma VariantMoved(a: Place, i: nat)
    requires i < |Variants(a.shape)|
    ensures Moved(a, Variant(i)) == Some(VariantPlace(a, i))
  {
  }

  lemma {:induction false} BranchSum(kind: Kind, a: Place, n: nat)
    requires SupportedAllOf(a.schema) && n <= |BranchesOf(a.schema)|
    ensures var s := Sum(kind, a, BranchMoves(n)); Costs(BranchWalk(kind, a, n), s.0, s.1)
  {
    hide WalkAt, BranchWalk, Moved, BranchesOf, SupportedAllOf;
    if n > 0 {
      BranchSum(kind, a, n - 1);
      BranchStep(kind, a, n);
      BranchMoved(a, n - 1);
      assert BranchMoves(n)[..n - 1] == BranchMoves(n - 1);
    } else {
      NoWalk(kind, a);
    }
  }

  lemma NoWalk(kind: Kind, a: Place)
    ensures BranchWalk(kind, a, 0) == NOTHING && VariantWalk(kind, a, 0) == NOTHING && FieldWalk(kind, a, 0) == NOTHING
    ensures Sum(kind, a, []) == (0, 0)
  {
  }

  lemma {:induction false} VariantSum(kind: Kind, a: Place, n: nat)
    requires n <= |Variants(a.shape)|
    ensures var s := Sum(kind, a, VariantMoves(n)); Costs(VariantWalk(kind, a, n), s.0, s.1)
  {
    hide WalkAt, VariantWalk, Moved, Variants;
    if n > 0 {
      VariantSum(kind, a, n - 1);
      VariantStep(kind, a, n);
      VariantMoved(a, n - 1);
      assert VariantMoves(n)[..n - 1] == VariantMoves(n - 1);
    } else {
      NoWalk(kind, a);
    }
  }

  function OneField(kind: Kind, a: Place, i: nat): Walk
    requires i < |ShapeProperties(a.shape)|
  {
    match kind
    case Types => TypeProperty(a.shape, a.schema, a.path, i)
    case Presence => PresenceProperty(a.shape, a.schema, a.path, i)
    case Closure => ClosureProperty(a.shape, a.schema, a.path, i)
  }

  /** A field costs a step of its own, except in the comparison of types, and what is behind it. */
  lemma OneFieldCosts(kind: Kind, a: Place, i: nat)
    requires i < |ShapeProperties(a.shape)| && Declares(a.schema, "object")
    ensures Costs(OneField(kind, a, i), (if kind.Types? then 0 else 1) + StepsOf(kind, a, FieldOf(i)), HeightOf(kind, a, FieldOf(i)))
  {
    FieldMoved(a, i);
    hide TypeWalk, PresenceWalk, ClosureWalk, Moved, Declares;
  }

  lemma FieldThen(kind: Kind, a: Place, n: nat)
    requires 0 < n <= |ShapeProperties(a.shape)|
    ensures FieldWalk(kind, a, n) == Then(FieldWalk(kind, a, n - 1), OneField(kind, a, n - 1))
  {
    hide TypeProperty, PresenceProperty, ClosureProperty;
  }

  lemma FieldStep(kind: Kind, a: Place, n: nat)
    requires 0 < n <= |ShapeProperties(a.shape)| && Declares(a.schema, "object")
    ensures var before, w := FieldWalk(kind, a, n - 1), FieldWalk(kind, a, n);
      && w.steps == before.steps + (if kind.Types? then 0 else 1) + StepsOf(kind, a, FieldOf(n - 1))
      && w.height == Max(before.height, HeightOf(kind, a, FieldOf(n - 1)))
  {
    hide FieldWalk, OneField, StepsOf, HeightOf;
    FieldThen(kind, a, n);
    OneFieldCosts(kind, a, n - 1);
  }

  lemma FieldMoved(a: Place, i: nat)
    requires i < |ShapeProperties(a.shape)| && Declares(a.schema, "object")
    ensures Moved(a, FieldOf(i)) == FieldPlace(a, i)
  {
  }

  lemma {:induction false} FieldSum(kind: Kind, a: Place, n: nat)
    requires n <= |ShapeProperties(a.shape)| && Declares(a.schema, "object")
    ensures var s := Sum(kind, a, FieldMoves(n)); Costs(FieldWalk(kind, a, n), s.0 + (if kind.Types? then 0 else n), s.1)
  {
    hide WalkAt, FieldWalk, Moved, StepsOf, HeightOf, ShapeProperties;
    if n > 0 {
      FieldSum(kind, a, n - 1);
      FieldStep(kind, a, n);
      assert FieldMoves(n)[..n - 1] == FieldMoves(n - 1);
    } else {
      NoWalk(kind, a);
    }
  }

  lemma {:induction false} RequiredCosts(a: Place, n: nat)
    requires n <= |RequiredNames(a.schema)|
    ensures Costs(PresenceRequired(a.shape, a.schema, a.path, n), n, 0)
  {
    if n > 0 { RequiredCosts(a, n - 1); }
  }

  lemma {:induction false} NoMoves(kind: Kind, a: Place, moves: seq<Move>)
    requires forall i :: 0 <= i < |moves| ==> Moved(a, moves[i]).None?
    ensures Sum(kind, a, moves) == (0, 0)
  {
    hide Moved, WalkAt;
    if moves != [] { NoMoves(kind, a, moves[..|moves| - 1]); }
  }

  /** The moves at a place cost what its branches, its variants, its fields and its items cost. */
  lemma MovesCost(kind: Kind, a: Place)
    ensures var b, v := Sum(kind, a, BranchMoves(|BranchesOf(a.schema)|)), Sum(kind, a, VariantMoves(|Variants(a.shape)|));
      var f := Sum(kind, a, FieldMoves(|ShapeProperties(a.shape)|));
      Sum(kind, a, MovesAt(a)) ==
        (b.0 + v.0 + f.0 + StepsOf(kind, a, Items), Max(b.1, Max(v.1, Max(f.1, HeightOf(kind, a, Items)))))
  {
    hide Sum, StepsOf, HeightOf, BranchesOf, Variants, ShapeProperties;
    var b, v, f := BranchMoves(|BranchesOf(a.schema)|), VariantMoves(|Variants(a.shape)|), FieldMoves(|ShapeProperties(a.shape)|);
    SumConcat(kind, a, b, v + (f + [Items]));
    SumConcat(kind, a, v, f + [Items]);
    SumConcat(kind, a, f, [Items]);
    SumOne(kind, a, Items);
  }

  lemma NoFieldMoves(kind: Kind, a: Place)
    requires !a.shape.ObjectShape? || !Declares(a.schema, "object") || !Has(a.schema, "properties")
    ensures Sum(kind, a, FieldMoves(|ShapeProperties(a.shape)|)) == (0, 0)
  {
    NoMoves(kind, a, FieldMoves(|ShapeProperties(a.shape)|));
  }

  lemma NoVariantMoves(kind: Kind, a: Place)
    requires !a.shape.AnyOfShape?
    ensures Sum(kind, a, VariantMoves(|Variants(a.shape)|)) == (0, 0)
  {
    NoMoves(kind, a, VariantMoves(|Variants(a.shape)|));
  }

  lemma NoItemMove(kind: Kind, a: Place)
    requires !a.shape.ArrayShape? || !Declares(a.schema, "array") || !Has(a.schema, "items") || a.shape.items.None?
    ensures StepsOf(kind, a, Items) == 0 && HeightOf(kind, a, Items) == 0
  {
  }

  function RestWalk(kind: Kind, a: Place): Walk {
    match kind
    case Types => TypeRest(a.shape, a.schema, a.path)
    case Presence => PresenceRest(a.shape, a.schema, a.path)
    case Closure => ClosureRest(a.shape, a.schema, a.path)
  }

  /** What follows the branches costs the rest of the toll, the variants, the fields and the items. */
  ghost predicate RestCosts(kind: Kind, a: Place) {
    var v, f := Sum(kind, a, VariantMoves(|Variants(a.shape)|)), Sum(kind, a, FieldMoves(|ShapeProperties(a.shape)|));
    Costs(RestWalk(kind, a), Toll(kind, a) - 1 + v.0 + f.0 + StepsOf(kind, a, Items), Max(v.1, Max(f.1, HeightOf(kind, a, Items))))
  }

  lemma VariantsRest(kind: Kind, a: Place)
    requires a.shape.AnyOfShape?
    ensures RestCosts(kind, a)
  {
    NoFieldMoves(kind, a);
    NoItemMove(kind, a);
    VariantSum(kind, a, |Variants(a.shape)|);
    assert RestWalk(kind, a) == VariantWalk(kind, a, |Variants(a.shape)|);
    assert Toll(kind, a) == 1;
    hide WalkAt, RestWalk, VariantWalk, Sum, StepsOf, HeightOf, Toll;
  }

  lemma ItemsRest(kind: Kind, a: Place)
    requires a.shape.ArrayShape? && RestWalk(kind, a).supported
    ensures RestCosts(kind, a)
  {
    NoFieldMoves(kind, a);
    NoVariantMoves(kind, a);
    hide Sum, TypeWalk, PresenceWalk, ClosureWalk, Variants, ShapeProperties;
  }

  lemma ScalarRest(kind: Kind, a: Place)
    requires !a.shape.ArrayShape? && !a.shape.ObjectShape? && !a.shape.AnyOfShape? && RestWalk(kind, a).supported
    ensures RestCosts(kind, a)
  {
    NoFieldMoves(kind, a);
    NoVariantMoves(kind, a);
    NoItemMove(kind, a);
    hide Sum, StepsOf, HeightOf, Variants, ShapeProperties;
  }

  /** After its branches a comparison of an object looks at the required names and the fields. */
  lemma RestOfObject(kind: Kind, a: Place)
    requires a.shape.ObjectShape? && RestWalk(kind, a).supported
    ensures !Declares(a.schema, "object") ==> Costs(RestWalk(kind, a), 0, 0)
    ensures Declares(a.schema, "object") ==>
      var n := |ShapeProperties(a.shape)|;
      RestWalk(kind, a) ==
        match kind
        case Types => FieldWalk(kind, a, n)
        case Presence =>
          Then(PresenceRequired(a.shape, a.schema, a.path, |RequiredNames(a.schema)|),
               if Has(a.schema, "properties") then FieldWalk(kind, a, n) else NOTHING)
        case Closure => FieldWalk(kind, a, n)
  {
    hide TypeProperties, PresenceProperties, ClosureProperties, PresenceRequired, ShapeProperties, RequiredNames;
  }

  lemma TollOfObject(kind: Kind, a: Place)
    requires a.shape.ObjectShape?
    ensures !Declares(a.schema, "object") ==> Toll(kind, a) == 1
    ensures Declares(a.schema, "object") ==>
      Toll(kind, a) == match kind
        case Types => 1
        case Presence => 1 + |RequiredNames(a.schema)| + (if Has(a.schema, "properties") then |ShapeProperties(a.shape)| else 0)
        case Closure => 1 + |ShapeProperties(a.shape)|
  {
  }

  lemma FieldsRest(kind: Kind, a: Place)
    requires a.shape.ObjectShape? && RestWalk(kind, a).supported
    ensures RestCosts(kind, a)
  {
    hide Sum, StepsOf, HeightOf, Variants, RestWalk, FieldWalk, Toll, PresenceRequired, Declares;
    NoVariantMoves(kind, a);
    NoItemMove(kind, a);
    RestOfObject(kind, a);
    TollOfObject(kind, a);
    if Declares(a.schema, "object") {
      FieldSum(kind, a, |ShapeProperties(a.shape)|);
      RequiredCosts(a, |RequiredNames(a.schema)|);
      if !Has(a.schema, "properties") {
        NoFieldMoves(kind, a);
      }
    } else {
      NoFieldMoves(kind, a);
    }
  }

  lemma RestIsCosted(kind: Kind, a: Place)
    requires RestWalk(kind, a).supported
    ensures RestCosts(kind, a)
  {
    hide RestCosts, RestWalk;
    if a.shape.AnyOfShape? { VariantsRest(kind, a); }
    else if a.shape.ArrayShape? { ItemsRest(kind, a); }
    else if a.shape.ObjectShape? { FieldsRest(kind, a); }
    else { ScalarRest(kind, a); }
  }

  lemma WalkParts(kind: Kind, a: Place)
    requires WalkAt(kind, a).supported
    ensures SupportedAllOf(a.schema) && RestWalk(kind, a).supported
    ensures WalkAt(kind, a) == Then(Then(STEP, BranchWalk(kind, a, |BranchesOf(a.schema)|)), RestWalk(kind, a))
  {
    hide TypeBranches, PresenceBranches, ClosureBranches, TypeRest, PresenceRest, ClosureRest, SupportedAllOf, BranchesOf, PlainNode,
      SupportedType, SupportedRequired, SupportedClosure, PropertiesAreObject;
  }

  /** A supported comparison costs its toll at a place and what is behind the moves from there. */
  lemma WalkCosts(kind: Kind, a: Place)
    requires WalkAt(kind, a).supported
    ensures var s := Sum(kind, a, MovesAt(a)); Costs(WalkAt(kind, a), Toll(kind, a) + s.0, s.1)
  {
    hide WalkAt, RestWalk, BranchWalk, Sum, StepsOf, HeightOf, Toll, MovesAt, SupportedAllOf, BranchesOf, Variants, ShapeProperties;
    WalkParts(kind, a);
    BranchSum(kind, a, |BranchesOf(a.schema)|);
    RestIsCosted(kind, a);
    MovesCost(kind, a);
    TollIsPositive(kind, a);
  }

  lemma TollIsPositive(kind: Kind, a: Place)
    ensures Toll(kind, a) > 0
  {
  }

  // ---------- the steps, one by one ----------

  lemma MovesAreAll(a: Place, move: Move)
    requires Moved(a, move).Some? && SupportedAllOf(a.schema)
    ensures move in MovesAt(a)
  {
    var b, v, f := BranchMoves(|BranchesOf(a.schema)|), VariantMoves(|Variants(a.shape)|), FieldMoves(|ShapeProperties(a.shape)|);
    match move
    case Branch(i) => assert b[i] == move;
    case Variant(i) => assert v[i] == move;
    case FieldOf(i) => assert f[i] == move;
    case Items =>
  }

  lemma MovesDiffer(a: Place)
    ensures forall i, j :: 0 <= i < j < |MovesAt(a)| ==> MovesAt(a)[i] != MovesAt(a)[j]
  {
    hide BranchesOf, Variants, ShapeProperties;
  }

  /** Ticks behind a move. */
  function Behind(move: Move, ticks: set<Tick>): (r: set<Tick>)
    ensures forall route: Route, t: nat :: (route, t) in r <==> route != [] && route[0] == move && (route[1..], t) in ticks
  {
    var r := set tick: Tick | tick in ticks :: ([move] + tick.0, tick.1);
    assert forall rest: Route :: ([move] + rest)[1..] == rest;
    assert forall route: Route :: route != [] && route[0] == move ==> route == [move] + route[1..];
    forall route: Route, t: nat ensures (route, t) in r <==> route != [] && route[0] == move && (route[1..], t) in ticks {
      BehindHolds(move, ticks, route, t);
    }
    r
  }

  lemma BehindHolds(move: Move, ticks: set<Tick>, route: Route, t: nat)
    ensures (route, t) in (set tick: Tick | tick in ticks :: ([move] + tick.0, tick.1)) <==>
              route != [] && route[0] == move && (route[1..], t) in ticks
  {
    if route != [] && route[0] == move && (route[1..], t) in ticks {
      var tick: Tick := (route[1..], t);
      assert [move] + tick.0 == route;
    }
    if tick: Tick :| tick in ticks && ([move] + tick.0, tick.1) == (route, t) {
      assert route[1..] == tick.0;
      assert tick == (route[1..], t);
    }
  }

  lemma BehindAdds(move: Move, ticks: set<Tick>, tick: Tick)
    requires tick in ticks
    ensures var first: Tick := ([move] + tick.0, tick.1);
      first !in Behind(move, ticks - {tick}) && Behind(move, ticks) == Behind(move, ticks - {tick}) + {first}
  {
    var first: Tick := ([move] + tick.0, tick.1);
    var fewer := Behind(move, ticks - {tick});
    hide Behind;
    assert first.0[1..] == tick.0;
    forall other: Tick ensures other in Behind(move, ticks) <==> other in fewer + {first} {
      assert other == (other.0, other.1);
      if other.0 != [] && other.0[0] == move { assert other.0 == [move] + other.0[1..]; }
    }
  }

  lemma {:induction false} BehindCount(move: Move, ticks: set<Tick>)
    ensures |Behind(move, ticks)| == |ticks|
    decreases |ticks|
  {
    if ticks == {} {
      assert Behind(move, ticks) == {};
    } else {
      var tick :| tick in ticks;
      BehindCount(move, ticks - {tick});
      BehindAdds(move, ticks, tick);
    }
  }

  /** The ticks at the place itself. */
  lemma {:induction false} OwnTicks(n: nat) returns (ticks: set<Tick>)
    ensures |ticks| == n && forall route: Route, t: nat :: (route, t) in ticks <==> route == [] && t < n
  {
    ticks := {};
    if n > 0 {
      var fewer := OwnTicks(n - 1);
      ticks := fewer + {([], n - 1)};
    }
  }

  /** The ticks behind some moves. */
  ghost predicate AreTicksBehind(kind: Kind, a: Place, moves: seq<Move>, ticks: set<Tick>) {
    forall route: Route, t: nat :: (route, t) in ticks <==>
      route != [] && route[0] in moves && Arrived(a, route).Some? && t < Toll(kind, Arrived(a, route).value)
  }

  lemma DisjointSize<T>(a: set<T>, b: set<T>)
    requires a !! b
    ensures |a + b| == |a| + |b|
  {
  }

  lemma SupportedBelow(kind: Kind, a: Place, move: Move)
    requires AllSupported(kind, a) && Moved(a, move).Some?
    ensures AllSupported(kind, Moved(a, move).value)
  {
    MovedLeads(a, move);
    SupportedStep(kind, a);
  }

  lemma AllSupportedWalk(kind: Kind, a: Place)
    ensures WalkAt(kind, a).supported <==> AllSupported(kind, a)
  {
    match kind
    case Types => TypeFinds(a, "");
    case Presence => PresenceFinds(a, "");
    case Closure => ClosureFinds(a, "");
  }

  lemma ArrivedFirst(a: Place, route: Route)
    requires route != []
    ensures Arrived(a, route) == if Moved(a, route[0]).Some? then Arrived(Moved(a, route[0]).value, route[1..]) else None
  {
  }

  lemma BehindOne(kind: Kind, a: Place, move: Move, ticks: set<Tick>)
    requires Moved(a, move).Some? && AreTicks(kind, Moved(a, move).value, ticks)
    ensures AreTicksBehind(kind, a, [move], Behind(move, ticks))
  {
    hide Moved, Toll, Behind;
    forall route: Route, t: nat
      ensures (route, t) in Behind(move, ticks) <==>
        route != [] && route[0] in [move] && Arrived(a, route).Some? && t < Toll(kind, Arrived(a, route).value)
    {
      if route != [] && route[0] == move { ArrivedFirst(a, route); }
    }
  }

  lemma BehindMore(kind: Kind, a: Place, moves: seq<Move>, move: Move, before: set<Tick>, behind: set<Tick>)
    requires AreTicksBehind(kind, a, moves, before) && AreTicksBehind(kind, a, [move], behind) && move !in moves
    ensures AreTicksBehind(kind, a, moves + [move], before + behind) && |before + behind| == |before| + |behind|
  {
    hide Arrived, Toll;
    forall tick: Tick | tick in before ensures tick !in behind { assert tick == (tick.0, tick.1); }
    assert before !! behind;
    DisjointSize(before, behind);
  }

  lemma NoneBehind(kind: Kind, a: Place, move: Move)
    requires Moved(a, move).None?
    ensures AreTicksBehind(kind, a, [move], {})
  {
    forall route: Route | route != [] && route[0] == move ensures Arrived(a, route).None? { ArrivedFirst(a, route); }
  }

  lemma {:induction false} TicksBehindOne(kind: Kind, a: Place, move: Move) returns (ticks: set<Tick>)
    requires AllSupported(kind, a)
    ensures AreTicksBehind(kind, a, [move], ticks) && |ticks| == StepsOf(kind, a, move)
    decreases a.shape, a.schema, 0, 0
  {
    hide Moved, Toll, WalkAt, AllSupported, AreTicks, AreTicksBehind;
    if Moved(a, move).Some? {
      var m := Moved(a, move).value;
      SupportedBelow(kind, a, move);
      MovedLeads(a, move);
      LeadsDown(a, m);
      var below := TicksOf(kind, m);
      BehindCount(move, below);
      BehindOne(kind, a, move, below);
      ticks := Behind(move, below);
    } else {
      NoneBehind(kind, a, move);
      ticks := {};
    }
  }

  lemma {:induction false} TicksBehind(kind: Kind, a: Place, moves: seq<Move>) returns (ticks: set<Tick>)
    requires AllSupported(kind, a) && forall i, j :: 0 <= i < j < |moves| ==> moves[i] != moves[j]
    ensures AreTicksBehind(kind, a, moves, ticks) && |ticks| == Sum(kind, a, moves).0
    decreases a.shape, a.schema, 1, |moves|
  {
    hide AllSupported, StepsOf, HeightOf, AreTicksBehind;
    if moves == [] {
      ticks := {};
      NoneBehindNothing(kind, a);
    } else {
      var first, move := moves[..|moves| - 1], moves[|moves| - 1];
      var before := TicksBehind(kind, a, first);
      var behind := TicksBehindOne(kind, a, move);
      BehindMore(kind, a, first, move, before, behind);
      assert moves == first + [move];
      ticks := before + behind;
    }
  }

  lemma NoneBehindNothing(kind: Kind, a: Place)
    ensures AreTicksBehind(kind, a, [], {})
  {
  }

  lemma TicksTogether(kind: Kind, a: Place, own: set<Tick>, behind: set<Tick>)
    requires forall route: Route, t: nat :: (route, t) in own <==> route == [] && t < Toll(kind, a)
    requires AreTicksBehind(kind, a, MovesAt(a), behind) && SupportedAllOf(a.schema)
    ensures AreTicks(kind, a, own + behind) && |own + behind| == |own| + |behind|
  {
    hide Moved, Toll, MovesAt, SupportedAllOf;
    forall route: Route, t: nat
      ensures (route, t) in own + behind <==> Arrived(a, route).Some? && t < Toll(kind, Arrived(a, route).value)
    {
      if route != [] && Arrived(a, route).Some? { MovesAreAll(a, route[0]); }
    }
    forall tick: Tick | tick in own ensures tick !in behind { assert tick == (tick.0, tick.1); }
    assert own !! behind;
    DisjointSize(own, behind);
  }

  /** The steps of a supported comparison are its ticks. */
  lemma {:induction false} TicksOf(kind: Kind, a: Place) returns (ticks: set<Tick>)
    requires AllSupported(kind, a)
    ensures AreTicks(kind, a, ticks) && |ticks| == WalkAt(kind, a).steps
    decreases a.shape, a.schema, 2, 0
  {
    hide Toll, WalkAt, AllSupported, Sum, MovesAt, AreTicks, AreTicksBehind;
    AllSupportedWalk(kind, a);
    WalkParts(kind, a);
    WalkCosts(kind, a);
    MovesDiffer(a);
    var own := OwnTicks(Toll(kind, a));
    var behind := TicksBehind(kind, a, MovesAt(a));
    TicksTogether(kind, a, own, behind);
    ticks := own + behind;
  }

  // ---------- the longest route ----------

  /** The longest route through these moves; none counts as zero. */
  ghost predicate LongestBehind(a: Place, moves: seq<Move>, height: nat) {
    && (forall route: Route :: route != [] && route[0] in moves && Arrived(a, route).Some? ==> |route| <= height)
    && (height > 0 ==> exists route: Route :: route != [] && route[0] in moves && Arrived(a, route).Some? && |route| == height)
  }

  lemma LongestOne(a: Place, move: Move, height: nat)
    requires Moved(a, move).Some? && Longest(Moved(a, move).value, height)
    ensures LongestBehind(a, [move], height + 1)
  {
    hide Moved;
    forall route: Route | route != [] && route[0] in [move] && Arrived(a, route).Some? ensures |route| <= height + 1 {
      ArrivedFirst(a, route);
    }
    var rest: Route :| Arrived(Moved(a, move).value, rest).Some? && |rest| == height;
    assert ([move] + rest)[1..] == rest;
    ArrivedFirst(a, [move] + rest);
  }

  lemma LongestMore(a: Place, moves: seq<Move>, move: Move, one: nat, two: nat)
    requires LongestBehind(a, moves, one) && LongestBehind(a, [move], two)
    ensures LongestBehind(a, moves + [move], Max(one, two))
  {
    hide Arrived;
  }

  lemma NothingBehind(a: Place, move: Move)
    requires Moved(a, move).None?
    ensures LongestBehind(a, [move], 0)
  {
    forall route: Route | route != [] && route[0] == move ensures Arrived(a, route).None? { ArrivedFirst(a, route); }
  }

  lemma {:induction false} HeightBehind(kind: Kind, a: Place, moves: seq<Move>)
    requires AllSupported(kind, a)
    ensures LongestBehind(a, moves, Sum(kind, a, moves).1)
    decreases a.shape, a.schema, 0, |moves|
  {
    hide Moved, WalkAt, AllSupported, StepsOf;
    if moves != [] {
      var first, move := moves[..|moves| - 1], moves[|moves| - 1];
      HeightBehind(kind, a, first);
      if Moved(a, move).Some? {
        var m := Moved(a, move).value;
        SupportedBelow(kind, a, move);
        MovedLeads(a, move);
        LeadsDown(a, m);
        LongestIs(kind, m);
        LongestOne(a, move, WalkAt(kind, m).height);
      } else {
        NothingBehind(a, move);
      }
      hide LongestBehind, Longest;
      LongestMore(a, first, move, Sum(kind, a, first).1, HeightOf(kind, a, move));
      assert moves == first + [move];
    }
  }

  lemma LongestTogether(a: Place, height: nat)
    requires LongestBehind(a, MovesAt(a), height) && SupportedAllOf(a.schema)
    ensures Longest(a, height)
  {
    hide MovesAt, SupportedAllOf, Moved;
    forall route: Route | Arrived(a, route).Some? ensures |route| <= height {
      if route != [] { MovesAreAll(a, route[0]); }
    }
    if height == 0 {
      var here: Route := [];
      assert Arrived(a, here).Some? && |here| == 0;
    }
  }

  /** The height of a supported comparison is the length of its longest route. */
  lemma {:induction false} LongestIs(kind: Kind, a: Place)
    requires AllSupported(kind, a)
    ensures Longest(a, WalkAt(kind, a).height)
    decreases a.shape, a.schema, 1, 0
  {
    hide Toll, WalkAt, AllSupported, Sum, MovesAt, Longest, LongestBehind, SupportedAllOf;
    AllSupportedWalk(kind, a);
    WalkParts(kind, a);
    WalkCosts(kind, a);
    HeightBehind(kind, a, MovesAt(a));
    LongestTogether(a, WalkAt(kind, a).height);
  }

  /**
   * What a supported comparison costs: its steps are, one by one, the toll of each place a route arrives at, and its
   * height is the length of the longest route.
   */
  lemma CostsExactly(kind: Kind, a: Place)
    requires AllSupported(kind, a)
    ensures exists ticks :: AreTicks(kind, a, ticks) && |ticks| == WalkAt(kind, a).steps
    ensures Longest(a, WalkAt(kind, a).height)
  {
    hide WalkAt, AllSupported, AreTicks, Longest;
    var ticks := TicksOf(kind, a);
    LongestIs(kind, a);
  }

  // ---------- the limits ----------

  /** At most 10000 steps, and no route of more than 64 moves. */
  ghost predicate Affordable(kind: Kind, a: Place) {
    && (exists ticks :: AreTicks(kind, a, ticks) && |ticks| <= 10000)
    && forall route: Route :: Arrived(a, route).Some? ==> |route| <= 64
  }

  ghost predicate AreFound(kind: Kind, a: Place, paths: set<string>) {
    forall p :: p in paths <==> Found(kind, a, p)
  }

  /** At most 32 different paths. */
  ghost predicate FewPaths(kind: Kind, a: Place) {
    exists paths :: AreFound(kind, a, paths) && |paths| <= 32
  }

  lemma TicksUnique(kind: Kind, a: Place, one: set<Tick>, two: set<Tick>)
    requires AreTicks(kind, a, one) && AreTicks(kind, a, two)
    ensures one == two
  {
    forall tick: Tick ensures tick in one <==> tick in two { assert tick == (tick.0, tick.1); }
  }

  lemma AffordableExactly(kind: Kind, a: Place)
    requires AllSupported(kind, a)
    ensures Affordable(kind, a) <==> WalkAt(kind, a).steps <= 10000 && WalkAt(kind, a).height <= 64
  {
    hide WalkAt, AllSupported, AreTicks, Arrived;
    CostsExactly(kind, a);
    var ticks :| AreTicks(kind, a, ticks) && |ticks| == WalkAt(kind, a).steps;
    if Affordable(kind, a) {
      var others :| AreTicks(kind, a, others) && |others| <= 10000;
      TicksUnique(kind, a, ticks, others);
    }
  }

  lemma FewExactly(kind: Kind, a: Place, paths: set<string>)
    requires AreFound(kind, a, paths)
    ensures FewPaths(kind, a) <==> |paths| <= 32
  {
    hide Found;
    if FewPaths(kind, a) {
      var others :| AreFound(kind, a, others) && |others| <= 32;
      assert others == paths;
    }
  }

  lemma WalkFromHere(kind: Kind, shape: Shape, schema: Json)
    ensures WalkOf(kind, shape, schema) == WalkAt(kind, Place(shape, schema, ""))
  {
  }

  /** The limits, said on the traversal's own counts. */
  lemma LimitsExactly(kind: Kind, shape: Shape, schema: Json)
    requires WalkOf(kind, shape, schema).supported
    ensures var a, w := Place(shape, schema, ""), WalkOf(kind, shape, schema);
      && (Affordable(kind, a) <==> w.steps <= 10000 && w.height <= 64)
      && (FewPaths(kind, a) <==> |w.paths| <= 32)
  {
    hide WalkOf, WalkAt, AllSupported, Found, Affordable, FewPaths;
    var a := Place(shape, schema, "");
    WalkFromHere(kind, shape, schema);
    PathsExactly(kind, shape, schema);
    AffordableExactly(kind, a);
    FewExactly(kind, a, WalkOf(kind, shape, schema).paths);
  }
}
