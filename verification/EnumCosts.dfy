/** What the serializer of declared enumerations counts: the nodes of a value are its places, and depth is their length. */
module EnumCosts {
  import opened JsonValues
  import opened Strings
  import opened CanonicalJson
  import opened EnumDeclaration

  datatype Turn = ToItem(index: nat) | ToEntry(key: string)

  /** The value at a place: the item at an index, the entry of a key, and so on. */
  function At(j: Json, place: seq<Turn>): Option<Json>
    decreases |place|
  {
    if place == [] then Some(j)
    else
      match place[0]
      case ToItem(index) => if j.Arr? && index < |j.items| then At(j.items[index], place[1..]) else None
      case ToEntry(key) => if Has(j, key) then At(Get(j, key).value, place[1..]) else None
  }

  ghost predicate Lists(j: Json, places: set<seq<Turn>>) {
    forall place: seq<Turn> :: place in places <==> At(j, place).Some?
  }

  // ---------- places below a turn ----------

  ghost function Below(turn: Turn, places: set<seq<Turn>>): set<seq<Turn>> {
    set place | place in places :: [turn] + place
  }

  lemma BelowHolds(turn: Turn, places: set<seq<Turn>>, place: seq<Turn>)
    ensures place in Below(turn, places) <==> place != [] && place[0] == turn && place[1..] in places
  {
    if place != [] && place[0] == turn && place[1..] in places { assert place == [turn] + place[1..]; }
  }

  lemma {:induction false} BelowSize(turn: Turn, places: set<seq<Turn>>)
    ensures |Below(turn, places)| == |places|
    decreases |places|
  {
    if places != {} {
      var place :| place in places;
      BelowSize(turn, places - {place});
      var rest := Below(turn, places - {place});
      assert [turn] + place !in rest by {
        BelowHolds(turn, places - {place}, [turn] + place);
        assert ([turn] + place)[1..] == place;
      }
      assert Below(turn, places) == rest + {[turn] + place};
    }
  }

  lemma DisjointSize<T>(a: set<T>, b: set<T>)
    requires a !! b
    ensures |a + b| == |a| + |b|
  {
  }

  // ---------- all the places of a value ----------

  ghost predicate ListsItems(j: Json, from: nat, places: set<seq<Turn>>)
    requires j.Arr?
  {
    forall place: seq<Turn> :: place in places <==>
      && place != [] && place[0].ToItem? && from <= place[0].index < |j.items| && At(j.items[place[0].index], place[1..]).Some?
  }

  ghost predicate ListsEntries(j: Json, keys: seq<string>, places: set<seq<Turn>>) {
    forall place: seq<Turn> :: place in places <==>
      && place != [] && place[0].ToEntry? && place[0].key in keys && Has(j, place[0].key)
      && At(Get(j, place[0].key).value, place[1..]).Some?
  }

  lemma {:induction false} ItemPlaces(j: Json, from: nat) returns (places: set<seq<Turn>>)
    requires j.Arr? && from <= |j.items|
    ensures ListsItems(j, from, places) && |places| == ItemNodes(j.items[from..], j)
    decreases j, 0, |j.items| - from
  {
    if from == |j.items| {
      places := {};
    } else {
      var here := PlacesOf(j.items[from]);
      var later := ItemPlaces(j, from + 1);
      var turned := Below(ToItem(from), here);
      places := turned + later;
      forall place: seq<Turn> { BelowHolds(ToItem(from), here, place); }
      BelowSize(ToItem(from), here);
      assert turned !! later;
      DisjointSize(turned, later);
      assert j.items[from..][0] == j.items[from] && j.items[from..][1..] == j.items[from + 1..];
    }
  }

  lemma {:induction false} EntryPlaces(j: Json, keys: seq<string>) returns (places: set<seq<Turn>>)
    requires j.Obj? && (forall k :: 0 <= k < |keys| ==> keys[k] in Keys(j)) && Increasing(keys)
    ensures ListsEntries(j, keys, places) && |places| == EntryNodes(j, keys)
    decreases j, 0, |keys|
  {
    if keys == [] {
      places := {};
    } else {
      KeyIsPresent(j, keys[0]);
      var here := PlacesOf(Member(j, keys[0]));
      var later := EntryPlaces(j, keys[1..]);
      var turned := Below(ToEntry(keys[0]), here);
      places := turned + later;
      forall place: seq<Turn> { BelowHolds(ToEntry(keys[0]), here, place); }
      BelowSize(ToEntry(keys[0]), here);
      FirstKeyIsNew(keys);
      assert turned !! later;
      DisjointSize(turned, later);
    }
  }

  lemma FirstKeyIsNew(keys: seq<string>)
    requires Increasing(keys) && keys != []
    ensures keys[0] !in keys[1..]
  {
  }

  lemma ArrayPlaces(j: Json, below: set<seq<Turn>>)
    requires j.Arr? && ListsItems(j, 0, below)
    ensures Lists(j, {[]} + below) && |{[]} + below| == 1 + |below|
  {
    hide Nodes;
    forall place: seq<Turn> ensures place in {[]} + below <==> At(j, place).Some? { }
    assert [] !in below;
    DisjointSize({[]}, below);
  }

  lemma AtEntry(j: Json, place: seq<Turn>)
    requires j.Obj? && place != []
    ensures At(j, place).Some? <==>
      place[0].ToEntry? && place[0].key in InOrder(Keys(j)) && Has(j, place[0].key)
      && At(Get(j, place[0].key).value, place[1..]).Some?
  {
    if place[0].ToEntry? {
      KeyIsPresent(j, place[0].key);
      assert place[0].key in Elements(InOrder(Keys(j))) <==> place[0].key in Keys(j);
    }
  }

  lemma ObjectPlaces(j: Json, below: set<seq<Turn>>)
    requires j.Obj? && ListsEntries(j, InOrder(Keys(j)), below)
    ensures Lists(j, {[]} + below) && |{[]} + below| == 1 + |below|
  {
    hide At, Has, Get;
    forall place: seq<Turn> ensures place in {[]} + below <==> At(j, place).Some? {
      if place != [] { AtEntry(j, place); } else { AtItself(j); }
    }
    assert [] !in below;
    DisjointSize({[]}, below);
  }

  lemma AtItself(j: Json)
    ensures At(j, []) == Some(j)
  {
  }

  lemma ScalarPlaces(j: Json)
    requires !j.Arr? && !j.Obj?
    ensures Lists(j, {[]})
  {
  }

  /** The nodes a value costs are its places. */
  lemma {:induction false} PlacesOf(j: Json) returns (places: set<seq<Turn>>)
    ensures Lists(j, places) && |places| == Nodes(j)
    decreases j, 1, 0
  {
    hide Lists, ListsItems, ListsEntries;
    if j.Arr? {
      var below := ItemPlaces(j, 0);
      ArrayPlaces(j, below);
      places := {[]} + below;
      assert j.items[0..] == j.items;
    } else if j.Obj? {
      KeysListed(j);
      var below := EntryPlaces(j, InOrder(Keys(j)));
      ObjectPlaces(j, below);
      places := {[]} + below;
    } else {
      ScalarPlaces(j);
      places := {[]};
    }
  }

  /** A value is shallow exactly when no place is further down than there is room. */
  lemma {:induction false} ShallowExactly(j: Json, room: int)
    ensures Shallow(j, room) <==> forall place: seq<Turn> :: At(j, place).Some? ==> |place| <= room
    decreases j
  {
    if Shallow(j, room) {
      forall place: seq<Turn> | At(j, place).Some? ensures |place| <= room { PlaceIsNear(j, room, place); }
    } else {
      var place := FarPlace(j, room);
    }
  }

  lemma {:induction false} PlaceIsNear(j: Json, room: int, place: seq<Turn>)
    requires Shallow(j, room) && At(j, place).Some?
    ensures |place| <= room
    decreases |place|
  {
    if place != [] {
      match place[0]
      case ToItem(index) => PlaceIsNear(j.items[index], room - 1, place[1..]);
      case ToEntry(key) =>
        KeyIsPresent(j, key);
        PlaceIsNear(Member(j, key), room - 1, place[1..]);
    }
  }

  lemma {:induction false} FarPlace(j: Json, room: int) returns (place: seq<Turn>)
    requires !Shallow(j, room)
    ensures At(j, place).Some? && |place| > room
    decreases j
  {
    place := [];
    if room >= 0 {
      if j.Arr? {
        var i :| 0 <= i < |j.items| && !Shallow(j.items[i], room - 1);
        var rest := FarPlace(j.items[i], room - 1);
        place := [ToItem(i)] + rest;
        assert place[1..] == rest;
      } else {
        var key :| key in Keys(j) && !Shallow(Member(j, key), room - 1);
        KeyIsPresent(j, key);
        var rest := FarPlace(Member(j, key), room - 1);
        place := [ToEntry(key)] + rest;
        assert place[1..] == rest;
      }
    }
  }
}
