/** Declared enumerations: a bounded serializer and a duplicate check on its texts. */
module EnumDeclaration {
  import opened JsonValues
  import opened Strings
  import opened CanonicalJson

  const MAX_MEMBERS := 1024
  const MAX_NODES := 10000
  const MAX_DEPTH := 32

  // ---------- what a value costs ----------

  /** Values inside a value, itself included. */
  ghost function Nodes(j: Json): (n: nat)
    ensures n > 0
    decreases j
  {
    match j
    case Arr(items) => 1 + ItemNodes(items, j)
    case Obj(_) => 1 + EntryNodes(j, InOrder(Keys(j)))
    case _ => 1
  }

  ghost function ItemNodes(items: seq<Json>, parent: Json): nat
    requires forall i :: 0 <= i < |items| ==> items[i] < parent
    decreases parent, |items|
  {
    if items == [] then 0 else Nodes(items[0]) + ItemNodes(items[1..], parent)
  }

  ghost function EntryNodes(j: Json, keys: seq<string>): nat
    requires j.Obj? && forall k :: 0 <= k < |keys| ==> keys[k] in Keys(j)
    decreases j, |keys|
  {
    if keys == [] then 0 else Nodes(Member(j, keys[0])) + EntryNodes(j, keys[1..])
  }

  /** No value lies deeper than the limit. */
  ghost predicate Shallow(j: Json, room: int)
    decreases j
  {
    && room >= 0
    && (j.Arr? ==> forall i :: 0 <= i < |j.items| ==> Shallow(j.items[i], room - 1))
    && (j.Obj? ==> forall key :: key in Keys(j) ==> Shallow(Member(j, key), room - 1))
  }

  ghost predicate ShallowItems(items: seq<Json>, room: int) {
    forall i :: 0 <= i < |items| ==> Shallow(items[i], room)
  }

  ghost predicate ShallowEntries(j: Json, keys: seq<string>, room: int)
    requires j.Obj? && forall k :: 0 <= k < |keys| ==> keys[k] in Keys(j)
  {
    forall k :: 0 <= k < |keys| ==> Shallow(Member(j, keys[k]), room)
  }

  lemma ItemStep(items: seq<Json>, parent: Json, number: Number -> string, k: nat)
    requires (forall i :: 0 <= i < |items| ==> items[i] < parent) && k < |items|
    ensures ItemNodes(items[k..], parent) == Nodes(items[k]) + ItemNodes(items[k + 1..], parent)
    ensures Texts(items[k..], parent, number) == [Canon(items[k], number)] + Texts(items[k + 1..], parent, number)
  {
    assert items[k..][1..] == items[k + 1..];
  }

  lemma EntryStep(j: Json, keys: seq<string>, number: Number -> string, k: nat)
    requires j.Obj? && (forall i :: 0 <= i < |keys| ==> keys[i] in Keys(j)) && k < |keys|
    ensures EntryNodes(j, keys[k..]) == Nodes(Member(j, keys[k])) + EntryNodes(j, keys[k + 1..])
    ensures Entries(j, keys[k..], number) == [Entry(j, keys[k], number)] + Entries(j, keys[k + 1..], number)
  {
    assert keys[k..][1..] == keys[k + 1..];
  }

  lemma EntryText(j: Json, key: string, number: Number -> string)
    requires j.Obj? && key in Keys(j)
    ensures Entry(j, key, number) == Quote(key) + ":" + Canon(Member(j, key), number)
  {
  }

  lemma NothingLeft(j: Json, number: Number -> string)
    ensures ItemNodes([], j) == 0 && Texts([], j, number) == [] && TotalNodes([]) == 0
    ensures j.Obj? ==> EntryNodes(j, []) == 0 && Entries(j, [], number) == []
  {
  }

  lemma ObjectParts(j: Json, number: Number -> string)
    requires j.Obj?
    ensures forall k :: 0 <= k < |InOrder(Keys(j))| ==> InOrder(Keys(j))[k] in Keys(j)
    ensures Nodes(j) == 1 + EntryNodes(j, InOrder(Keys(j)))
    ensures Canon(j, number) == "{" + Join(Entries(j, InOrder(Keys(j)), number), ',') + "}"
  {
    KeysListed(j);
  }

  lemma ShallowArray(j: Json, room: int)
    requires j.Arr? && room >= 0
    ensures Shallow(j, room) <==> ShallowItems(j.items, room - 1)
  {
  }

  lemma ShallowObject(j: Json, keys: seq<string>, room: int)
    requires j.Obj? && room >= 0 && Elements(keys) == Keys(j) && forall i :: 0 <= i < |keys| ==> keys[i] in Keys(j)
    ensures Shallow(j, room) <==> ShallowEntries(j, keys, room - 1)
  {
    if ShallowEntries(j, keys, room - 1) {
      forall key | key in Keys(j) ensures Shallow(Member(j, key), room - 1) { assert key in Elements(keys); }
    }
  }

  // ---------- the serializer ----------

  class Canonicalizer {
    var remaining: int
    const number: Number -> string

    constructor (number: Number -> string)
      ensures remaining == MAX_NODES && this.number == number
    {
      this.number := number;
      remaining := MAX_NODES;
    }

    /** The canonical text of an item within the budget, `None` where there is none. */
    method Canonical(item: Json, depth: nat) returns (text: Option<string>)
      modifies this
      ensures text.Some? <==> Nodes(item) <= old(remaining) && Shallow(item, MAX_DEPTH - depth)
      ensures text.Some? ==> text.value == Canon(item, number) && remaining == old(remaining) - Nodes(item)
      decreases item
    {
      remaining := remaining - 1;
      if remaining < 0 || depth > MAX_DEPTH { return None; }
      match item
      case Null => return Some("null");
      case Bool(flag) => return Some(if flag then "true" else "false");
      case Num(n) => return Some(number(n));
      case Str(s) => return Some(Quote(s));
      case Arr(items) =>
        text := CanonicalArray(item, depth);
      case Obj(_) =>
        text := CanonicalObject(item, depth);
    }

    method CanonicalArray(item: Json, depth: nat) returns (text: Option<string>)
      requires item.Arr? && remaining >= 0 && depth <= MAX_DEPTH
      modifies this
      ensures text.Some? <==> Nodes(item) - 1 <= old(remaining) && Shallow(item, MAX_DEPTH - depth)
      ensures text.Some? ==> text.value == Canon(item, number) && remaining == old(remaining) - (Nodes(item) - 1)
      decreases item, 1
    {
      ShallowArray(item, MAX_DEPTH - depth);
      var texts := CanonicalItems(item.items, item, depth);
      return if texts.Some? then Some("[" + Join(texts.value, ',') + "]") else None;
    }

    method CanonicalObject(item: Json, depth: nat) returns (text: Option<string>)
      requires item.Obj? && remaining >= 0 && depth <= MAX_DEPTH
      modifies this
      ensures text.Some? <==> Nodes(item) - 1 <= old(remaining) && Shallow(item, MAX_DEPTH - depth)
      ensures text.Some? ==> text.value == Canon(item, number) && remaining == old(remaining) - (Nodes(item) - 1)
      decreases item, 1
    {
      var keys := Sorted(Keys(item));
      IncreasingUnique(keys, InOrder(Keys(item)));
      KeysListed(item);
      ShallowObject(item, keys, MAX_DEPTH - depth);
      ObjectParts(item, number);
      hide Shallow, Keys, Nodes, Canon, Entries, EntryNodes, ShallowEntries;
      var texts := CanonicalEntries(item, keys, depth);
      return if texts.Some? then Some("{" + Join(texts.value, ',') + "}") else None;
    }

    method CanonicalItems(items: seq<Json>, ghost parent: Json, depth: nat) returns (texts: Option<seq<string>>)
      requires remaining >= 0 && forall i :: 0 <= i < |items| ==> items[i] < parent
      modifies this
      ensures texts.Some? <==> ItemNodes(items, parent) <= old(remaining) && ShallowItems(items, MAX_DEPTH - depth - 1)
      ensures texts.Some? ==> texts.value == Texts(items, parent, number) && remaining == old(remaining) - ItemNodes(items, parent)
      decreases parent, 0
    {
      hide Shallow, Nodes, ItemNodes, Texts, Canon;
      NothingLeft(parent, number);
      var done: seq<string> := [];
      var k := 0;
      assert items[0..] == items;
      while k < |items|
        invariant 0 <= k <= |items| && remaining >= 0
        invariant remaining + ItemNodes(items, parent) == old(remaining) + ItemNodes(items[k..], parent)
        invariant forall i :: 0 <= i < k ==> Shallow(items[i], MAX_DEPTH - depth - 1)
        invariant Texts(items, parent, number) == done + Texts(items[k..], parent, number)
      {
        ItemStep(items, parent, number, k);
        var text := Canonical(items[k], depth + 1);
        if text.None? { return None; }
        done := done + [text.value];
        k := k + 1;
      }
      assert items[k..] == [];
      return Some(done);
    }

    method CanonicalEntries(item: Json, keys: seq<string>, depth: nat) returns (texts: Option<seq<string>>)
      requires item.Obj? && remaining >= 0 && forall i :: 0 <= i < |keys| ==> keys[i] in Keys(item)
      modifies this
      ensures texts.Some? <==> EntryNodes(item, keys) <= old(remaining) && ShallowEntries(item, keys, MAX_DEPTH - depth - 1)
      ensures texts.Some? ==> texts.value == Entries(item, keys, number) && remaining == old(remaining) - EntryNodes(item, keys)
      decreases item, 0
    {
      hide Shallow, Keys, Nodes, EntryNodes, Entries, Canon, Quote, Member;
      NothingLeft(item, number);
      var done: seq<string> := [];
      var k := 0;
      assert keys[0..] == keys;
      while k < |keys|
        invariant 0 <= k <= |keys| && remaining >= 0
        invariant remaining + EntryNodes(item, keys) == old(remaining) + EntryNodes(item, keys[k..])
        invariant forall i :: 0 <= i < k ==> Shallow(Member(item, keys[i]), MAX_DEPTH - depth - 1)
        invariant Entries(item, keys, number) == done + Entries(item, keys[k..], number)
      {
        EntryStep(item, keys, number, k);
        var text := Canonical(Member(item, keys[k]), depth + 1);
        if text.None? { return None; }
        EntryText(item, keys[k], number);
        done := done + [Quote(keys[k]) + ":" + text.value];
        k := k + 1;
      }
      assert keys[k..] == [];
      return Some(done);
    }
  }

  // ---------- the declaration ----------

  datatype EnumResult = Declared(values: seq<Json>) | Rejected(code: string)

  ghost function TotalNodes(items: seq<Json>): nat {
    if items == [] then 0 else Nodes(items[0]) + TotalNodes(items[1..])
  }

  /** Within the budget shared by all members. */
  ghost predicate Affordable(items: seq<Json>) {
    TotalNodes(items) <= MAX_NODES && ShallowItems(items, MAX_DEPTH)
  }

  ghost predicate Distinct(items: seq<Json>) {
    forall i, j :: 0 <= i < j < |items| ==> !SameJson(items[i], items[j])
  }

  ghost predicate Sized(value: Json) {
    value.Arr? && 1 <= |value.items| <= MAX_MEMBERS
  }

  lemma {:induction false} DuplicateFree(texts: seq<string>)
    ensures |Elements(texts)| <= |texts|
    ensures |Elements(texts)| == |texts| <==> forall i, j :: 0 <= i < j < |texts| ==> texts[i] != texts[j]
  {
    if texts != [] {
      var n := |texts| - 1;
      DuplicateFree(texts[..n]);
      assert texts == texts[..n] + [texts[n]];
      assert Elements(texts) == Elements(texts[..n]) + {texts[n]};
      if texts[n] in Elements(texts[..n]) {
        var i :| 0 <= i < n && texts[..n][i] == texts[n];
        assert texts[i] == texts[n];
        assert Elements(texts) == Elements(texts[..n]);
      } else {
        forall i, j | 0 <= i < j < |texts| && |Elements(texts[..n])| == n ensures texts[i] != texts[j] {
          if j == n { assert texts[i] in texts[..n]; } else { assert texts[..n][i] != texts[..n][j]; }
        }
        forall i, j | 0 <= i < j < n && texts[..n][i] == texts[..n][j] ensures texts[i] == texts[j] { }
      }
    }
  }

  lemma TotalStep(items: seq<Json>, k: nat)
    requires k < |items|
    ensures TotalNodes(items[k..]) == Nodes(items[k]) + TotalNodes(items[k + 1..])
  {
    assert items[k..][1..] == items[k + 1..];
  }

  /** `value.map(item => canonical(item, 0))`, all members on one budget. */
  method CanonicalMembers(items: seq<Json>, number: Number -> string) returns (members: Option<seq<string>>)
    ensures members.Some? <==> Affordable(items)
    ensures members.Some? ==> |members.value| == |items| && forall i :: 0 <= i < |items| ==> members.value[i] == Canon(items[i], number)
  {
    hide Shallow, Nodes, TotalNodes, Canon;
    NothingLeft(Null, number);
    var canonicalizer := new Canonicalizer(number);
    var done: seq<string> := [];
    assert items[0..] == items;
    while |done| < |items|
      invariant |done| <= |items| && canonicalizer.remaining >= 0 && canonicalizer.number == number
      invariant canonicalizer.remaining + TotalNodes(items) == MAX_NODES + TotalNodes(items[|done|..])
      invariant forall i :: 0 <= i < |done| ==> Shallow(items[i], MAX_DEPTH) && done[i] == Canon(items[i], number)
    {
      TotalStep(items, |done|);
      var text := canonicalizer.Canonical(items[|done|], 0);
      if text.None? { return None; }
      done := done + [text.value];
    }
    assert items[|done|..] == [];
    return Some(done);
  }

  lemma DistinctTexts(items: seq<Json>, members: seq<string>, number: Number -> string)
    requires NumberPrinter(number) && |members| == |items|
    requires forall i :: 0 <= i < |items| ==> members[i] == Canon(items[i], number)
    ensures |Elements(members)| == |members| <==> Distinct(items)
  {
    DuplicateFree(members);
    hide Canon, SameJson, NumberPrinter;
    forall i, j | 0 <= i < j < |items| ensures members[i] == members[j] <==> SameJson(items[i], items[j]) {
      CanonDecidesEquality(items[i], items[j], number);
    }
  }

  /** Accepts exactly the lists of 1 to 1024 values that fit the budget and differ pairwise, whatever the order of their keys. */
  method DeclaredEnum(value: Json, number: Number -> string) returns (r: EnumResult)
    requires NumberPrinter(number)
    ensures r.Declared? <==> Sized(value) && Affordable(value.items) && Distinct(value.items)
    ensures r.Declared? ==> r.values == value.items
    ensures r == Rejected("schema_enum_duplicate") <==> Sized(value) && Affordable(value.items) && !Distinct(value.items)
    ensures r == Rejected("schema_enum_unsupported") <==> !(Sized(value) && Affordable(value.items))
  {
    hide Affordable, Distinct, NumberPrinter;
    assert "schema_enum_unsupported"[12] != "schema_enum_duplicate"[12];
    if !value.Arr? || |value.items| == 0 || |value.items| > MAX_MEMBERS { return Rejected("schema_enum_unsupported"); }
    var members := CanonicalMembers(value.items, number);
    if members.None? { return Rejected("schema_enum_unsupported"); }
    DistinctTexts(value.items, members.value, number);
    if |Elements(members.value)| != |members.value| { return Rejected("schema_enum_duplicate"); }
    return Declared(value.items);
  }
}
