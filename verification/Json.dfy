/** Parsed JSON documents. Objects keep their members in document order. */
module JsonValues {

  datatype Option<+T> = None | Some(value: T)

  /** coefficient * 10^exponent; the canonical form has no trailing zero, so equal numbers are equal values. */
  datatype RawDecimal = Decimal(coefficient: int, exponent: int)
  type Number = d: RawDecimal
    | if d.coefficient == 0 then d.exponent == 0 else d.coefficient % 10 != 0
    witness Decimal(0, 0)

  predicate IsInteger(d: Number) {
    d.exponent >= 0
  }

  /** Object keys the analyzers refuse. */
  predicate Reserved(name: string) {
    name in {"__proto__", "prototype", "constructor"}
  }

  datatype Field = Field(key: string, value: Json)
  datatype Json =
    | Null
    | Bool(flag: bool)
    | Num(number: Number)
    | Str(text: string)
    | Arr(items: seq<Json>)
    | Obj(fields: seq<Field>)

  function Find(fields: seq<Field>, key: string): (i: nat)
    ensures i <= |fields|
    ensures i < |fields| ==> fields[i].key == key
    ensures forall k :: 0 <= k < i ==> fields[k].key != key
  {
    if fields == [] || fields[0].key == key then 0 else 1 + Find(fields[1..], key)
  }

  /** Own-property lookup; `None` stands for `undefined`. */
  function Get(j: Json, key: string): (r: Option<Json>)
    ensures r.Some? ==> j.Obj? && r.value < j
  {
    if j.Obj? then
      var i := Find(j.fields, key);
      if i < |j.fields| then
        assert j.fields[i] in j.fields;
        Some(j.fields[i].value)
      else None
    else None
  }

  lemma FieldIsPresent(j: Json, i: nat)
    requires j.Obj? && i < |j.fields|
    ensures Has(j, j.fields[i].key)
  {
    assert Find(j.fields, j.fields[i].key) <= i;
  }

  /** `Object.hasOwn`. */
  predicate Has(j: Json, key: string) {
    Get(j, key).Some?
  }

  /** Replace the value of a member that is present; absent members stay absent. */
  function Replace(j: Json, key: string, value: Json): (r: Json)
    requires j.Obj?
    ensures r.Obj?
    ensures forall other :: Get(r, other) == if other == key && Has(j, key) then Some(value) else Get(j, other)
  {
    var i := Find(j.fields, key);
    if i < |j.fields| then
      var r := Obj(j.fields[i := Field(key, value)]);
      ReplaceGet(j, key, value);
      r
    else j
  }

  lemma ReplaceGet(j: Json, key: string, value: Json)
    requires j.Obj? && Has(j, key)
    ensures forall other :: Get(Obj(j.fields[Find(j.fields, key) := Field(key, value)]), other)
                         == if other == key then Some(value) else Get(j, other)
  {
    var i := Find(j.fields, key);
    var after := j.fields[i := Field(key, value)];
    forall other ensures Get(Obj(after), other) == if other == key then Some(value) else Get(j, other) {
      var k := Find(j.fields, other);
      assert forall n :: 0 <= n < |after| ==> after[n].key == j.fields[n].key;
      assert Find(after, other) == k;
    }
  }

  /** Parsed objects never repeat a key. */
  ghost predicate DistinctKeys(fields: seq<Field>) {
    forall i, j :: 0 <= i < j < |fields| ==> fields[i].key != fields[j].key
  }

  /** The fields' keys with these values instead, one for one. */
  function Zip(fields: seq<Field>, values: seq<Json>): (r: seq<Field>)
    requires |fields| == |values|
    ensures |r| == |fields|
    ensures forall i :: 0 <= i < |r| ==> r[i] == Field(fields[i].key, values[i])
  {
    seq(|fields|, i requires 0 <= i < |fields| => Field(fields[i].key, values[i]))
  }
}
