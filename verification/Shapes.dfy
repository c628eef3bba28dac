/** The shapes of literal JSON arguments, the values they stand for, and how a literal gets its shape. */
module Shapes {
  import opened JsonValues

  datatype Property = Property(name: string, shape: Shape)
  datatype Shape =
    | NullShape
    | BooleanShape
    | IntegerShape
    | NumberShape
    | StringShape
    | ArrayShape(items: Option<Shape>)
    | ObjectShape(properties: seq<Property>)
    | AnyOfShape(variants: seq<Shape>)

  /** The `type` of a shape; a union has none. */
  function TypeName(shape: Shape): string {
    match shape
    case NullShape => "null"
    case BooleanShape => "boolean"
    case IntegerShape => "integer"
    case NumberShape => "number"
    case StringShape => "string"
    case ArrayShape(_) => "array"
    case ObjectShape(_) => "object"
    case AnyOfShape(_) => ""
  }

  function IndexOfProperty(properties: seq<Property>, name: string): (i: nat)
    ensures i <= |properties|
    ensures i < |properties| ==> properties[i].name == name
    ensures forall k :: 0 <= k < i ==> properties[k].name != name
  {
    if properties == [] || properties[0].name == name then 0 else 1 + IndexOfProperty(properties[1..], name)
  }

  predicate Lists(properties: seq<Property>, name: string) {
    IndexOfProperty(properties, name) < |properties|
  }

  ghost predicate DistinctNames(properties: seq<Property>) {
    forall i, j :: 0 <= i < j < |properties| ==> properties[i].name != properties[j].name
  }

  /** What literals produce: no empty union, no repeated property. */
  ghost predicate WellFormed(shape: Shape) {
    match shape
    case ArrayShape(Some(items)) => WellFormed(items)
    case ObjectShape(properties) =>
      DistinctNames(properties) && forall i :: 0 <= i < |properties| ==> WellFormed(properties[i].shape)
    case AnyOfShape(variants) =>
      variants != [] && forall i :: 0 <= i < |variants| ==> WellFormed(variants[i])
    case _ => true
  }

  /**
   * The values a shape stands for: an array without item shape is the empty array, an object has exactly the listed
   * keys, in any order, and "number" stands for the numbers that are not integers.
   */
  ghost predicate Denotes(shape: Shape, value: Json)
    decreases shape
  {
    match shape
    case NullShape => value.Null?
    case BooleanShape => value.Bool?
    case IntegerShape => value.Num? && IsInteger(value.number)
    case NumberShape => value.Num? && !IsInteger(value.number)
    case StringShape => value.Str?
    case ArrayShape(None) => value == Arr([])
    case ArrayShape(Some(items)) =>
      value.Arr? && value.items != [] && forall i :: 0 <= i < |value.items| ==> Denotes(items, value.items[i])
    case ObjectShape(properties) =>
      && value.Obj? && DistinctKeys(value.fields)
      && (forall i :: 0 <= i < |value.fields| ==> Lists(properties, value.fields[i].key))
      && (forall i :: 0 <= i < |properties| ==>
            Has(value, properties[i].name) && Denotes(properties[i].shape, Get(value, properties[i].name).value))
    case AnyOfShape(variants) => exists i :: 0 <= i < |variants| && Denotes(variants[i], value)
  }

  // ---------- every well-formed shape stands for something ----------

  function Sample(shape: Shape): Json {
    match shape
    case NullShape => Null
    case BooleanShape => Bool(true)
    case IntegerShape => Num(Decimal(0, 0))
    case NumberShape => Num(Decimal(5, -1))
    case StringShape => Str("")
    case ArrayShape(None) => Arr([])
    case ArrayShape(Some(items)) => Arr([Sample(items)])
    case ObjectShape(properties) =>
      Obj(seq(|properties|, i requires 0 <= i < |properties| => Field(properties[i].name, Sample(properties[i].shape))))
    case AnyOfShape(variants) => if variants == [] then Null else Sample(variants[0])
  }

  /** An object with the listed names in order and the given values. */
  function WithValues(properties: seq<Property>, values: seq<Json>): (r: Json)
    requires |values| == |properties|
    ensures r.Obj? && |r.fields| == |properties|
    ensures forall i :: 0 <= i < |properties| ==> r.fields[i] == Field(properties[i].name, values[i])
  {
    Obj(seq(|properties|, i requires 0 <= i < |properties| => Field(properties[i].name, values[i])))
  }

  lemma WithValuesDenoted(properties: seq<Property>, values: seq<Json>)
    requires |values| == |properties| && DistinctNames(properties)
    requires forall i :: 0 <= i < |properties| ==> Denotes(properties[i].shape, values[i])
    ensures Denotes(ObjectShape(properties), WithValues(properties, values))
    ensures forall i :: 0 <= i < |properties| ==> Get(WithValues(properties, values), properties[i].name) == Some(values[i])
  {
    var value := WithValues(properties, values);
    forall i | 0 <= i < |properties|
      ensures Get(value, properties[i].name) == Some(values[i]) && Lists(properties, value.fields[i].key)
    {
      assert value.fields[i].key == properties[i].name;
      assert Find(value.fields, properties[i].name) == i;
      assert IndexOfProperty(properties, properties[i].name) <= i;
    }
  }

  lemma {:induction false} SampleDenoted(shape: Shape)
    requires WellFormed(shape)
    ensures Denotes(shape, Sample(shape))
  {
    match shape
    case ArrayShape(Some(items)) => SampleDenoted(items);
    case ObjectShape(properties) =>
      var values := seq(|properties|, i requires 0 <= i < |properties| => Sample(properties[i].shape));
      forall i | 0 <= i < |properties| ensures Denotes(properties[i].shape, values[i]) {
        SampleDenoted(properties[i].shape);
      }
      WithValuesDenoted(properties, values);
      assert Sample(shape) == WithValues(properties, values);
    case AnyOfShape(variants) => SampleDenoted(variants[0]);
    case _ =>
  }

  /** A value of the object shape whose property `i` is the given value. */
  lemma WithOneValue(properties: seq<Property>, i: nat, child: Json) returns (value: Json)
    requires i < |properties| && WellFormed(ObjectShape(properties)) && Denotes(properties[i].shape, child)
    ensures Denotes(ObjectShape(properties), value) && value.Obj?
    ensures Get(value, properties[i].name) == Some(child)
    ensures |value.fields| == |properties| && value.fields[i] == Field(properties[i].name, child)
  {
    var values := seq(|properties|, k requires 0 <= k < |properties| => if k == i then child else Sample(properties[k].shape));
    forall k | 0 <= k < |properties| ensures Denotes(properties[k].shape, values[k]) {
      SampleDenoted(properties[k].shape);
    }
    WithValuesDenoted(properties, values);
    value := WithValues(properties, values);
  }

  // ---------- the shape of a literal ----------

  datatype Member = Member(name: string, initializer: Literal)
  datatype Literal =
    | NullLiteral
    | BooleanLiteral(flag: bool)
    | NumberLiteral(number: Number)
    | StringLiteral(text: string)
    | ArrayLiteral(elements: seq<Literal>)
    | ObjectLiteral(members: seq<Member>)

  /** The JSON value a literal evaluates to. */
  function Evaluate(literal: Literal): Json {
    match literal
    case NullLiteral => Null
    case BooleanLiteral(flag) => Bool(flag)
    case NumberLiteral(number) => Num(number)
    case StringLiteral(text) => Str(text)
    case ArrayLiteral(elements) =>
      Arr(seq(|elements|, i requires 0 <= i < |elements| => Evaluate(elements[i])))
    case ObjectLiteral(members) =>
      Obj(seq(|members|, i requires 0 <= i < |members| => Field(members[i].name, Evaluate(members[i].initializer))))
  }

  /** The shape of a literal: element shapes are collected without repetition, at most 32 of them. */
  function ShapeOf(literal: Literal): Option<Shape>
    decreases literal, 1, 0
  {
    match literal
    case NullLiteral => Some(NullShape)
    case BooleanLiteral(_) => Some(BooleanShape)
    case NumberLiteral(number) => Some(if IsInteger(number) then IntegerShape else NumberShape)
    case StringLiteral(_) => Some(StringShape)
    case ArrayLiteral(elements) =>
      (match ElementShapes(literal, |elements|)
       case None => None
       case Some(shapes) => Some(ArrayOf(shapes)))
    case ObjectLiteral(members) =>
      match MemberShapes(literal, |members|)
      case None => None
      case Some(properties) => Some(ObjectShape(properties))
  }

  function ElementShapes(literal: Literal, n: nat): Option<seq<Shape>>
    requires literal.ArrayLiteral? && n <= |literal.elements|
    decreases literal, 0, n
  {
    if n == 0 then Some([])
    else
      match (ElementShapes(literal, n - 1), ShapeOf(literal.elements[n - 1]))
      case (Some(shapes), Some(shape)) =>
        if shape in shapes then Some(shapes) else if |shapes| == 32 then None else Some(shapes + [shape])
      case _ => None
  }

  function MemberShapes(literal: Literal, n: nat): Option<seq<Property>>
    requires literal.ObjectLiteral? && n <= |literal.members|
    decreases literal, 0, n
  {
    if n == 0 then Some([])
    else
      var member := literal.members[n - 1];
      match (MemberShapes(literal, n - 1), ShapeOf(member.initializer))
      case (Some(properties), Some(shape)) =>
        if Reserved(member.name) || Lists(properties, member.name) then None
        else Some(properties + [Property(member.name, shape)])
      case _ => None
  }

  /** The different shapes of the elements. */
  function ElementShapeSet(elements: seq<Literal>): set<Option<Shape>> {
    set i | 0 <= i < |elements| :: ShapeOf(elements[i])
  }

  /** These are the shapes, each once. */
  ghost predicate ListsShapes(shapes: seq<Shape>, shaped: set<Option<Shape>>) {
    |shapes| == |shaped| && forall shape :: shape in shapes <==> Some(shape) in shaped
  }

  lemma ListsOneMore(shapes: seq<Shape>, shaped: set<Option<Shape>>, shape: Shape)
    requires ListsShapes(shapes, shaped) && None !in shaped
    ensures shape in shapes ==> shaped + {Some(shape)} == shaped
    ensures shape !in shapes ==> |shaped + {Some(shape)}| == |shapes| + 1 && ListsShapes(shapes + [shape], shaped + {Some(shape)})
  {
  }

  /** Exactly these shapes, if all are there and there are at most 32. */
  ghost predicate Collects(shapes: Option<seq<Shape>>, shaped: set<Option<Shape>>) {
    && (shapes.Some? <==> None !in shaped && |shaped| <= 32)
    && (shapes.Some? ==> ListsShapes(shapes.value, shaped))
  }

  function WithShape(shapes: Option<seq<Shape>>, shape: Option<Shape>): Option<seq<Shape>> {
    if shapes.None? || shape.None? then None
    else if shape.value in shapes.value then shapes
    else if |shapes.value| == 32 then None
    else Some(shapes.value + [shape.value])
  }

  lemma ElementShapesStep(literal: Literal, n: nat)
    requires literal.ArrayLiteral? && 0 < n <= |literal.elements|
    ensures ElementShapes(literal, n) == WithShape(ElementShapes(literal, n - 1), ShapeOf(literal.elements[n - 1]))
  {
    hide ShapeOf;
  }

  lemma CollectsOneMore(shapes: Option<seq<Shape>>, shaped: set<Option<Shape>>, shape: Option<Shape>)
    requires Collects(shapes, shaped)
    ensures Collects(WithShape(shapes, shape), shaped + {shape})
  {
    SetIsNoSmaller(shaped, shape);
    if shapes.Some? && shape.Some? { ListsOneMore(shapes.value, shaped, shape.value); }
  }

  lemma {:induction false} ElementShapesExactly(literal: Literal, n: nat)
    requires literal.ArrayLiteral? && n <= |literal.elements|
    ensures Collects(ElementShapes(literal, n), ElementShapeSet(literal.elements[..n]))
  {
    hide ShapeOf, Collects, ElementShapeSet, WithShape;
    if n > 0 {
      ElementShapesExactly(literal, n - 1);
      var before, last := ElementShapeSet(literal.elements[..n - 1]), ShapeOf(literal.elements[n - 1]);
      assert literal.elements[..n] == literal.elements[..n - 1] + [literal.elements[n - 1]];
      SetGrows(literal.elements[..n - 1], literal.elements[n - 1]);
      ElementShapesStep(literal, n);
      CollectsOneMore(ElementShapes(literal, n - 1), before, last);
    } else {
      NoElements();
    }
  }

  lemma NoElements()
    ensures ElementShapeSet([]) == {} && Collects(Some([]), {})
  {
  }

  lemma SetIsNoSmaller(before: set<Option<Shape>>, last: Option<Shape>)
    ensures |before| <= |before + {last}|
  {
    if last in before { assert before + {last} == before; } else { assert |before + {last}| == |before| + 1; }
  }

  lemma SetGrows(elements: seq<Literal>, last: Literal)
    ensures ElementShapeSet(elements + [last]) == ElementShapeSet(elements) + {ShapeOf(last)}
  {
    hide ShapeOf;
    var grown := elements + [last];
    forall shape | shape in ElementShapeSet(elements) ensures shape in ElementShapeSet(grown) {
      var i :| 0 <= i < |elements| && ShapeOf(elements[i]) == shape;
      assert grown[i] == elements[i];
    }
    assert grown[|elements|] == last;
  }

  lemma {:induction false} MemberShapesExactly(literal: Literal, n: nat)
    requires literal.ObjectLiteral? && n <= |literal.members|
    ensures MemberShapes(literal, n).Some? <==>
      && (forall i :: 0 <= i < n ==> ShapeOf(literal.members[i].initializer).Some? && PlainName(literal.members[i].name))
      && forall i, j :: 0 <= i < j < n ==> literal.members[i].name != literal.members[j].name
    ensures MemberShapes(literal, n).Some? ==>
      && |MemberShapes(literal, n).value| == n
      && forall i :: 0 <= i < n ==>
           MemberShapes(literal, n).value[i] == Property(literal.members[i].name, ShapeOf(literal.members[i].initializer).value)
  {
    if n > 0 {
      hide ShapeOf;
      MemberShapesExactly(literal, n - 1);
      if MemberShapes(literal, n - 1).Some? {
        var before, name := MemberShapes(literal, n - 1).value, literal.members[n - 1].name;
        assert Lists(before, name) <==> exists i :: 0 <= i < n - 1 && literal.members[i].name == name by {
          if i :| 0 <= i < n - 1 && literal.members[i].name == name { assert before[i].name == name; }
          if Lists(before, name) { assert before[IndexOfProperty(before, name)].name == name; }
        }
      }
    }
  }

  /** Not one of the names that objects of the analyzers must not have. */
  predicate PlainName(name: string) {
    name != "__proto__" && name != "prototype" && name != "constructor"
  }

  /**
   * Which literals have a shape, and which: a scalar always its own; an array when its elements do and these have at most
   * 32 different ones, listed without repetition; an object when its members do and their names are plain and different.
   */
  lemma ShapeOfExactly(literal: Literal)
    ensures literal.NullLiteral? ==> ShapeOf(literal) == Some(NullShape)
    ensures literal.BooleanLiteral? ==> ShapeOf(literal) == Some(BooleanShape)
    ensures literal.StringLiteral? ==> ShapeOf(literal) == Some(StringShape)
    ensures literal.NumberLiteral? ==> ShapeOf(literal) == Some(if literal.number.exponent >= 0 then IntegerShape else NumberShape)
    ensures literal.ArrayLiteral? ==>
      (ShapeOf(literal).Some? <==> None !in ElementShapeSet(literal.elements) && |ElementShapeSet(literal.elements)| <= 32)
    ensures literal.ArrayLiteral? && ShapeOf(literal).Some? ==>
      exists shapes :: ListsShapes(shapes, ElementShapeSet(literal.elements)) && ShapeOf(literal).value == ArrayOf(shapes)
    ensures literal.ObjectLiteral? ==>
      (ShapeOf(literal).Some? <==>
        && (forall i :: 0 <= i < |literal.members| ==>
              ShapeOf(literal.members[i].initializer).Some? && PlainName(literal.members[i].name))
        && forall i, j :: 0 <= i < j < |literal.members| ==> literal.members[i].name != literal.members[j].name)
    ensures literal.ObjectLiteral? && ShapeOf(literal).Some? ==>
      && ShapeOf(literal).value.ObjectShape? && |ShapeOf(literal).value.properties| == |literal.members|
      && forall i :: 0 <= i < |literal.members| ==>
           ShapeOf(literal).value.properties[i] == Property(literal.members[i].name, ShapeOf(literal.members[i].initializer).value)
  {
    match literal
    case ArrayLiteral(elements) =>
      ElementShapesExactly(literal, |elements|);
      assert elements[..|elements|] == elements;
    case ObjectLiteral(members) => MemberShapesExactly(literal, |members|);
    case _ =>
  }

  /** A literal's shape is well formed and stands for the literal's own value. */
  lemma {:induction false} ShapeOfDenotes(literal: Literal)
    requires ShapeOf(literal).Some?
    ensures WellFormed(ShapeOf(literal).value)
    ensures Denotes(ShapeOf(literal).value, Evaluate(literal))
    decreases literal, 2, 0
  {
    match literal
    case ArrayLiteral(_) => ArrayLiteralDenoted(literal);
    case ObjectLiteral(_) => ObjectLiteralDenoted(literal);
    case _ =>
  }

  lemma {:induction false} ArrayLiteralDenoted(literal: Literal)
    requires literal.ArrayLiteral? && ShapeOf(literal).Some?
    ensures WellFormed(ShapeOf(literal).value) && Denotes(ShapeOf(literal).value, Evaluate(literal))
    decreases literal, 1, 0
  {
    hide Denotes, WellFormed;
    var elements := literal.elements;
    ElementShapesCover(literal, |elements|);
    var values := seq(|elements|, i requires 0 <= i < |elements| => Evaluate(elements[i]));
    CoveredArray(ElementShapes(literal, |elements|).value, values);
    assert Evaluate(literal) == Arr(values);
  }

  lemma {:induction false} ObjectLiteralDenoted(literal: Literal)
    requires literal.ObjectLiteral? && ShapeOf(literal).Some?
    ensures WellFormed(ShapeOf(literal).value) && Denotes(ShapeOf(literal).value, Evaluate(literal))
    decreases literal, 1, 0
  {
    hide Denotes;
    var members := literal.members;
    MemberShapesCover(literal, |members|);
    var properties := MemberShapes(literal, |members|).value;
    var values := seq(|members|, i requires 0 <= i < |members| => Evaluate(members[i].initializer));
    WithValuesDenoted(properties, values);
    assert Evaluate(literal) == WithValues(properties, values);
  }

  function ArrayOf(shapes: seq<Shape>): Shape {
    ArrayShape(if shapes == [] then None else if |shapes| == 1 then Some(shapes[0]) else Some(AnyOfShape(shapes)))
  }

  lemma CoveredArray(shapes: seq<Shape>, values: seq<Json>)
    requires shapes == [] <==> values == []
    requires forall k :: 0 <= k < |shapes| ==> WellFormed(shapes[k])
    requires forall i :: 0 <= i < |values| ==> exists k :: 0 <= k < |shapes| && Denotes(shapes[k], values[i])
    ensures WellFormed(ArrayOf(shapes)) && Denotes(ArrayOf(shapes), Arr(values))
  {
    if shapes != [] {
      var element := if |shapes| == 1 then shapes[0] else AnyOfShape(shapes);
      forall i | 0 <= i < |values| ensures Denotes(element, values[i]) {
        var k :| 0 <= k < |shapes| && Denotes(shapes[k], values[i]);
      }
    }
  }

  lemma {:induction false} ElementShapesCover(literal: Literal, n: nat)
    requires literal.ArrayLiteral? && n <= |literal.elements| && ElementShapes(literal, n).Some?
    ensures var shapes := ElementShapes(literal, n).value;
            && (shapes == [] <==> n == 0)
            && (forall k :: 0 <= k < |shapes| ==> WellFormed(shapes[k]))
            && (forall i :: 0 <= i < n ==>
                  exists k :: 0 <= k < |shapes| && Denotes(shapes[k], Evaluate(literal.elements[i])))
    decreases literal, 0, n
  {
    if n > 0 {
      hide Denotes, WellFormed, ShapeOf, Evaluate;
      ElementShapesCover(literal, n - 1);
      ShapeOfDenotes(literal.elements[n - 1]);
      var before, after := ElementShapes(literal, n - 1).value, ElementShapes(literal, n).value;
      var shape := ShapeOf(literal.elements[n - 1]).value;
      assert before <= after && shape in after;
      forall i | 0 <= i < n
        ensures exists k :: 0 <= k < |after| && Denotes(after[k], Evaluate(literal.elements[i]))
      {
        if i < n - 1 {
          var k :| 0 <= k < |before| && Denotes(before[k], Evaluate(literal.elements[i]));
          assert after[k] == before[k];
        } else {
          var k :| 0 <= k < |after| && after[k] == shape;
        }
      }
    }
  }

  lemma {:induction false} MemberShapesCover(literal: Literal, n: nat)
    requires literal.ObjectLiteral? && n <= |literal.members| && MemberShapes(literal, n).Some?
    ensures var properties := MemberShapes(literal, n).value;
            && |properties| == n && DistinctNames(properties)
            && (forall i :: 0 <= i < n ==>
                  && properties[i].name == literal.members[i].name
                  && WellFormed(properties[i].shape)
                  && Denotes(properties[i].shape, Evaluate(literal.members[i].initializer)))
    decreases literal, 0, n
  {
    if n > 0 {
      MemberShapesCover(literal, n - 1);
      ShapeOfDenotes(literal.members[n - 1].initializer);
    }
  }
}
