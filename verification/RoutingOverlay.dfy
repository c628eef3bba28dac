/** JSON Pointers into configuration documents, and the environment overlay they have to survive. */
module RoutingOverlay {
  import opened JsonValues
  import opened Strings
  import opened JsonPointer
  import opened Decimals

  // ---------- looking pointers up, section 4 of RFC 6901 ----------

  predicate IsArrayIndex(token: string) {
    && token != "" && (token[0] != '0' || |token| == 1)
    && forall i :: 0 <= i < |token| ==> Digit(token[i])
  }

  function Lookup(document: Json, tokens: seq<string>): Option<Json>
    decreases |tokens|
  {
    if tokens == [] then Some(document)
    else
      match document
      case Obj(_) =>
        var found := Get(document, Unescape(tokens[0]));
        if found.Some? then Lookup(found.value, tokens[1..]) else None
      case Arr(items) =>
        if IsArrayIndex(tokens[0]) && NumberOf(tokens[0]) < |items| then Lookup(items[NumberOf(tokens[0])], tokens[1..]) else None
      case _ => None
  }

  /** The text of a pointer: every token after a slash. */
  function Text(tokens: seq<string>): string {
    if tokens == [] then "" else "/" + tokens[0] + Text(tokens[1..])
  }

  /** The tokens of a pointer's text. */
  function Tokens(pointer: string): seq<string> {
    if pointer == "" then [] else Split(pointer, '/')[1..]
  }

  predicate SlashFree(tokens: seq<string>) {
    forall i :: 0 <= i < |tokens| ==> Without(tokens[i], '/')
  }

  lemma {:induction false} TextTokens(tokens: seq<string>)
    requires SlashFree(tokens)
    ensures Tokens(Text(tokens)) == tokens
  {
    if tokens != [] {
      TextSplit(tokens);
    }
  }

  lemma {:induction false} TextSplit(tokens: seq<string>)
    requires SlashFree(tokens)
    ensures Split(Text(tokens), '/') == [""] + tokens
  {
    hide Split;
    if tokens == [] {
      SplitWhole("", '/');
    } else {
      var rest := Text(tokens[1..]);
      TextSplit(tokens[1..]);
      SplitFirst("", tokens[0] + rest, '/');
      assert Text(tokens) == "" + ['/'] + (tokens[0] + rest);
      FirstThen(tokens[0], rest, tokens[1..]);
      assert tokens == [tokens[0]] + tokens[1..];
    }
  }

  lemma FirstThen(first: string, rest: string, tokens: seq<string>)
    requires Without(first, '/') && Split(rest, '/') == [""] + tokens && (rest == "" || rest[0] == '/')
    ensures Split(first + rest, '/') == [first] + tokens
  {
    hide Split;
    if rest == "" {
      SplitWhole("", '/');
      SplitWhole(first, '/');
      assert first + rest == first;
      assert tokens == ([""] + tokens)[1..];
    } else {
      SplitFirst(first, rest[1..], '/');
      SplitFirst("", rest[1..], '/');
      assert first + rest == first + ['/'] + rest[1..];
      assert rest == "" + ['/'] + rest[1..];
      assert tokens == ([""] + tokens)[1..];
      assert Split(rest[1..], '/') == ([""] + Split(rest[1..], '/'))[1..];
    }
  }

  /** The same pointer, or one below it, by their texts. */
  predicate AtOrBelow(pointer: string, prefix: string) {
    pointer == prefix || Begins(pointer, prefix + "/")
  }

  predicate IsPrefix(prefix: seq<string>, tokens: seq<string>) {
    |prefix| <= |tokens| && tokens[..|prefix|] == prefix
  }

  lemma {:induction false} TextConcat(a: seq<string>, b: seq<string>)
    ensures Text(a + b) == Text(a) + Text(b)
  {
    if a == [] {
      assert a + b == b;
    } else {
      assert (a + b)[1..] == a[1..] + b;
      TextConcat(a[1..], b);
    }
  }

  /** Comparing texts is comparing tokens. */
  lemma PrefixTest(tokens: seq<string>, prefix: seq<string>)
    requires SlashFree(tokens) && SlashFree(prefix)
    ensures AtOrBelow(Text(tokens), Text(prefix)) <==> IsPrefix(prefix, tokens)
  {
    var text, head := Text(tokens), Text(prefix);
    if IsPrefix(prefix, tokens) {
      var rest := tokens[|prefix|..];
      assert tokens == prefix + rest;
      TextConcat(prefix, rest);
      if rest != [] { assert text[..|head + "/"|] == head + "/"; }
    }
    if text == head {
      TextTokens(tokens);
      TextTokens(prefix);
      assert tokens[..|prefix|] == prefix;
    } else if Begins(text, head + "/") {
      BelowIsPrefix(tokens, prefix);
    }
  }

  lemma {:induction false} BelowIsPrefix(tokens: seq<string>, prefix: seq<string>)
    requires SlashFree(tokens) && SlashFree(prefix) && Begins(Text(tokens), Text(prefix) + "/")
    ensures IsPrefix(prefix, tokens)
  {
    var text, head := Text(tokens), Text(prefix);
    TextSplit(tokens);
    TextSplit(prefix);
    hide Text, Split;
    var tail := text[|head + "/"|..];
    assert text == (head + "/") + tail;
    assert (head + "/") + tail == head + ['/'] + tail;
    SplitBelow(head, tail);
    SameStart("", tokens, prefix, Split(tail, '/'));
  }

  lemma SameStart(first: string, tokens: seq<string>, prefix: seq<string>, rest: seq<string>)
    requires [first] + tokens == [first] + prefix + rest
    ensures IsPrefix(prefix, tokens)
  {
    assert tokens == ([first] + tokens)[1..];
    assert prefix + rest == ([first] + prefix + rest)[1..];
  }

  lemma Reassociate(first: string, rest: string, tail: string)
    ensures (first + ['/'] + rest) + ['/'] + tail == first + ['/'] + (rest + ['/'] + tail)
  {
  }

  lemma FirstOfAll(first: string, a: seq<string>, b: seq<string>)
    ensures [first] + (a + b) == [first] + a + b
  {
  }

  lemma {:induction false} SplitBelow(head: string, tail: string)
    ensures Split(head + ['/'] + tail, '/') == Split(head, '/') + Split(tail, '/')
    decreases |head|
  {
    hide Split;
    SplitStep(head, '/');
    var i := IndexOf(head, '/');
    if i == |head| {
      SplitFirst(head, tail, '/');
    } else {
      var first, rest := head[..i], head[i + 1..];
      assert Without(first, '/') && head == first + ['/'] + rest;
      assert Split(head, '/') == [first] + Split(rest, '/');
      hide *;
      SplitBelow(rest, tail);
      SplitFirst(first, rest + ['/'] + tail, '/');
      Reassociate(first, rest, tail);
      FirstOfAll(first, Split(rest, '/'), Split(tail, '/'));
    }
  }

  // ---------- spreading objects ----------

  /** `{...j, [key]: value}`. */
  function Put(j: Json, key: string, value: Json): (r: Json)
    requires j.Obj?
    ensures r.Obj?
    ensures forall other :: Get(r, other) == if other == key then Some(value) else Get(j, other)
  {
    if Has(j, key) then Replace(j, key, value)
    else
      AppendedGet(j.fields, key, value);
      Obj(j.fields + [Field(key, value)])
  }

  lemma {:induction false} AppendedGet(fields: seq<Field>, key: string, value: Json)
    requires !Has(Obj(fields), key)
    ensures forall other :: Get(Obj(fields + [Field(key, value)]), other) == if other == key then Some(value) else Get(Obj(fields), other)
  {
    forall other ensures Get(Obj(fields + [Field(key, value)]), other) == if other == key then Some(value) else Get(Obj(fields), other) {
      AppendedFind(fields, Field(key, value), other);
    }
  }

  lemma {:induction false} AppendedFind(fields: seq<Field>, field: Field, key: string)
    ensures Find(fields + [field], key) == if Find(fields, key) < |fields| then Find(fields, key)
                                           else if field.key == key then |fields| else |fields| + 1
  {
    if fields == [] {
      assert fields + [field] == [field];
      assert [field][1..] == [];
    } else {
      assert (fields + [field])[1..] == fields[1..] + [field];
      AppendedFind(fields[1..], field, key);
    }
  }

  /** `{...j, ...over}`: the later object wins. */
  function Spread(j: Json, over: seq<Field>): (r: Json)
    requires j.Obj?
    ensures r.Obj?
    decreases |over|
  {
    if over == [] then j else Put(Spread(j, over[..|over| - 1]), over[|over| - 1].key, over[|over| - 1].value)
  }

  lemma LastIsNew(over: seq<Field>)
    requires DistinctKeys(over) && over != []
    ensures Find(over[..|over| - 1], over[|over| - 1].key) == |over| - 1
  {
  }

  lemma {:induction false} SpreadGet(j: Json, over: seq<Field>, key: string)
    requires j.Obj? && DistinctKeys(over)
    ensures Get(Spread(j, over), key) == if Has(Obj(over), key) then Get(Obj(over), key) else Get(j, key)
  {
    if over != [] {
      var init, last := over[..|over| - 1], over[|over| - 1];
      SpreadGet(j, init, key);
      AppendedFind(init, last, key);
      assert over == init + [last];
      assert Find(init, last.key) == |init| by { LastIsNew(over); }
    }
  }
}
