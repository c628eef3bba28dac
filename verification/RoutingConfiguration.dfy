/** The routing configuration: a default file, an environment layer over it, and where each used value is written. */
module RoutingConfiguration {
  import opened JsonValues
  import opened Strings
  import opened JsonPointer
  import opened Decimals
  import opened RoutingOverlay

  datatype Source = DefaultFile | LayerFile
  datatype Location = Location(source: Source, pointer: string)

  // ---------- keys ----------

  predicate PlainToken(token: string) {
    '~' !in token && '/' !in token
  }

  function SwaggerKey(): (key: string)
    ensures PlainToken(key)
  {
    "swagger"
  }

  function BagpipesKey(): (key: string)
    ensures PlainToken(key)
  {
    "bagpipes"
  }

  function PipeKey(): (key: string)
    ensures PlainToken(key)
  {
    "swaggerControllerPipe"
  }

  predicate Overridable(key: string)
    ensures Overridable(key) ==> PlainToken(key)
  {
    key == "controllersDirs" || key == "mockControllersDirs" || key == "mockMode" || key == "controllersInterface"
  }

  function RouterTokens(name: string): seq<string> {
    [SwaggerKey(), BagpipesKey(), Escape(name)]
  }

  // ---------- the overlay ----------

  /** What the environment layer does to the default configuration. */
  datatype Overlay = Overlay(
    defaults: Json,              // the default document
    swagger: Json,               // its `swagger` object
    layer: Json,                 // the environment document, `Null` without one
    merged: Json,                // the configuration used
    router: Option<string>,      // the router the layer overrides
    fields: seq<Field>)          // with what

  /** The configuration used, as a document. */
  function Used(o: Overlay): Json {
    Obj([Field(SwaggerKey(), o.merged)])
  }

  function FileOf(o: Overlay, source: Source): Json {
    if source.DefaultFile? then o.defaults else o.layer
  }

  /** The merged configuration is the default one but for the mock mode and, if a router is overridden, its fields. */
  ghost predicate IsOverlay(o: Overlay) {
    && o.defaults.Obj? && Get(o.defaults, SwaggerKey()) == Some(o.swagger) && o.swagger.Obj? && o.merged.Obj?
    && Get(o.merged, PipeKey()) == Get(o.swagger, PipeKey())
    && match o.router
       case None => o.fields == [] && Get(o.merged, BagpipesKey()) == Get(o.swagger, BagpipesKey())
       case Some(name) =>
         && DistinctKeys(o.fields) && (forall i :: 0 <= i < |o.fields| ==> Overridable(o.fields[i].key))
         && Lookup(o.layer, RouterTokens(name)) == Some(Obj(o.fields))
         && Get(o.swagger, BagpipesKey()).Some? && Get(o.swagger, BagpipesKey()).value.Obj?
         && var bagpipes := Get(o.swagger, BagpipesKey()).value;
            && Get(bagpipes, name).Some? && Get(bagpipes, name).value.Obj?
            && Get(o.merged, BagpipesKey()) == Some(Put(bagpipes, name, Spread(Get(bagpipes, name).value, o.fields)))
  }

  /** The pointers the layer overrides, by their texts. */
  function Overridden(o: Overlay): (r: seq<string>)
    ensures |r| == |o.fields|
  {
    if o.router.None? then seq(|o.fields|, _ => "")
    else seq(|o.fields|, i requires 0 <= i < |o.fields| => Text(RouterTokens(o.router.value) + [o.fields[i].key]))
  }

  predicate FromLayer(overridden: seq<string>, pointer: string) {
    exists i :: 0 <= i < |overridden| && AtOrBelow(pointer, overridden[i])
  }

  /** Where the pointer is written: in the layer if it is at or below an overridden one. */
  function Placed(overridden: seq<string>, pointer: string): Location {
    Location(if FromLayer(overridden, pointer) then LayerFile else DefaultFile, pointer)
  }

  /** The value used is the value written there. */
  predicate Truthful(o: Overlay, location: Location) {
    Lookup(FileOf(o, location.source), Tokens(location.pointer)) == Lookup(Used(o), Tokens(location.pointer))
  }

  // ---------- tokens ----------

  lemma {:induction false} PlainUnescape(token: string)
    requires PlainToken(token)
    ensures Unescape(token) == token && Escape(token) == token && Without(token, '/') && TildesEscaped(token)
  {
    UnescapeIsEach(token);
    EscapeIsEach(token);
    PlainEach(token);
  }

  lemma {:induction false} PlainEach(token: string)
    requires PlainToken(token)
    ensures TildesEscaped(token) && UnescapeEach(token) == token && EscapeEach(token) == token
  {
    if token != "" {
      PlainEach(token[1..]);
      assert token == [token[0]] + token[1..];
    }
  }

  lemma NameToken(name: string)
    ensures Unescape(Escape(name)) == name && Without(Escape(name), '/')
  {
    UnescapeEscape(name);
    EscapeIsEach(name);
  }

  lemma LookupHead(document: Json, token: string, rest: seq<string>)
    requires document.Obj?
    ensures Lookup(document, [token] + rest) ==
      var found := Get(document, Unescape(token));
      if found.Some? then Lookup(found.value, rest) else None
  {
    assert ([token] + rest)[1..] == rest;
    hide Get, Unescape;
  }

  /** Looking below `/swagger/bagpipes/<name>` in a document. */
  lemma LookupBelowRouter(document: Json, swagger: Json, name: string, rest: seq<string>)
    requires document.Obj? && Get(document, SwaggerKey()) == Some(swagger) && swagger.Obj?
    requires Get(swagger, BagpipesKey()).Some? && Get(swagger, BagpipesKey()).value.Obj?
    ensures Lookup(document, RouterTokens(name) + rest) ==
      var found := Get(Get(swagger, BagpipesKey()).value, name);
      if found.Some? then Lookup(found.value, rest) else None
  {
    hide Get, Unescape, Escape, Lookup, SwaggerKey, BagpipesKey;
    PlainUnescape(SwaggerKey());
    PlainUnescape(BagpipesKey());
    NameToken(name);
    var tail := [Escape(name)] + rest;
    var middle := [BagpipesKey()] + tail;
    assert RouterTokens(name) + rest == [SwaggerKey()] + middle;
    LookupHead(document, SwaggerKey(), middle);
    LookupHead(swagger, BagpipesKey(), tail);
    LookupHead(Get(swagger, BagpipesKey()).value, Escape(name), rest);
  }

  /** The layer's document, looked up below the router it overrides, is the override looked up. */
  lemma {:induction false} LookupConcat(document: Json, a: seq<string>, b: seq<string>)
    ensures Lookup(document, a + b) ==
      if Lookup(document, a).Some? then Lookup(Lookup(document, a).value, b) else None
    decreases |a|
  {
    hide Get, Unescape;
    if a == [] {
      assert a + b == b;
    } else {
      assert (a + b)[1..] == a[1..] + b;
      match document
      case Obj(_) =>
        if Get(document, Unescape(a[0])).Some? { LookupConcat(Get(document, Unescape(a[0])).value, a[1..], b); }
      case Arr(items) =>
        if IsArrayIndex(a[0]) && NumberOf(a[0]) < |items| { LookupConcat(items[NumberOf(a[0])], a[1..], b); }
      case _ =>
    }
  }

  // ---------- where a pointer is written ----------

  /** A pointer into a router or pipe: its next token is a plain key. */
  function Below(name: string, key: string, rest: seq<string>): seq<string> {
    RouterTokens(name) + ([key] + rest)
  }

  lemma BelowSlashFree(name: string, key: string, rest: seq<string>)
    requires PlainToken(key) && SlashFree(rest)
    ensures SlashFree(Below(name, key, rest)) && Tokens(Text(Below(name, key, rest))) == Below(name, key, rest)
    ensures SlashFree(RouterTokens(name) + [key])
  {
    hide Escape, SwaggerKey, BagpipesKey, Text, Tokens;
    NameToken(name);
    PlainUnescape(key);
    PlainUnescape(SwaggerKey());
    PlainUnescape(BagpipesKey());
    TextTokens(Below(name, key, rest));
  }

  /** A pointer below another name, or at another key, is not overridden. */
  lemma PrefixMeaning(name: string, key: string, rest: seq<string>, other: string, over: string)
    ensures IsPrefix(RouterTokens(other) + [over], Below(name, key, rest)) <==> other == name && over == key
  {
    hide Escape, Unescape;
    var tokens, prefix := Below(name, key, rest), RouterTokens(other) + [over];
    NameToken(name);
    NameToken(other);
    assert tokens[2] == Escape(name) && prefix[2] == Escape(other) && tokens[3] == key && prefix[3] == over;
    if IsPrefix(prefix, tokens) {
      assert tokens[..4][2] == prefix[2] && tokens[..4][3] == prefix[3];
    }
    if other == name && over == key { assert tokens[..4] == prefix; }
  }

  lemma OverriddenExactly(o: Overlay, name: string, key: string, rest: seq<string>)
    requires IsOverlay(o) && PlainToken(key) && SlashFree(rest)
    ensures FromLayer(Overridden(o), Text(Below(name, key, rest))) <==> o.router == Some(name) && Has(Obj(o.fields), key)
  {
    BelowSlashFree(name, key, rest);
    var text, overridden := Text(Below(name, key, rest)), Overridden(o);
    hide Text, Below, Escape;
    forall i | 0 <= i < |o.fields|
      ensures AtOrBelow(text, overridden[i]) <==> o.router == Some(name) && o.fields[i].key == key
    {
      BelowSlashFree(o.router.value, o.fields[i].key, []);
      PrefixTest(Below(name, key, rest), RouterTokens(o.router.value) + [o.fields[i].key]);
      PrefixMeaning(name, key, rest, o.router.value, o.fields[i].key);
    }
    hide AtOrBelow, IsOverlay;
    if Has(Obj(o.fields), key) {
      var i := Find(o.fields, key);
      assert o.fields[i].key == key;
    }
    if i :| 0 <= i < |o.fields| && o.fields[i].key == key { FieldIsPresent(Obj(o.fields), i); }
  }

  /** Every pointer below a router or pipe is written, with the value used, in the file it is placed in. */
  lemma PlacedTruthfully(o: Overlay, name: string, key: string, rest: seq<string>)
    requires IsOverlay(o) && PlainToken(key) && SlashFree(rest)
    requires Get(o.merged, BagpipesKey()).Some? && Get(o.merged, BagpipesKey()).value.Obj?
    ensures Truthful(o, Placed(Overridden(o), Text(Below(name, key, rest))))
  {
    var tokens := Below(name, key, rest);
    OverriddenExactly(o, name, key, rest);
    BelowSlashFree(name, key, rest);
    PlainUnescape(key);
    UsedSwagger(o);
    LookupBelowRouter(Used(o), o.merged, name, [key] + rest);
    hide Text, Tokens, Escape, Unescape, Overridden, FromLayer, SwaggerKey, BagpipesKey;
    var location := Placed(Overridden(o), Text(tokens));
    if o.router.None? {
      LookupBelowRouter(o.defaults, o.swagger, name, [key] + rest);
    } else {
      PlacedOverRouter(o, name, key, rest);
    }
  }

  lemma UsedSwagger(o: Overlay)
    ensures Get(Used(o), SwaggerKey()) == Some(o.merged)
  {
    assert Used(o).fields[0].key == SwaggerKey();
  }

  lemma PlacedOverRouter(o: Overlay, name: string, key: string, rest: seq<string>)
    requires IsOverlay(o) && PlainToken(key) && SlashFree(rest) && o.router.Some?
    requires Get(o.merged, BagpipesKey()).Some? && Get(o.merged, BagpipesKey()).value.Obj?
    ensures o.router == Some(name) && Has(Obj(o.fields), key) ==>
      Lookup(o.layer, Below(name, key, rest)) == Lookup(Used(o), Below(name, key, rest))
    ensures !(o.router == Some(name) && Has(Obj(o.fields), key)) ==>
      Lookup(o.defaults, Below(name, key, rest)) == Lookup(Used(o), Below(name, key, rest))
  {
    var bagpipes := Get(o.swagger, BagpipesKey()).value;
    UsedSwagger(o);
    LookupBelowRouter(Used(o), o.merged, name, [key] + rest);
    LookupBelowRouter(o.defaults, o.swagger, name, [key] + rest);
    PlainUnescape(key);
    hide Escape, Unescape, SwaggerKey, BagpipesKey, Spread, Put;
    if o.router == Some(name) {
      var router := Get(bagpipes, name).value;
      SpreadGet(router, o.fields, key);
      LookupHead(Spread(router, o.fields), key, rest);
      LookupHead(router, key, rest);
      LookupHead(Obj(o.fields), key, rest);
      LookupConcat(o.layer, RouterTokens(name), [key] + rest);
    }
  }

  /** No pointer of two tokens is overridden. */
  lemma ShortNotOverridden(o: Overlay, tokens: seq<string>)
    requires IsOverlay(o) && SlashFree(tokens) && |tokens| == 2
    ensures !FromLayer(Overridden(o), Text(tokens))
  {
    hide Text, Escape;
    forall i | 0 <= i < |o.fields| ensures !AtOrBelow(Text(tokens), Overridden(o)[i]) {
      BelowSlashFree(o.router.value, o.fields[i].key, []);
      PrefixTest(tokens, RouterTokens(o.router.value) + [o.fields[i].key]);
    }
  }

  lemma PipePlaced(o: Overlay)
    requires IsOverlay(o)
    ensures Truthful(o, Placed(Overridden(o), Text([SwaggerKey(), PipeKey()])))
    ensures Lookup(Used(o), [SwaggerKey(), PipeKey()]) == Get(o.merged, PipeKey())
    ensures Tokens(Text([SwaggerKey(), PipeKey()])) == [SwaggerKey(), PipeKey()]
  {
    var tokens := [SwaggerKey(), PipeKey()];
    hide Text, Tokens, Escape, Unescape, FromLayer, Overridden, SwaggerKey, PipeKey, BagpipesKey;
    PlainUnescape(SwaggerKey());
    PlainUnescape(PipeKey());
    TextTokens(tokens);
    ShortNotOverridden(o, tokens);
    UsedSwagger(o);
    assert tokens == [SwaggerKey()] + [PipeKey()] && [PipeKey()] == [PipeKey()] + [];
    LookupHead(Used(o), SwaggerKey(), [PipeKey()]);
    LookupHead(o.defaults, SwaggerKey(), [PipeKey()]);
    LookupHead(o.merged, PipeKey(), []);
    LookupHead(o.swagger, PipeKey(), []);
  }
}
