/** Resolving the routing configuration: merge, walk the controller pipe, and record where each used value is written. */
module RoutingResolver {
  import opened JsonValues
  import opened Strings
  import opened JsonPointer
  import opened Decimals
  import opened RoutingOverlay
  import opened RoutingConfiguration

  datatype Resolution =
    | Unresolved(reason: string)
    | DefaultRouting
    | Configured(directories: seq<string>, pipeline: string, router: string, recorded: seq<Location>)

  // ---------- conditions ----------

  predicate WordStart(c: char) {
    'A' <= c <= 'Z' || 'a' <= c <= 'z' || c == '_'
  }

  /** `/^[A-Za-z_][A-Za-z0-9_.-]*$/`. */
  predicate IsName(s: string) {
    s != "" && WordStart(s[0]) && forall i :: 0 <= i < |s| ==> WordStart(s[i]) || Digit(s[i]) || s[i] == '.' || s[i] == '-'
  }

  predicate DirectoryChar(c: char) {
    WordStart(c) || Digit(c) || c == '@' || c == '+' || c == '.' || c == '-'
  }

  predicate IsDirectory(dir: string) {
    dir == "." ||
    forall i :: 0 <= i < |Split(dir, '/')| ==>
      var name := Split(dir, '/')[i];
      name != "" && name != "." && name != ".." && forall k :: 0 <= k < |name| ==> DirectoryChar(name[k])
  }

  /** A name between slashes: letters, digits and `_ @ + . -`, and neither `.` nor `..`. */
  predicate PathName(name: string) {
    && name != "" && name != "." && name != ".."
    && forall k :: 0 <= k < |name| ==>
         'A' <= name[k] <= 'Z' || 'a' <= name[k] <= 'z' || '0' <= name[k] <= '9' || name[k] in "_@+.-"
  }

  /** A directory is a dot, or names between slashes. */
  lemma DirectoryExactly(dir: string)
    ensures IsDirectory(dir) <==> dir == "." || forall i, j :: IsPart(dir, '/', i, j) ==> PathName(dir[i..j])
  {
    forall part { PartsExactly(dir, '/', part); }
    PathChars();
    var parts := Split(dir, '/');
    hide Split, DirectoryChar;
    if dir != "." {
      if IsDirectory(dir) {
        forall i, j | IsPart(dir, '/', i, j) ensures PathName(dir[i..j]) { assert dir[i..j] in parts; }
      } else {
        var n :| 0 <= n < |parts| && !PathName(parts[n]);
        assert parts[n] in parts;
      }
    }
  }

  lemma PathChars()
    ensures forall c :: DirectoryChar(c) <==> 'A' <= c <= 'Z' || 'a' <= c <= 'z' || '0' <= c <= '9' || c in "_@+.-"
  {
  }

  predicate Directories(value: Option<Json>, allowEmpty: bool) {
    && value.Some? && value.value.Arr?
    && (allowEmpty || value.value.items != []) && |value.value.items| <= 8
    && (forall i :: 0 <= i < |value.value.items| ==> value.value.items[i].Str? && IsDirectory(value.value.items[i].text))
    && forall i, j :: 0 <= i < j < |value.value.items| ==> value.value.items[i] != value.value.items[j]
  }

  /** No object anywhere has a reserved key. */
  predicate NoReserved(document: Json)
    decreases document
  {
    match document
    case Obj(fields) => forall i :: 0 <= i < |fields| ==> !Reserved(fields[i].key) && NoReserved(fields[i].value)
    case Arr(items) => forall i :: 0 <= i < |items| ==> NoReserved(items[i])
    case _ => true
  }

  predicate AbsentOr(found: Option<Json>, value: Json) {
    found.None? || found.value == value
  }

  predicate Flag(found: Option<Json>) {
    found.Some? ==> found.value.Bool?
  }

  predicate KeysAmong(j: Json, keys: set<string>)
    requires j.Obj?
  {
    forall i :: 0 <= i < |j.fields| ==> j.fields[i].key in keys
  }

  /** What a layer may say about a router. */
  predicate RouterOverride(name: string, router: Option<Json>, over: Json) {
    && IsName(name) && !Reserved(name)
    && router.Some? && router.value.Obj? && Get(router.value, "name") == Some(Str("swagger_router"))
    && over.Obj? && over.fields != [] && (forall i :: 0 <= i < |over.fields| ==> Overridable(over.fields[i].key))
    && (Has(over, "controllersDirs") ==> Directories(Get(over, "controllersDirs"), false))
    && (Has(over, "mockControllersDirs") ==> Directories(Get(over, "mockControllersDirs"), true))
    && Flag(Get(over, "mockMode")) && AbsentOr(Get(over, "controllersInterface"), Str("middleware"))
  }

  /** Parsed objects repeat no key, at any depth. */
  ghost predicate Parsed(document: Json)
    decreases document
  {
    match document
    case Obj(fields) => DistinctKeys(fields) && forall i :: 0 <= i < |fields| ==> Parsed(fields[i].value)
    case Arr(items) => forall i :: 0 <= i < |items| ==> Parsed(items[i])
    case _ => true
  }

  // ---------- merging ----------

  /** The default `swagger` object, empty if there is none; nothing for an invalid document. */
  function DefaultSwagger(defaults: Option<Json>): (r: Option<Json>)
    ensures r.Some? ==> r.value.Obj?
  {
    match defaults
    case None => Some(Obj([]))
    case Some(document) =>
      if !document.Obj? || !NoReserved(document) then None
      else
        match Get(document, SwaggerKey())
        case None => Some(Obj([]))
        case Some(Obj(fields)) => Some(Obj(fields))
        case Some(_) => None
  }

  predicate LayerShape(layer: Json) {
    && layer.Obj? && |layer.fields| == 1 && layer.fields[0].key == SwaggerKey() && layer.fields[0].value.Obj?
    && layer.fields[0].value.fields != []
    && forall i :: 0 <= i < |layer.fields[0].value.fields| ==>
         layer.fields[0].value.fields[i].key == "mockMode" || layer.fields[0].value.fields[i].key == BagpipesKey()
  }

  /** The layer over the default `swagger` object. */
  function Merge(defaults: Json, swagger: Json, layer: Json): Option<Overlay>
    requires swagger.Obj?
  {
    if !LayerShape(layer) then None
    else
      var override := layer.fields[0].value;
      var mock := Get(override, "mockMode");
      if !Flag(mock) then None
      else
        var withMock := if mock.Some? then Put(swagger, "mockMode", mock.value) else swagger;
        match Get(override, BagpipesKey())
        case None => Some(Overlay(defaults, swagger, layer, withMock, None, []))
        case Some(pipes) =>
          var bagpipes := Get(withMock, BagpipesKey());
          if !pipes.Obj? || |pipes.fields| != 1 || bagpipes.None? || !bagpipes.value.Obj? then None
          else
            var name, over := pipes.fields[0].key, pipes.fields[0].value;
            var router := Get(bagpipes.value, name);
            if !RouterOverride(name, router, over) then None
            else
              var merged := Put(withMock, BagpipesKey(), Put(bagpipes.value, name, Spread(router.value, over.fields)));
              Some(Overlay(defaults, swagger, layer, merged, Some(name), over.fields))
  }

  lemma OneField(j: Json)
    requires j.Obj? && |j.fields| == 1
    ensures Get(j, j.fields[0].key) == Some(j.fields[0].value)
  {
  }

  /** The two ways a merge can go. */
  lemma MergeCases(defaults: Json, swagger: Json, layer: Json)
    requires swagger.Obj? && Merge(defaults, swagger, layer).Some?
    ensures LayerShape(layer)
    ensures var override, o := layer.fields[0].value, Merge(defaults, swagger, layer).value;
      var withMock := if Has(override, "mockMode") then Put(swagger, "mockMode", Get(override, "mockMode").value) else swagger;
      if !Has(override, "bagpipes") then o == Overlay(defaults, swagger, layer, withMock, None, [])
      else
        var pipes, bagpipes := Get(override, "bagpipes").value, Get(withMock, "bagpipes");
        && pipes.Obj? && |pipes.fields| == 1 && bagpipes.Some? && bagpipes.value.Obj?
        && var name, over := pipes.fields[0].key, pipes.fields[0].value;
           var router := Get(bagpipes.value, name);
           && RouterOverride(name, router, over)
           && o == Overlay(defaults, swagger, layer,
                           Put(withMock, "bagpipes", Put(bagpipes.value, name, Spread(router.value, over.fields))),
                           Some(name), over.fields)
  {
    hide Put, Spread, RouterOverride, Get, LayerShape;
  }

  lemma MergeIsOverlay(defaults: Json, swagger: Json, layer: Json)
    requires defaults.Obj? && Get(defaults, SwaggerKey()) == Some(swagger) && swagger.Obj? && Parsed(layer)
    requires Merge(defaults, swagger, layer).Some?
    ensures IsOverlay(Merge(defaults, swagger, layer).value)
  {
    var override := layer.fields[0].value;
    KeysDiffer();
    if Get(override, BagpipesKey()).Some? {
      RouterMerged(defaults, swagger, layer);
    } else {
      hide Get, Put, Spread, SwaggerKey, BagpipesKey, PipeKey, RouterOverride, RouterTokens;
    }
  }

  lemma KeysDiffer()
    ensures "mockMode" != BagpipesKey() && "mockMode" != PipeKey() && BagpipesKey() != PipeKey()
  {
  }

  lemma RouterMerged(defaults: Json, swagger: Json, layer: Json)
    requires defaults.Obj? && Get(defaults, SwaggerKey()) == Some(swagger) && swagger.Obj? && Parsed(layer)
    requires Merge(defaults, swagger, layer).Some? && Get(layer.fields[0].value, BagpipesKey()).Some?
    ensures IsOverlay(Merge(defaults, swagger, layer).value)
  {
    hide Merge, Get, Put, Spread, SwaggerKey, PipeKey, RouterOverride, RouterTokens, Lookup, Parsed, DistinctKeys, Overridable, LayerShape;
    MergeCases(defaults, swagger, layer);
    ShapeHasSwagger(layer);
    SwaggerKeyIs();
    var override := layer.fields[0].value;
    KeysDiffer();
    hide BagpipesKey;
    OneField(layer);
    var pipes := Get(override, BagpipesKey()).value;
    OneField(pipes);
    LookupBelowRouter(layer, override, pipes.fields[0].key, []);
    assert RouterTokens(pipes.fields[0].key) + [] == RouterTokens(pipes.fields[0].key);
    FoundItself(pipes.fields[0].value);
    OverrideFields(pipes.fields[0].key, Get(Get(swagger, BagpipesKey()).value, pipes.fields[0].key), pipes.fields[0].value);
    ParsedBelow(layer, override, pipes);
  }

  lemma SwaggerKeyIs()
    ensures SwaggerKey() == "swagger"
  {
  }

  lemma FoundItself(document: Json)
    ensures Lookup(document, []) == Some(document)
  {
  }

  lemma OverrideFields(name: string, router: Option<Json>, over: Json)
    requires RouterOverride(name, router, over)
    ensures router.Some? && router.value.Obj? && over.Obj?
    ensures forall i :: 0 <= i < |over.fields| ==> Overridable(over.fields[i].key)
  {
  }

  lemma ParsedGet(j: Json, key: string)
    requires Parsed(j) && Has(j, key)
    ensures Parsed(Get(j, key).value)
  {
    var i := Find(j.fields, key);
  }

  lemma ParsedBelow(layer: Json, override: Json, pipes: Json)
    requires Parsed(layer) && layer.Obj? && |layer.fields| == 1 && layer.fields[0].value == override
    requires Get(override, BagpipesKey()) == Some(pipes) && pipes.Obj? && |pipes.fields| == 1 && pipes.fields[0].value.Obj?
    ensures DistinctKeys(pipes.fields[0].value.fields)
  {
    ParsedGet(override, BagpipesKey());
  }

  /** The configuration used: the defaults, the layer over them if there is one, and a mock mode from outside. */
  function Configure(defaults: Option<Json>, layer: Option<Json>, createMock: Option<bool>): Option<Overlay> {
    var swagger := DefaultSwagger(defaults);
    if swagger.None? then None
    else
      var document := if defaults.Some? then defaults.value else Null;
      var overlay := if layer.None? then Some(Overlay(document, swagger.value, Null, swagger.value, None, []))
                     else Merge(document, swagger.value, layer.value);
      if overlay.None? || !overlay.value.merged.Obj? then None
      else if createMock.None? then overlay
      else Some(overlay.value.(merged := Put(overlay.value.merged, "mockMode", Bool(createMock.value))))
  }

  /** A configuration with pipelines of its own comes from a default document, so it is an overlay over it. */
  lemma ConfiguredIsOverlay(defaults: Option<Json>, layer: Option<Json>, createMock: Option<bool>)
    requires layer.Some? ==> Parsed(layer.value)
    requires Configure(defaults, layer, createMock).Some?
    ensures var o := Configure(defaults, layer, createMock).value;
      Get(o.merged, BagpipesKey()).Some? ==> IsOverlay(o) && defaults == Some(o.defaults) && (layer.Some? ==> o.layer == layer.value)
  {
    var swagger := DefaultSwagger(defaults).value;
    KeysDiffer();
    if defaults.Some? && Has(defaults.value, SwaggerKey()) {
      if layer.Some? { MergeIsOverlay(defaults.value, swagger, layer.value); }
      hide Get, Put, Merge, SwaggerKey, BagpipesKey, PipeKey;
    } else {
      NothingToOverride(if defaults.Some? then defaults.value else Null, layer);
      hide Get, Put, Merge, SwaggerKey, BagpipesKey, PipeKey;
    }
  }

  lemma NothingToOverride(document: Json, layer: Option<Json>)
    requires layer.Some?  ==> Merge(document, Obj([]), layer.value).Some?
    ensures Get(Obj([]), BagpipesKey()) == None
    ensures layer.Some? ==> Get(Merge(document, Obj([]), layer.value).value.merged, BagpipesKey()) == None
  {
    assert "mockMode" != BagpipesKey();
    hide Put, Spread, RouterOverride, BagpipesKey;
  }

  // ---------- the configuration, said on the documents ----------

  /** What a document says at `swagger.<key>`. */
  function Said(document: Option<Json>, key: string): Option<Json> {
    if document.None? || !Has(document.value, "swagger") then None else Get(Get(document.value, "swagger").value, key)
  }

  ghost predicate PartOf(part: Json, whole: Json)
    decreases whole
  {
    || part == whole
    || match whole
       case Obj(fields) => exists i :: 0 <= i < |fields| && PartOf(part, fields[i].value)
       case Arr(items) => exists i :: 0 <= i < |items| && PartOf(part, items[i])
       case _ => false
  }

  ghost predicate Clean(part: Json) {
    !Has(part, "__proto__") && !Has(part, "prototype") && !Has(part, "constructor")
  }

  lemma {:induction false} NoReservedExactly(document: Json)
    ensures NoReserved(document) <==> forall part :: PartOf(part, document) ==> Clean(part)
    decreases document
  {
    CleanExactly(document);
    match document
    case Obj(fields) =>
      forall i | 0 <= i < |fields|
        ensures NoReserved(fields[i].value) <==> forall part :: PartOf(part, fields[i].value) ==> Clean(part)
      {
        NoReservedExactly(fields[i].value);
      }
    case Arr(items) =>
      forall i | 0 <= i < |items| ensures NoReserved(items[i]) <==> forall part :: PartOf(part, items[i]) ==> Clean(part) {
        NoReservedExactly(items[i]);
      }
    case _ =>
  }

  lemma CleanExactly(document: Json)
    ensures !document.Obj? ==> Clean(document)
    ensures document.Obj? ==> (Clean(document) <==> forall i :: 0 <= i < |document.fields| ==> !Reserved(document.fields[i].key))
  {
    if document.Obj? {
      forall i | 0 <= i < |document.fields| ensures Has(document, document.fields[i].key) { FieldIsPresent(document, i); }
    }
  }

  /** An object without reserved keys anywhere, whose `swagger` is an object if it is there. */
  ghost predicate DefaultsAccepted(defaults: Option<Json>) {
    defaults.Some? ==>
      && defaults.value.Obj? && (forall part :: PartOf(part, defaults.value) ==> Clean(part))
      && (Has(defaults.value, "swagger") ==> Get(defaults.value, "swagger").value.Obj?)
  }

  /** A layer speaks of nothing but `swagger`, and there only of the mock mode and of one router. */
  ghost predicate LayerAccepted(bagpipes: Option<Json>, layer: Json) {
    && layer.Obj? && |layer.fields| == 1 && Has(layer, "swagger")
    && var override := Get(layer, "swagger").value;
       && override.Obj? && override.fields != []
       && (forall key :: Has(override, key) ==> key == "mockMode" || key == "bagpipes")
       && (Has(override, "mockMode") ==> Get(override, "mockMode").value.Bool?)
       && (Has(override, "bagpipes") ==> bagpipes.Some? && RouterAccepted(bagpipes.value, Get(override, "bagpipes").value))
  }

  /** Of one router that the defaults describe, under the four keys that may be overridden. */
  ghost predicate RouterAccepted(bagpipes: Json, pipes: Json) {
    && bagpipes.Obj? && pipes.Obj? && |pipes.fields| == 1
    && var name, over := pipes.fields[0].key, pipes.fields[0].value;
       && IsName(name) && name != "__proto__" && name != "prototype" && name != "constructor"
       && Has(bagpipes, name) && Get(Get(bagpipes, name).value, "name") == Some(Str("swagger_router"))
       && over.Obj? && over.fields != []
       && (forall key :: Has(over, key) ==>
             key == "controllersDirs" || key == "mockControllersDirs" || key == "mockMode" || key == "controllersInterface")
       && (Has(over, "controllersDirs") ==> Directories(Get(over, "controllersDirs"), false))
       && (Has(over, "mockControllersDirs") ==> Directories(Get(over, "mockControllersDirs"), true))
       && (Has(over, "mockMode") ==> Get(over, "mockMode").value.Bool?)
       && (Has(over, "controllersInterface") ==> Get(over, "controllersInterface") == Some(Str("middleware")))
  }

  /** The mock mode in force: from outside, else from the layer, else from the defaults. */
  function MockMode(defaults: Option<Json>, layer: Option<Json>, createMock: Option<bool>): Option<Json> {
    if createMock.Some? then Some(Bool(createMock.value))
    else if Said(layer, "mockMode").Some? then Said(layer, "mockMode")
    else Said(defaults, "mockMode")
  }

  lemma HasFields(j: Json)
    requires j.Obj?
    ensures forall key :: Has(j, key) <==> exists i :: 0 <= i < |j.fields| && j.fields[i].key == key
  {
    forall i | 0 <= i < |j.fields| ensures Has(j, j.fields[i].key) { FieldIsPresent(j, i); }
  }

  lemma OverridableKeys(over: Json)
    requires over.Obj?
    ensures (forall i :: 0 <= i < |over.fields| ==> Overridable(over.fields[i].key)) <==>
      forall key :: Has(over, key) ==>
        key == "controllersDirs" || key == "mockControllersDirs" || key == "mockMode" || key == "controllersInterface"
  {
    forall i | 0 <= i < |over.fields| ensures Has(over, over.fields[i].key) { FieldIsPresent(over, i); }
    forall key | Has(over, key) ensures exists i :: 0 <= i < |over.fields| && over.fields[i].key == key {
      assert over.fields[Find(over.fields, key)].key == key;
    }
    hide Has;
  }

  lemma RouterAcceptedExactly(bagpipes: Json, pipes: Json)
    requires bagpipes.Obj? && pipes.Obj? && |pipes.fields| == 1
    ensures RouterAccepted(bagpipes, pipes) <==>
      RouterOverride(pipes.fields[0].key, Get(bagpipes, pipes.fields[0].key), pipes.fields[0].value)
  {
    var over := pipes.fields[0].value;
    if over.Obj? { OverridableKeys(over); }
    hide Directories, IsName, Get, Overridable;
  }

  lemma LayerKeys(override: Json)
    requires override.Obj?
    ensures (forall i :: 0 <= i < |override.fields| ==> override.fields[i].key == "mockMode" || override.fields[i].key == "bagpipes")
      <==> forall key :: Has(override, key) ==> key == "mockMode" || key == "bagpipes"
  {
    forall i | 0 <= i < |override.fields| ensures Has(override, override.fields[i].key) { FieldIsPresent(override, i); }
    hide Has, Find;
  }

  lemma OnlyField(layer: Json)
    requires layer.Obj? && |layer.fields| == 1
    ensures Has(layer, "swagger") <==> layer.fields[0].key == "swagger"
    ensures Has(layer, "swagger") ==> Get(layer, "swagger").value == layer.fields[0].value
  {
    OneField(layer);
    HasFields(layer);
  }

  /** The tests of a merge, in one place. */
  lemma MergeAccepts(defaults: Json, swagger: Json, layer: Json)
    requires swagger.Obj? && LayerShape(layer)
    ensures var override, bagpipes := layer.fields[0].value, Get(swagger, "bagpipes");
      Merge(defaults, swagger, layer).Some? <==>
        && Flag(Get(override, "mockMode"))
        && (Has(override, "bagpipes") ==>
              var pipes := Get(override, "bagpipes").value;
              && pipes.Obj? && |pipes.fields| == 1 && bagpipes.Some? && bagpipes.value.Obj?
              && RouterOverride(pipes.fields[0].key, Get(bagpipes.value, pipes.fields[0].key), pipes.fields[0].value))
  {
    hide RouterOverride, Get, Spread, LayerShape;
    assert "mockMode" != "bagpipes";
  }

  lemma MergeExactly(defaults: Json, swagger: Json, layer: Json)
    requires swagger.Obj?
    ensures Merge(defaults, swagger, layer).Some? <==> LayerAccepted(Get(swagger, "bagpipes"), layer)
  {
    hide Merge, RouterAccepted, RouterOverride, Get;
    if layer.Obj? && |layer.fields| == 1 {
      OnlyField(layer);
      var override := layer.fields[0].value;
      if override.Obj? {
        LayerKeys(override);
        var pipes, bagpipes := Get(override, "bagpipes"), Get(swagger, "bagpipes");
        if LayerShape(layer) {
          MergeAccepts(defaults, swagger, layer);
          if pipes.Some? && pipes.value.Obj? && |pipes.value.fields| == 1 && bagpipes.Some? && bagpipes.value.Obj? {
            RouterAcceptedExactly(bagpipes.value, pipes.value);
          } else if pipes.Some? {
            RouterNeedsPipes(bagpipes, pipes.value);
          }
        } else {
          MergeNeedsShape(defaults, swagger, layer);
        }
      } else {
        MergeNeedsShape(defaults, swagger, layer);
      }
    } else {
      MergeNeedsShape(defaults, swagger, layer);
    }
  }

  lemma MergeNeedsShape(defaults: Json, swagger: Json, layer: Json)
    requires swagger.Obj?
    ensures Merge(defaults, swagger, layer).Some? ==> LayerShape(layer)
  {
    hide LayerShape, RouterOverride, Get, Put, Spread;
  }

  lemma RouterNeedsPipes(bagpipes: Option<Json>, pipes: Json)
    ensures bagpipes.Some? && RouterAccepted(bagpipes.value, pipes) ==> bagpipes.value.Obj? && pipes.Obj? && |pipes.fields| == 1
  {
  }

  /** Which documents make a configuration. */
  lemma ConfigureExactly(defaults: Option<Json>, layer: Option<Json>, createMock: Option<bool>)
    ensures Configure(defaults, layer, createMock).Some? <==>
      DefaultsAccepted(defaults) && (layer.Some? ==> LayerAccepted(Said(defaults, "bagpipes"), layer.value))
  {
    if defaults.Some? { NoReservedExactly(defaults.value); }
    var swagger := DefaultSwagger(defaults);
    if swagger.Some? {
      if layer.Some? { MergeExactly(if defaults.Some? then defaults.value else Null, swagger.value, layer.value); }
      hide Merge, LayerAccepted, NoReserved;
    }
  }

  /** The pipelines used are the default ones, but for the fields of the one router the layer speaks of. */
  ghost predicate Overlaid(bagpipes: Option<Json>, pipes: Json, used: Option<Json>) {
    && bagpipes.Some? && bagpipes.value.Obj? && used.Some? && used.value.Obj? && pipes.Obj? && |pipes.fields| == 1
    && var name, over := pipes.fields[0].key, pipes.fields[0].value;
       && (forall other :: other != name ==> Get(used.value, other) == Get(bagpipes.value, other))
       && Has(used.value, name) && Has(bagpipes.value, name)
       && forall key :: Get(Get(used.value, name).value, key) ==
            if Has(over, key) then Get(over, key) else Get(Get(bagpipes.value, name).value, key)
  }

  lemma RouterOverlaid(bagpipes: Json, pipes: Json)
    requires bagpipes.Obj? && pipes.Obj? && |pipes.fields| == 1
    requires RouterOverride(pipes.fields[0].key, Get(bagpipes, pipes.fields[0].key), pipes.fields[0].value)
    requires DistinctKeys(pipes.fields[0].value.fields)
    ensures var name, over := pipes.fields[0].key, pipes.fields[0].value;
      Overlaid(Some(bagpipes), pipes, Some(Put(bagpipes, name, Spread(Get(bagpipes, name).value, over.fields))))
  {
    var name, over := pipes.fields[0].key, pipes.fields[0].value;
    var router := Get(bagpipes, name).value;
    hide Get, Put, Spread, IsName, Directories, Overridable, DistinctKeys;
    forall key ensures Get(Spread(router, over.fields), key) == if Has(over, key) then Get(over, key) else Get(router, key) {
      SpreadGet(router, over.fields, key);
    }
    assert over == Obj(over.fields);
  }

  lemma LayerParsed(layer: Json)
    requires Parsed(layer) && LayerShape(layer) && Get(layer.fields[0].value, "bagpipes").Some?
    ensures var pipes := Get(layer.fields[0].value, "bagpipes").value;
      pipes.Obj? && |pipes.fields| == 1 && pipes.fields[0].value.Obj? ==> DistinctKeys(pipes.fields[0].value.fields)
  {
    ParsedGet(layer.fields[0].value, "bagpipes");
  }

  lemma MergeValues(defaults: Json, swagger: Json, layer: Json)
    requires swagger.Obj? && Parsed(layer) && Merge(defaults, swagger, layer).Some?
    ensures var merged, override := Merge(defaults, swagger, layer).value.merged, layer.fields[0].value;
      && (forall key :: key != "mockMode" && key != "bagpipes" ==> Get(merged, key) == Get(swagger, key))
      && Get(merged, "mockMode") == (if Has(override, "mockMode") then Get(override, "mockMode") else Get(swagger, "mockMode"))
      && (!Has(override, "bagpipes") ==> Get(merged, "bagpipes") == Get(swagger, "bagpipes"))
      && (Has(override, "bagpipes") ==>
            Overlaid(Get(swagger, "bagpipes"), Get(override, "bagpipes").value, Get(merged, "bagpipes")))
  {
    hide Put, Spread, Parsed, DistinctKeys, RouterOverride, Merge, Get, Overlaid;
    MergeCases(defaults, swagger, layer);
    var override, merged := layer.fields[0].value, Merge(defaults, swagger, layer).value.merged;
    KeysDiffer();
    var withMock := if Has(override, "mockMode") then Put(swagger, "mockMode", Get(override, "mockMode").value) else swagger;
    if Has(override, "bagpipes") {
      var pipes, bagpipes := Get(override, "bagpipes").value, Get(swagger, "bagpipes");
      assert Get(withMock, "bagpipes") == bagpipes;
      LayerParsed(layer);
      OverrideFields(pipes.fields[0].key, Get(bagpipes.value, pipes.fields[0].key), pipes.fields[0].value);
      RouterOverlaid(bagpipes.value, pipes);
    } else {
      assert merged == withMock;
    }
  }

  /** What the configuration used says at each key. */
  lemma ConfiguredValues(defaults: Option<Json>, layer: Option<Json>, createMock: Option<bool>)
    requires layer.Some? ==> Parsed(layer.value)
    requires Configure(defaults, layer, createMock).Some?
    ensures var merged := Configure(defaults, layer, createMock).value.merged;
      && Get(merged, "mockMode") == MockMode(defaults, layer, createMock)
      && (forall key :: key != "mockMode" && key != "bagpipes" ==> Get(merged, key) == Said(defaults, key))
      && (Said(layer, "bagpipes").None? ==> Get(merged, "bagpipes") == Said(defaults, "bagpipes"))
      && (Said(layer, "bagpipes").Some? ==>
            Overlaid(Said(defaults, "bagpipes"), Said(layer, "bagpipes").value, Get(merged, "bagpipes")))
  {
    hide Get, Put, Merge, DefaultSwagger, Overlaid, Parsed, LayerShape;
    var swagger := DefaultSwagger(defaults).value;
    var document := if defaults.Some? then defaults.value else Null;
    KeysDiffer();
    SaidDefaults(defaults);
    if layer.Some? {
      MergeNeedsShape(document, swagger, layer.value);
      ShapeHasSwagger(layer.value);
      MergeValues(document, swagger, layer.value);
    }
  }

  lemma ShapeHasSwagger(layer: Json)
    requires LayerShape(layer)
    ensures layer.Obj? && |layer.fields| == 1 && Get(layer, "swagger") == Some(layer.fields[0].value)
  {
    OneField(layer);
  }

  lemma SaidDefaults(defaults: Option<Json>)
    requires DefaultSwagger(defaults).Some?
    ensures forall key :: Get(DefaultSwagger(defaults).value, key) == Said(defaults, key)
  {
    assert forall key :: Get(Obj([]), key) == None;
  }

  // ---------- walking the pipe ----------

  predicate KnownFitting(name: string) {
    name == "cors" || name == "swagger_params_parser" || name == "swagger_security" || name == "swagger_validator"
    || name == "express_compatibility"
  }

  predicate AllowedSwagger(merged: Json)
    requires merged.Obj?
  {
    KeysAmong(merged, {"bagpipes", "swaggerControllerPipe", "defaultPipe", "fittingsDirs", "mockMode", "mapErrorsToJson",
                       "startWithErrors", "startWithWarnings", "enforceUniqueOperationId"})
  }

  predicate AllowedRouter(value: Json)
    requires value.Obj?
  {
    KeysAmong(value, {"name", "mockMode", "mockControllersDirs", "controllersDirs", "controllersInterface"})
  }

  /** A router found in the pipe: its fields, its name, and where it stands below `/swagger/bagpipes`. */
  datatype Router = Router(value: Json, name: string, owner: string, path: seq<string>)

  datatype Fitting = NoFitting | Skipped | Found(router: Router)

  /** One item of the pipe: skipped, a fitting, or neither. */
  function FittingOf(bagpipes: Json, pipeline: string, index: nat, item: Json): Fitting {
    match item
    case Str(name) =>
      if Reserved(name) then NoFitting
      else if Has(bagpipes, name) then
        if Get(bagpipes, name).value.Obj? then Found(Router(Get(bagpipes, name).value, name, name, [])) else NoFitting
      else Found(Router(Obj([Field("name", Str(name))]), name, pipeline, [DecimalText(index)]))
    case Obj(fields) =>
      if |fields| == 1 && Get(item, "onError") == Some(Str("json_error_handler")) then Skipped
      else Found(Router(item, "inline-" + DecimalText(index), pipeline, [DecimalText(index)]))
    case _ => NoFitting
  }

  /** The tokens of a pointer into a router. */
  function Into(router: Router, more: seq<string>): seq<string> {
    RouterTokens(router.owner) + (router.path + more)
  }

  /** A recorded pointer is written where it says, with the value used. */
  ghost predicate Recorded(o: Overlay, location: Location) {
    Truthful(o, location) && Lookup(Used(o), Tokens(location.pointer)).Some?
  }

  ghost predicate AllRecorded(o: Overlay, recorded: seq<Location>) {
    forall k :: 0 <= k < |recorded| ==> Recorded(o, recorded[k])
  }

  /** A router that stands in the configuration, or one made up for a plain name that is not defined there. */
  ghost predicate Stands(o: Overlay, router: Router) {
    && (router.path == [] || exists i: nat :: i < 32 && router.path == [DecimalText(i)])
    && router.value.Obj?
    && (Lookup(Used(o), Into(router, [])) == Some(router.value) || Get(router.value, "controllersDirs") == None)
  }

  lemma DecimalIsPlain(n: nat)
    requires n < 1000
    ensures PlainToken(DecimalText(n)) && IsArrayIndex(DecimalText(n)) && NumberOf(DecimalText(n)) == n
    ensures Without(DecimalText(n), '/')
  {
    assert Power(3) == 1000;
    DecimalFacts(n, 3);
    hide Power;
    assert forall i :: 0 <= i < |DecimalText(n)| ==> Digit(DecimalText(n)[i]);
    if n == 0 { assert DecimalText(0) == [DigitChar(0)]; }
  }

  lemma RecordedBelow(o: Overlay, name: string, key: string, rest: seq<string>)
    requires IsOverlay(o) && PlainToken(key) && SlashFree(rest)
    requires Get(o.merged, BagpipesKey()).Some? && Get(o.merged, BagpipesKey()).value.Obj?
    requires Lookup(Used(o), Below(name, key, rest)).Some?
    ensures Recorded(o, Placed(Overridden(o), Text(Below(name, key, rest))))
    ensures Tokens(Text(Below(name, key, rest))) == Below(name, key, rest)
  {
    hide IsOverlay, Lookup, Below, Text, Tokens, Overridden;
    PlacedTruthfully(o, name, key, rest);
    BelowSlashFree(name, key, rest);
  }

  /** The configuration has pipelines. */
  ghost predicate HasPipes(o: Overlay, bagpipes: Json) {
    IsOverlay(o) && Get(o.merged, BagpipesKey()) == Some(bagpipes) && bagpipes.Obj?
  }

  lemma UsedBelow(o: Overlay, bagpipes: Json, name: string, rest: seq<string>)
    requires HasPipes(o, bagpipes)
    ensures Lookup(Used(o), RouterTokens(name) + rest) ==
      if Has(bagpipes, name) then Lookup(Get(bagpipes, name).value, rest) else None
  {
    UsedSwagger(o);
    LookupBelowRouter(Used(o), o.merged, name, rest);
  }

  lemma ItemRecorded(o: Overlay, bagpipes: Json, pipeline: string, pipe: seq<Json>, k: nat)
    requires HasPipes(o, bagpipes) && Get(bagpipes, pipeline) == Some(Arr(pipe)) && k < |pipe| <= 32
    ensures Lookup(Used(o), Below(pipeline, DecimalText(k), [])) == Some(pipe[k])
    ensures Recorded(o, Placed(Overridden(o), Text(Below(pipeline, DecimalText(k), []))))
  {
    DecimalIsPlain(k);
    UsedBelow(o, bagpipes, pipeline, [DecimalText(k)] + []);
    assert ([DecimalText(k)] + [])[1..] == [];
    hide IsOverlay, Text, Tokens, Overridden, DecimalText, RouterTokens, Truthful;
    RecordedBelow(o, pipeline, DecimalText(k), []);
  }

  lemma FittingStands(o: Overlay, bagpipes: Json, pipeline: string, pipe: seq<Json>, k: nat)
    requires HasPipes(o, bagpipes) && Get(bagpipes, pipeline) == Some(Arr(pipe)) && k < |pipe| <= 32
    requires FittingOf(bagpipes, pipeline, k, pipe[k]).Found?
    ensures Stands(o, FittingOf(bagpipes, pipeline, k, pipe[k]).router)
  {
    var item := pipe[k];
    var router := FittingOf(bagpipes, pipeline, k, item).router;
    if item.Str? && Has(bagpipes, item.text) {
      UsedBelow(o, bagpipes, router.owner, []);
      assert Into(router, []) == RouterTokens(router.owner) + [];
    } else {
      ItemRecorded(o, bagpipes, pipeline, pipe, k);
      NoDirectories(router.name);
      IntoInline(router, DecimalText(k), []);
    }
    hide HasPipes, DecimalText, RouterTokens, Recorded, Lookup, Get, Below, Into;
  }

  lemma NoDirectories(name: string)
    ensures Get(Obj([Field("name", Str(name))]), "controllersDirs") == None
  {
    assert "name"[0] != "controllersDirs"[0];
    assert [Field("name", Str(name))][1..] == [];
  }

  lemma Regroup<T>(a: seq<T>, b: seq<T>, c: seq<T>)
    ensures a + (b + c) == a + (b + []) + c
  {
  }

  /** A pointer into a standing router finds what the router holds there. */
  lemma IntoRouter(o: Overlay, router: Router, more: seq<string>)
    requires Lookup(Used(o), Into(router, [])) == Some(router.value)
    ensures Lookup(Used(o), Into(router, more)) == Lookup(router.value, more)
  {
    hide RouterTokens, Lookup, Used;
    Regroup(RouterTokens(router.owner), router.path, more);
    LookupConcat(Used(o), Into(router, []), more);
  }

  lemma IntoNamed(router: Router, key: string, rest: seq<string>)
    requires router.path == []
    ensures Into(router, [key] + rest) == Below(router.owner, key, rest)
  {
    hide RouterTokens;
    assert [] + ([key] + rest) == [key] + rest;
  }

  lemma IntoInline(router: Router, index: string, more: seq<string>)
    requires router.path == [index]
    ensures Into(router, more) == Below(router.owner, index, more)
  {
    hide RouterTokens;
  }

  lemma RecordedInto(o: Overlay, bagpipes: Json, router: Router, key: string, rest: seq<string>)
    requires HasPipes(o, bagpipes) && Stands(o, router) && Get(router.value, "controllersDirs").Some?
    requires PlainToken(key) && SlashFree(rest) && Lookup(router.value, [key] + rest).Some?
    ensures var pointer := Text(Into(router, [key] + rest));
      && Recorded(o, Placed(Overridden(o), pointer))
      && Lookup(Used(o), Tokens(pointer)) == Lookup(router.value, [key] + rest)
  {
    hide IsOverlay, Text, Tokens, Overridden, RouterTokens, Truthful, Lookup, DecimalText, Into, Below, Used, Get, PlainToken;
    IntoRouter(o, router, [key] + rest);
    if router.path == [] {
      IntoNamed(router, key, rest);
      RecordedBelow(o, router.owner, key, rest);
    } else {
      var i: nat :| i < 32 && router.path == [DecimalText(i)];
      DecimalIsPlain(i);
      PlainUnescape(key);
      IntoInline(router, DecimalText(i), [key] + rest);
      RecordedBelow(o, router.owner, DecimalText(i), [key] + rest);
    }
  }

  datatype Walk = Refused(reason: string) | Walked(router: Router, recorded: seq<Location>)

  /** What the item at an index of the pipe calls itself, if it is a fitting. */
  function NameAt(bagpipes: Json, pipeline: string, pipe: seq<Json>, k: nat): Option<Json>
    requires k < |pipe|
  {
    var fitting := FittingOf(bagpipes, pipeline, k, pipe[k]);
    if fitting.Found? then Get(fitting.router.value, "name") else None
  }

  predicate RoutesAt(bagpipes: Json, pipeline: string, pipe: seq<Json>, k: nat)
    requires k < |pipe|
  {
    NameAt(bagpipes, pipeline, pipe, k) == Some(Str("swagger_router"))
  }

  /** An item that may stand before the router: an error handler, or a fitting of a known name. */
  predicate PassesOn(bagpipes: Json, pipeline: string, pipe: seq<Json>, k: nat)
    requires k < |pipe|
  {
    var name := NameAt(bagpipes, pipeline, pipe, k);
    || FittingOf(bagpipes, pipeline, k, pipe[k]).Skipped?
    || (name.Some? && name.value.Str? && KnownFitting(name.value.text))
  }

  /** The pipe ends in its only router, and everything before it is known. */
  predicate EndsInRouter(bagpipes: Json, pipeline: string, pipe: seq<Json>) {
    && pipe != [] && RoutesAt(bagpipes, pipeline, pipe, |pipe| - 1)
    && forall k :: 0 <= k < |pipe| - 1 ==> PassesOn(bagpipes, pipeline, pipe, k)
  }

  lemma PassesOrRoutes(bagpipes: Json, pipeline: string, pipe: seq<Json>, k: nat)
    requires k < |pipe|
    ensures PassesOn(bagpipes, pipeline, pipe, k) ==> !RoutesAt(bagpipes, pipeline, pipe, k)
  {
  }

  /** An object of one key that handles errors. */
  ghost predicate HandlesErrors(item: Json) {
    item.Obj? && |item.fields| == 1 && Get(item, "onError") == Some(Str("json_error_handler"))
  }

  /** The item stands for a fitting of this name: by a definition of its own, in the pipelines, or by the name alone. */
  ghost predicate Calls(bagpipes: Json, item: Json, name: string) {
    match item
    case Str(text) =>
      && text != "__proto__" && text != "prototype" && text != "constructor"
      && if Has(bagpipes, text) then Get(Get(bagpipes, text).value, "name") == Some(Str(name)) else text == name
    case Obj(_) => !HandlesErrors(item) && Get(item, "name") == Some(Str(name))
    case _ => false
  }

  /** Which items route, and which may stand before the router. */
  lemma ItemsExactly(bagpipes: Json, pipeline: string, pipe: seq<Json>, k: nat)
    requires k < |pipe|
    ensures RoutesAt(bagpipes, pipeline, pipe, k) <==> Calls(bagpipes, pipe[k], "swagger_router")
    ensures PassesOn(bagpipes, pipeline, pipe, k) <==>
      || HandlesErrors(pipe[k]) || Calls(bagpipes, pipe[k], "cors") || Calls(bagpipes, pipe[k], "swagger_params_parser")
      || Calls(bagpipes, pipe[k], "swagger_security") || Calls(bagpipes, pipe[k], "swagger_validator")
      || Calls(bagpipes, pipe[k], "express_compatibility")
  {
    NamedExactly(bagpipes, pipeline, pipe, k);
    hide FittingOf, Calls, NameAt;
    var name := NameAt(bagpipes, pipeline, pipe, k);
    if name.Some? && name.value.Str? { assert Calls(bagpipes, pipe[k], name.value.text); }
  }

  lemma NamedExactly(bagpipes: Json, pipeline: string, pipe: seq<Json>, k: nat)
    requires k < |pipe|
    ensures forall name :: NameAt(bagpipes, pipeline, pipe, k) == Some(Str(name)) <==> Calls(bagpipes, pipe[k], name)
    ensures FittingOf(bagpipes, pipeline, k, pipe[k]).Skipped? <==> HandlesErrors(pipe[k])
  {
    forall text { NameOfPlain(text); }
    hide DecimalText, Get;
  }

  lemma NameOfPlain(text: string)
    ensures Get(Obj([Field("name", Str(text))]), "name") == Some(Str(text))
  {
  }

  datatype Item = BadItem(reason: string) | PassedItem | RouterItem(router: Router)

  /** One turn of the loop over the controller pipe. */
  method CheckItem(bagpipes: Json, pipeline: string, pipe: seq<Json>, index: nat, found: bool) returns (r: Item)
    requires index < |pipe|
    ensures r.PassedItem? <==> PassesOn(bagpipes, pipeline, pipe, index)
    ensures r.RouterItem? <==> RoutesAt(bagpipes, pipeline, pipe, index) && !found && index == |pipe| - 1
    ensures r.RouterItem? ==> FittingOf(bagpipes, pipeline, index, pipe[index]) == Found(r.router)
  {
    PassesOrRoutes(bagpipes, pipeline, pipe, index);
    var fitting := FittingOf(bagpipes, pipeline, index, pipe[index]);
    hide FittingOf;
    if fitting.NoFitting? { return BadItem("pipeline_fitting_unverified"); }
    if fitting.Skipped? { return PassedItem; }
    var name := Get(fitting.router.value, "name");
    hide Get;
    if name.None? || !name.value.Str? { return BadItem("pipeline_fitting_unverified"); }
    if name.value.text != "swagger_router" {
      return if KnownFitting(name.value.text) then PassedItem else BadItem("pipeline_fitting_unverified");
    }
    if found || index != |pipe| - 1 { return BadItem("ambiguous_or_nonfinal_router"); }
    return RouterItem(fitting.router);
  }

  /** The loop over the controller pipe. */
  method WalkPipe(o: Overlay, overridden: seq<string>, bagpipes: Json, pipeline: string, pipe: seq<Json>, first: seq<Location>)
    returns (w: Walk)
    requires HasPipes(o, bagpipes) && overridden == Overridden(o) && AllRecorded(o, first)
    requires Get(bagpipes, pipeline) == Some(Arr(pipe)) && |pipe| <= 32
    ensures w.Walked? ==> AllRecorded(o, w.recorded) && Stands(o, w.router)
    ensures w.Walked? <==> EndsInRouter(bagpipes, pipeline, pipe)
    ensures w.Walked? ==> FittingOf(bagpipes, pipeline, |pipe| - 1, pipe[|pipe| - 1]) == Found(w.router)
  {
    hide HasPipes, Recorded, Text, Overridden, Stands, FromLayer, FittingOf, PassesOn, RoutesAt, Below, Get, DecimalText;
    var recorded := first;
    var router: Option<Router> := None;
    var index := 0;
    while index < |pipe|
      invariant 0 <= index <= |pipe| && AllRecorded(o, recorded)
      invariant forall k :: 0 <= k < index && k < |pipe| - 1 ==> PassesOn(bagpipes, pipeline, pipe, k)
      invariant router.Some? <==> 0 < index == |pipe| && RoutesAt(bagpipes, pipeline, pipe, |pipe| - 1)
      invariant router.Some? ==> Stands(o, router.value) && FittingOf(bagpipes, pipeline, |pipe| - 1, pipe[|pipe| - 1]) == Found(router.value)
    {
      ItemRecorded(o, bagpipes, pipeline, pipe, index);
      recorded := recorded + [Placed(overridden, Text(Below(pipeline, DecimalText(index), [])))];
      var item := CheckItem(bagpipes, pipeline, pipe, index, router.Some?);
      PassesOrRoutes(bagpipes, pipeline, pipe, index);
      if item.BadItem? { return Refused(item.reason); }
      if item.RouterItem? {
        FittingStands(o, bagpipes, pipeline, pipe, index);
        router := Some(item.router);
      }
      index := index + 1;
    }
    if router.None? { return Refused("controller_router_unverified"); }
    return Walked(router.value, recorded);
  }

  lemma FieldLookup(value: Json, key: string, rest: seq<string>)
    requires value.Obj? && PlainToken(key)
    ensures Lookup(value, [key] + rest) == if Has(value, key) then Lookup(Get(value, key).value, rest) else None
  {
    PlainUnescape(key);
    LookupHead(value, key, rest);
  }

  lemma RouterKeys()
    ensures PlainToken("name") && PlainToken("controllersDirs") && PlainToken("mockMode") && PlainToken("controllersInterface")
  {
  }

  /** What a directory of the router is recorded as. */
  lemma DirectoryRecorded(o: Overlay, bagpipes: Json, router: Router, items: seq<Json>, i: nat)
    requires HasPipes(o, bagpipes) && Stands(o, router) && Get(router.value, "controllersDirs") == Some(Arr(items))
    requires i < |items| <= 8
    ensures var pointer := Text(Into(router, ["controllersDirs"] + [DecimalText(i)]));
      Recorded(o, Placed(Overridden(o), pointer)) && Lookup(Used(o), Tokens(pointer)) == Some(items[i])
  {
    RouterKeys();
    DecimalIsPlain(i);
    FieldLookup(router.value, "controllersDirs", [DecimalText(i)]);
    assert [DecimalText(i)][1..] == [];
    hide HasPipes, Recorded, Text, Tokens, Overridden, DecimalText, Get;
    RecordedInto(o, bagpipes, router, "controllersDirs", [DecimalText(i)]);
  }

  lemma SimpleRecorded(o: Overlay, bagpipes: Json, router: Router, key: string)
    requires HasPipes(o, bagpipes) && Stands(o, router) && Get(router.value, "controllersDirs").Some?
    requires PlainToken(key) && Has(router.value, key)
    ensures Recorded(o, Placed(Overridden(o), Text(Into(router, [key] + []))))
  {
    FieldLookup(router.value, key, []);
    hide HasPipes, Recorded, Text, Tokens, Overridden, Get;
    RecordedInto(o, bagpipes, router, key, []);
  }

  /** The directories a router lists. */
  function TextsOf(items: seq<Json>): (r: seq<string>)
    requires forall i :: 0 <= i < |items| ==> items[i].Str?
    ensures |r| == |items| && forall i :: 0 <= i < |r| ==> items[i] == Str(r[i])
  {
    if items == [] then [] else [items[0].text] + TextsOf(items[1..])
  }

  function Listed(directories: seq<string>): (r: seq<Json>)
    ensures |r| == |directories| && forall i :: 0 <= i < |r| ==> r[i] == Str(directories[i])
  {
    if directories == [] then [] else [Str(directories[0])] + Listed(directories[1..])
  }

  /** Where a directory used is written: a recorded pointer whose file says it. */
  ghost predicate Written(o: Overlay, recorded: seq<Location>, directory: string) {
    exists k :: 0 <= k < |recorded| &&
      Lookup(FileOf(o, recorded[k].source), Tokens(recorded[k].pointer)) == Some(Str(directory))
  }

  /** Records a field of the router if it is there. */
  method RecordField(o: Overlay, overridden: seq<string>, bagpipes: Json, router: Router, key: string, first: seq<Location>)
    returns (recorded: seq<Location>)
    requires HasPipes(o, bagpipes) && overridden == Overridden(o) && AllRecorded(o, first) && Stands(o, router)
    requires Get(router.value, "controllersDirs").Some? && PlainToken(key)
    ensures AllRecorded(o, recorded)
    ensures forall directory :: Written(o, first, directory) ==> Written(o, recorded, directory)
  {
    hide HasPipes, Recorded, Text, Tokens, Overridden, Stands, FromLayer, Truthful, Written, Placed;
    recorded := first;
    if Has(router.value, key) {
      SimpleRecorded(o, bagpipes, router, key);
      var next := Placed(overridden, Text(Into(router, [key] + [])));
      StillWritten(o, first, next);
      recorded := first + [next];
    }
  }

  /** Records every controller directory of the router. */
  method RecordDirectories(o: Overlay, overridden: seq<string>, bagpipes: Json, router: Router, first: seq<Location>)
    returns (recorded: seq<Location>)
    requires HasPipes(o, bagpipes) && overridden == Overridden(o) && AllRecorded(o, first) && Stands(o, router)
    requires Directories(Get(router.value, "controllersDirs"), false)
    ensures AllRecorded(o, recorded)
    ensures forall i :: 0 <= i < |Get(router.value, "controllersDirs").value.items| ==>
      Written(o, recorded, Get(router.value, "controllersDirs").value.items[i].text)
  {
    hide HasPipes, Recorded, Text, Tokens, Overridden, Stands, FromLayer, Truthful, Written, Placed, IsDirectory, Into, DecimalText;
    var items := Get(router.value, "controllersDirs").value.items;
    recorded := first;
    var k := 0;
    while k < |items|
      invariant 0 <= k <= |items| && AllRecorded(o, recorded)
      invariant forall i :: 0 <= i < k ==> Written(o, recorded, items[i].text)
    {
      DirectoryRecorded(o, bagpipes, router, items, k);
      var next := Placed(overridden, Text(Into(router, ["controllersDirs"] + [DecimalText(k)])));
      StillWritten(o, recorded, next);
      PlacedPointer(overridden, Text(Into(router, ["controllersDirs"] + [DecimalText(k)])));
      JustWritten(o, recorded, next, items[k].text);
      recorded := recorded + [next];
      k := k + 1;
    }
  }

  lemma PlacedPointer(overridden: seq<string>, pointer: string)
    ensures Placed(overridden, pointer).pointer == pointer
  {
  }

  /** What the resolution asks of a router. */
  predicate RouterFine(value: Json) {
    && value.Obj? && AllowedRouter(value)
    && AbsentOr(Get(value, "mockMode"), Bool(false))
    && AbsentOr(Get(value, "controllersInterface"), Str("middleware"))
    && Directories(Get(value, "controllersDirs"), false) && Directories(Get(value, "mockControllersDirs"), true)
  }

  /** The checks on the router, and the pointers to what is used of it. */
  method UseRouter(o: Overlay, overridden: seq<string>, bagpipes: Json, pipeline: string, router: Router, first: seq<Location>)
    returns (r: Resolution)
    requires HasPipes(o, bagpipes) && overridden == Overridden(o) && AllRecorded(o, first) && Stands(o, router)
    ensures !r.DefaultRouting? && (r.Configured? <==> RouterFine(router.value))
    ensures r.Configured? ==> AllRecorded(o, r.recorded) && r.pipeline == pipeline && r.router == router.name
    ensures r.Configured? ==> Get(router.value, "controllersDirs") == Some(Arr(Listed(r.directories)))
    ensures r.Configured? ==> forall i :: 0 <= i < |r.directories| ==> Written(o, r.recorded, r.directories[i])
  {
    assert router.value.Obj?;
    hide HasPipes, Recorded, AllRecorded, Overridden, Stands, AllowedRouter, IsDirectory, Written, Get;
    var value := router.value;
    if !AllowedRouter(value) { return Unresolved("router_configuration_unsupported"); }
    if !AbsentOr(Get(value, "mockMode"), Bool(false)) { return Unresolved("mock_routing_unverified"); }
    if !AbsentOr(Get(value, "controllersInterface"), Str("middleware")) { return Unresolved("controller_interface_unverified"); }
    if !Directories(Get(value, "controllersDirs"), false) || !Directories(Get(value, "mockControllersDirs"), true) {
      return Unresolved("controller_directories_unsupported");
    }
    var items := Get(value, "controllersDirs").value.items;
    RouterKeys();
    hide PlainToken;
    var recorded := RecordField(o, overridden, bagpipes, router, "name", first);
    recorded := RecordDirectories(o, overridden, bagpipes, router, recorded);
    recorded := RecordField(o, overridden, bagpipes, router, "mockMode", recorded);
    recorded := RecordField(o, overridden, bagpipes, router, "controllersInterface", recorded);
    assert Listed(TextsOf(items)) == items;
    return Configured(TextsOf(items), pipeline, router.name, recorded);
  }

  lemma StillWritten(o: Overlay, recorded: seq<Location>, next: Location)
    ensures forall directory :: Written(o, recorded, directory) ==> Written(o, recorded + [next], directory)
  {
    forall directory | Written(o, recorded, directory) ensures Written(o, recorded + [next], directory) {
      var k :| 0 <= k < |recorded| && Lookup(FileOf(o, recorded[k].source), Tokens(recorded[k].pointer)) == Some(Str(directory));
      assert (recorded + [next])[k] == recorded[k];
    }
  }

  lemma JustWritten(o: Overlay, recorded: seq<Location>, next: Location, directory: string)
    requires Recorded(o, next) && Lookup(Used(o), Tokens(next.pointer)) == Some(Str(directory))
    ensures Written(o, recorded + [next], directory)
  {
    assert (recorded + [next])[|recorded|] == next;
  }

  lemma RouterFineExactly(value: Json)
    ensures RouterFine(value) <==>
      && value.Obj?
      && (forall key :: Has(value, key) ==>
            || key == "name" || key == "mockMode" || key == "mockControllersDirs" || key == "controllersDirs"
            || key == "controllersInterface")
      && (Has(value, "mockMode") ==> Get(value, "mockMode") == Some(Bool(false)))
      && (Has(value, "controllersInterface") ==> Get(value, "controllersInterface") == Some(Str("middleware")))
      && Directories(Get(value, "controllersDirs"), false) && Directories(Get(value, "mockControllersDirs"), true)
  {
    hide Directories, AllowedRouter, Get;
    if value.Obj? { RouterKeysExactly(value); }
  }

  lemma RouterKeysExactly(value: Json)
    requires value.Obj?
    ensures AllowedRouter(value) <==> forall key :: Has(value, key) ==>
      || key == "name" || key == "mockMode" || key == "mockControllersDirs" || key == "controllersDirs"
      || key == "controllersInterface"
  {
    hide Get, Has, KeysAmong;
    KeysExactly(value, {"name", "mockMode", "mockControllersDirs", "controllersDirs", "controllersInterface"});
  }

  lemma KeysExactly(j: Json, keys: set<string>)
    requires j.Obj?
    ensures KeysAmong(j, keys) <==> forall key :: Has(j, key) ==> key in keys
  {
    forall i | 0 <= i < |j.fields| ensures Has(j, j.fields[i].key) { FieldIsPresent(j, i); }
  }

  // ---------- the whole resolution ----------

  /** `swagger.fittingsDirs ?? ["api/fittings"]` is a list of directories. */
  predicate FittingDirectories(merged: Json) {
    match Get(merged, "fittingsDirs")
    case None => true
    case Some(Null) => true
    case Some(value) => Directories(Some(value), true)
  }

  /** Nothing outside the pipelines stands in the way. */
  predicate SwaggerFine(merged: Json, customFittings: bool) {
    && merged.Obj? && AllowedSwagger(merged)
    && AbsentOr(Get(merged, "mockMode"), Bool(false)) && FittingDirectories(merged) && !customFittings
  }

  predicate KnownSetting(key: string) {
    || key == "bagpipes" || key == "swaggerControllerPipe" || key == "defaultPipe" || key == "fittingsDirs"
    || key == "mockMode" || key == "mapErrorsToJson" || key == "startWithErrors" || key == "startWithWarnings"
    || key == "enforceUniqueOperationId"
  }

  /** Said on the documents: known keys, no mock mode, fitting directories that are in order and empty. */
  ghost predicate SettingsFine(defaults: Option<Json>, layer: Option<Json>, createMock: Option<bool>, customFittings: bool) {
    && (forall key :: Said(defaults, key).Some? ==> KnownSetting(key))
    && (MockMode(defaults, layer, createMock).None? || MockMode(defaults, layer, createMock) == Some(Bool(false)))
    && (|| Said(defaults, "fittingsDirs").None? || Said(defaults, "fittingsDirs") == Some(Null)
        || Directories(Said(defaults, "fittingsDirs"), true))
    && !customFittings
  }

  lemma KnownSettings(merged: Json)
    requires merged.Obj?
    ensures AllowedSwagger(merged) <==> forall key :: Has(merged, key) ==> KnownSetting(key)
  {
    KeysExactly(merged, {"bagpipes", "swaggerControllerPipe", "defaultPipe", "fittingsDirs", "mockMode", "mapErrorsToJson",
                         "startWithErrors", "startWithWarnings", "enforceUniqueOperationId"});
    hide Get, Has, KeysAmong;
  }

  lemma SettingsOf(merged: Json, defaults: Option<Json>, layer: Option<Json>, createMock: Option<bool>, customFittings: bool)
    requires merged.Obj? && Get(merged, "mockMode") == MockMode(defaults, layer, createMock)
    requires forall key :: key != "mockMode" && key != "bagpipes" ==> Get(merged, key) == Said(defaults, key)
    ensures SwaggerFine(merged, customFittings) <==> SettingsFine(defaults, layer, createMock, customFittings)
  {
    hide Directories, Get, Said, MockMode, AllowedSwagger, KnownSetting;
    KnownSettings(merged);
    SettingKeys();
    assert Get(merged, "fittingsDirs") == Said(defaults, "fittingsDirs");
    if AllowedSwagger(merged) {
      forall key | Said(defaults, key).Some? ensures KnownSetting(key) {
        if key != "mockMode" && key != "bagpipes" { assert Has(merged, key); }
      }
    } else {
      var key :| Has(merged, key) && !KnownSetting(key);
      assert Said(defaults, key).Some?;
    }
  }

  lemma SettingsExactly(defaults: Option<Json>, layer: Option<Json>, createMock: Option<bool>, customFittings: bool)
    requires layer.Some? ==> Parsed(layer.value)
    requires Configure(defaults, layer, createMock).Some?
    ensures SwaggerFine(Configure(defaults, layer, createMock).value.merged, customFittings) <==>
      SettingsFine(defaults, layer, createMock, customFittings)
  {
    hide Merge, DefaultSwagger, Get, Put, Said, MockMode, Overlaid, Parsed, SwaggerFine, SettingsFine;
    ConfiguredValues(defaults, layer, createMock);
    SettingsOf(Configure(defaults, layer, createMock).value.merged, defaults, layer, createMock, customFittings);
  }

  lemma SettingKeys()
    ensures KnownSetting("mockMode") && KnownSetting("bagpipes") && "fittingsDirs" != "mockMode" && "fittingsDirs" != "bagpipes"
  {
  }

  /** The controller pipe a configuration names: its name and its items. */
  function PipeOf(merged: Json): Option<(string, seq<Json>)> {
    match (Get(merged, BagpipesKey()), Get(merged, PipeKey()))
    case (Some(bagpipes), Some(Str(pipeline))) =>
      if !IsName(pipeline) || Reserved(pipeline) then None
      else (match Get(bagpipes, pipeline)
        case Some(Arr(pipe)) => if 0 < |pipe| <= 32 then Some((pipeline, pipe)) else None
        case _ => None)
    case _ => None
  }

  /** The router the configuration routes with, and the pipe it ends. */
  function RouterOf(merged: Json): Option<(string, Router)> {
    match (Get(merged, BagpipesKey()), PipeOf(merged))
    case (Some(bagpipes), Some((pipeline, pipe))) =>
      if !EndsInRouter(bagpipes, pipeline, pipe) then None
      else
        (match FittingOf(bagpipes, pipeline, |pipe| - 1, pipe[|pipe| - 1])
        case Found(router) => if RouterFine(router.value) then Some((pipeline, router)) else None
        case _ => None)
    case _ => None
  }

  predicate NoPipelines(merged: Json) {
    AbsentOr(Get(merged, BagpipesKey()), Null)
  }

  /** The pipe and the router of a configuration with pipelines. */
  method ResolvePipe(o: Overlay, bagpipes: Json) returns (r: Resolution)
    requires HasPipes(o, bagpipes)
    ensures !r.DefaultRouting? && (r.Configured? <==> RouterOf(o.merged).Some?)
    ensures r.Configured? ==>
      var (pipeline, router) := RouterOf(o.merged).value;
      && r.pipeline == pipeline && r.router == router.name
      && Get(router.value, "controllersDirs") == Some(Arr(Listed(r.directories)))
    ensures r.Configured? ==> AllRecorded(o, r.recorded) && forall i :: 0 <= i < |r.directories| ==> Written(o, r.recorded, r.directories[i])
  {
    hide IsOverlay, Overridden, FromLayer, Stands, Recorded, Text, Tokens, Written, Reserved, EndsInRouter, RouterFine, IsName, Listed, FittingOf;
    var pipeline := Get(o.merged, PipeKey());
    if pipeline.None? || !pipeline.value.Str? || !IsName(pipeline.value.text) || Reserved(pipeline.value.text) {
      return Unresolved("controller_pipeline_unverified");
    }
    var pipe := Get(bagpipes, pipeline.value.text);
    if pipe.None? || !pipe.value.Arr? || pipe.value.items == [] || |pipe.value.items| > 32 {
      return Unresolved("controller_pipeline_unverified");
    }
    PipeRecorded(o);
    var overridden := Overridden(o);
    var first := [Placed(overridden, Text([SwaggerKey(), PipeKey()]))];
    hide Get, Placed, AllRecorded;
    var walk := WalkPipe(o, overridden, bagpipes, pipeline.value.text, pipe.value.items, first);
    if walk.Refused? { return Unresolved(walk.reason); }
    r := UseRouter(o, overridden, bagpipes, pipeline.value.text, walk.router, walk.recorded);
  }

  /**
   * Configured exactly when nothing stands in the way and the named pipe ends in its only router, and then with that
   * router's directories. Every recorded pointer finds the used value in the file named beside it, and every directory
   * used is written at one of them.
   */
  method ResolveConfiguration(defaults: Option<Json>, layer: Option<Json>, createMock: Option<bool>, customFittings: bool)
    returns (r: Resolution)
    requires layer.Some? ==> Parsed(layer.value)
    ensures r.Unresolved? <==>
      !(Configure(defaults, layer, createMock).Some?
        && var merged := Configure(defaults, layer, createMock).value.merged;
           && SettingsFine(defaults, layer, createMock, customFittings)
           && (NoPipelines(merged) || RouterOf(merged).Some?))
    ensures !r.Unresolved? ==>
      MockMode(defaults, layer, createMock).None? || MockMode(defaults, layer, createMock) == Some(Bool(false))
    ensures !r.Unresolved? ==> (r.DefaultRouting? <==> NoPipelines(Configure(defaults, layer, createMock).value.merged))
    ensures r.Configured? ==>
      var o := Configure(defaults, layer, createMock).value;
      && RouterOf(o.merged).Some?
      && var (pipeline, router) := RouterOf(o.merged).value;
         && r.pipeline == pipeline && r.router == router.name
         && Get(router.value, "controllersDirs") == Some(Arr(Listed(r.directories)))
    ensures r.Configured? ==>
      var o := Configure(defaults, layer, createMock).value;
      && defaults == Some(o.defaults) && (layer.Some? ==> o.layer == layer.value)
      && AllRecorded(o, r.recorded)
      && forall i :: 0 <= i < |r.directories| ==> Written(o, r.recorded, r.directories[i])
  {
    hide IsOverlay, Overridden, FromLayer, AllowedSwagger, Stands, Recorded, Text, Tokens, Written, Reserved,
      Get, EndsInRouter, RouterFine, FittingDirectories, IsName, Listed;
    var overlay := Configure(defaults, layer, createMock);
    if overlay.None? { return Unresolved("invalid_configuration"); }
    var o := overlay.value;
    ConfiguredIsOverlay(defaults, layer, createMock);
    SettingsExactly(defaults, layer, createMock, customFittings);
    assert SettingsFine(defaults, layer, createMock, customFittings) ==>
      MockMode(defaults, layer, createMock).None? || MockMode(defaults, layer, createMock) == Some(Bool(false));
    hide Configure, SettingsFine, MockMode;
    if !o.merged.Obj? || !AllowedSwagger(o.merged) { return Unresolved("unsupported_swagger_configuration"); }
    if !AbsentOr(Get(o.merged, "mockMode"), Bool(false)) { return Unresolved("mock_routing_unverified"); }
    if !FittingDirectories(o.merged) { return Unresolved("fitting_directories_unsupported"); }
    if customFittings { return Unresolved("custom_fittings_unverified"); }
    var found := Get(o.merged, BagpipesKey());
    if found.None? || found.value.Null? { return DefaultRouting; }
    if !found.value.Obj? { return Unresolved("pipeline_unverified"); }
    r := ResolvePipe(o, found.value);
  }

  lemma PipeRecorded(o: Overlay)
    requires IsOverlay(o) && Get(o.merged, PipeKey()).Some?
    ensures Recorded(o, Placed(Overridden(o), Text([SwaggerKey(), PipeKey()])))
  {
    PipePlaced(o);
    hide Text, Tokens, Overridden, Lookup, Truthful, IsOverlay;
  }
}
