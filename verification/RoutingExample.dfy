/** An ordinary configuration, in the layout a new project starts from, and what the resolution makes of it. */
module RoutingExample {
  import opened JsonValues
  import opened RoutingConfiguration
  import opened RoutingOverlay
  import opened RoutingResolver
  import opened Strings

  function One(key: string, value: Json): Json {
    Obj([Field(key, value)])
  }

  function RouterDefinition(): Json {
    Obj([Field("name", Str("swagger_router")), Field("mockMode", Bool(true)),
         Field("mockControllersDirs", Arr([Str("api/mocks")])), Field("controllersDirs", Arr([Str("api/controllers")]))])
  }

  function PipeItems(): seq<Json> {
    [One("onError", Str("json_error_handler")), Str("cors"), Str("swagger_params_parser"), Str("swagger_security"),
     Str("_validate"), Str("express_compatibility"), Str("_router")]
  }

  function Bagpipes(): Json {
    Obj([Field("_router", RouterDefinition()), Field("_validate", One("name", Str("swagger_validator"))),
         Field("swagger_controllers", Arr(PipeItems()))])
  }

  function Settings(): seq<Field> {
    [Field("fittingsDirs", Arr([Str("api/fittings")])), Field("mockMode", Bool(true)),
     Field("swaggerControllerPipe", Str("swagger_controllers")), Field("bagpipes", Bagpipes())]
  }

  function Defaults(): Json {
    One("swagger", Obj(Settings()))
  }

  function Layer(): Json {
    One("swagger", Obj([Field("mockMode", Bool(false)), Field("bagpipes", One("_router", One("mockMode", Bool(false))))]))
  }

  lemma GetAt(fields: seq<Field>, i: nat)
    requires i < |fields| && forall k :: 0 <= k < i ==> fields[k].key != fields[i].key
    ensures Get(Obj(fields), fields[i].key) == Some(fields[i].value)
  {
    assert Find(fields, fields[i].key) == i;
  }

  lemma GetOne(key: string, value: Json)
    ensures forall other :: Get(One(key, value), other) == if other == key then Some(value) else None
    ensures forall other :: Has(One(key, value), other) <==> other == key
  {
    assert forall other :: Find([Field(key, value)], other) == if other == key then 0 else 1;
  }

  lemma SettingsOfDefaults()
    ensures Said(Some(Defaults()), "bagpipes") == Some(Bagpipes())
    ensures Said(Some(Defaults()), "swaggerControllerPipe") == Some(Str("swagger_controllers"))
    ensures Said(Some(Defaults()), "fittingsDirs") == Some(Arr([Str("api/fittings")]))
    ensures Said(Some(Defaults()), "mockMode") == Some(Bool(true))
    ensures forall key :: Said(Some(Defaults()), key).Some? ==> KnownSetting(key)
  {
    hide Get, Bagpipes;
    GetOne("swagger", Obj(Settings()));
    GetAt(Settings(), 0);
    GetAt(Settings(), 1);
    GetAt(Settings(), 2);
    GetAt(Settings(), 3);
    SettingsAreKnown();
  }

  lemma SettingsAreKnown()
    ensures forall key :: Has(Obj(Settings()), key) ==> KnownSetting(key)
  {
    forall key | Has(Obj(Settings()), key) ensures KnownSetting(key) {
      assert Settings()[Find(Settings(), key)].key == key;
    }
  }

  lemma DefinedFittings()
    ensures Get(Bagpipes(), "_router") == Some(RouterDefinition())
    ensures Get(Bagpipes(), "_validate") == Some(One("name", Str("swagger_validator")))
    ensures Get(Bagpipes(), "swagger_controllers") == Some(Arr(PipeItems()))
    ensures !Has(Bagpipes(), "cors") && !Has(Bagpipes(), "swagger_params_parser") && !Has(Bagpipes(), "swagger_security")
    ensures !Has(Bagpipes(), "express_compatibility")
  {
    GetAt(Bagpipes().fields, 0);
    GetAt(Bagpipes().fields, 1);
    GetAt(Bagpipes().fields, 2);
  }

  lemma RouterFields()
    ensures Get(RouterDefinition(), "name") == Some(Str("swagger_router"))
    ensures Get(RouterDefinition(), "mockControllersDirs") == Some(Arr([Str("api/mocks")]))
    ensures Get(RouterDefinition(), "controllersDirs") == Some(Arr([Str("api/controllers")]))
    ensures Get(RouterDefinition(), "controllersInterface") == None
    ensures forall key :: Has(RouterDefinition(), key) ==> key == "name" || key == "mockMode" || key == "mockControllersDirs" || key == "controllersDirs"
  {
    GetAt(RouterDefinition().fields, 0);
    GetAt(RouterDefinition().fields, 2);
    GetAt(RouterDefinition().fields, 3);
  }

  lemma TwoNames(a: string, b: string)
    requires PathName(a) && PathName(b)
    ensures IsDirectory(a + "/" + b)
    ensures Directories(Some(Arr([Str(a + "/" + b)])), false)
  {
    SplitFirst(a, b, '/');
    SplitWhole(b, '/');
    PathChars();
    assert a + ['/'] + b == a + "/" + b;
    assert Split(a + "/" + b, '/') == [a, b];
    hide Split;
  }

  lemma BelowApi(name: string)
    requires PathName(name)
    ensures Directories(Some(Arr([Str("api/" + name)])), false)
  {
    hide IsDirectory, Directories;
    TwoNames("api", name);
    assert "api" + "/" + name == "api/" + name;
  }

  lemma DirectoriesOfDefaults()
    ensures Directories(Some(Arr([Str("api/fittings")])), true)
    ensures Directories(Some(Arr([Str("api/mocks")])), true)
    ensures Directories(Some(Arr([Str("api/controllers")])), false)
  {
    hide IsDirectory;
    BelowApi("fittings");
    BelowApi("mocks");
    BelowApi("controllers");
    assert "api/" + "fittings" == "api/fittings" && "api/" + "mocks" == "api/mocks" && "api/" + "controllers" == "api/controllers";
  }

  lemma NoReservedOne(key: string, value: Json)
    requires !Reserved(key) && NoReserved(value)
    ensures NoReserved(One(key, value))
  {
  }

  lemma NoReservedInBagpipes()
    ensures NoReserved(Bagpipes())
  {
    assert NoReserved(Arr([Str("api/mocks")])) && NoReserved(Arr([Str("api/controllers")]));
    assert NoReserved(RouterDefinition());
    NoReservedOne("name", Str("swagger_validator"));
    NoReservedOne("onError", Str("json_error_handler"));
    assert NoReserved(Arr(PipeItems()));
    hide RouterDefinition, PipeItems;
  }

  lemma NoReservedIn()
    ensures NoReserved(Defaults())
  {
    NoReservedInBagpipes();
    hide Bagpipes;
    assert NoReserved(Arr([Str("api/fittings")]));
    NoReservedOne("swagger", Obj(Settings()));
  }

  lemma RouterIsName()
    ensures IsName("_router")
  {
  }

  lemma OverrideIsAccepted()
    ensures RouterAccepted(Bagpipes(), One("_router", One("mockMode", Bool(false))))
  {
    hide Bagpipes, RouterDefinition, Get, IsName, Directories;
    var over := One("mockMode", Bool(false));
    GetOne("mockMode", Bool(false));
    DefinedFittings();
    RouterFields();
    RouterIsName();
    DefinedIsObject();
    assert forall key :: Has(over, key) <==> key == "mockMode";
    assert !Has(over, "controllersDirs") && !Has(over, "mockControllersDirs") && !Has(over, "controllersInterface");
  }

  lemma DefinedIsObject()
    ensures Bagpipes().Obj?
  {
  }

  lemma LayerIsAccepted()
    ensures LayerAccepted(Some(Bagpipes()), Layer())
    ensures Said(Some(Layer()), "mockMode") == Some(Bool(false))
    ensures Said(Some(Layer()), "bagpipes") == Some(One("_router", One("mockMode", Bool(false))))
  {
    var override := Obj([Field("mockMode", Bool(false)), Field("bagpipes", One("_router", One("mockMode", Bool(false))))]);
    GetOne("swagger", override);
    GetAt(override.fields, 0);
    GetAt(override.fields, 1);
    OverrideIsAccepted();
    hide RouterAccepted, Bagpipes;
    assert forall key :: Has(override, key) ==> key == "mockMode" || key == "bagpipes";
    hide Get;
  }

  lemma PlainPasses(bagpipes: Json, k: nat, name: string)
    requires k < |PipeItems()| && PipeItems()[k] == Str(name) && !Has(bagpipes, name)
    requires name == "cors" || name == "swagger_params_parser" || name == "swagger_security" || name == "express_compatibility"
    ensures PassesOn(bagpipes, "swagger_controllers", PipeItems(), k)
  {
    ItemsExactly(bagpipes, "swagger_controllers", PipeItems(), k);
    hide PassesOn, RoutesAt, Get, PipeItems;
  }

  lemma DefinedPasses(bagpipes: Json)
    requires Get(bagpipes, "_validate") == Some(One("name", Str("swagger_validator")))
    ensures PassesOn(bagpipes, "swagger_controllers", PipeItems(), 0)
    ensures PassesOn(bagpipes, "swagger_controllers", PipeItems(), 4)
  {
    GetOne("onError", Str("json_error_handler"));
    GetOne("name", Str("swagger_validator"));
    assert PipeItems()[0] == One("onError", Str("json_error_handler")) && PipeItems()[4] == Str("_validate");
    ItemsExactly(bagpipes, "swagger_controllers", PipeItems(), 0);
    ItemsExactly(bagpipes, "swagger_controllers", PipeItems(), 4);
    hide PassesOn, RoutesAt, Get, PipeItems;
  }

  lemma RouterEnds(bagpipes: Json)
    requires Get(bagpipes, "_router").Some? && Get(Get(bagpipes, "_router").value, "name") == Some(Str("swagger_router"))
    ensures RoutesAt(bagpipes, "swagger_controllers", PipeItems(), 6)
    ensures FittingOf(bagpipes, "swagger_controllers", 6, PipeItems()[6]) ==
      Found(Router(Get(bagpipes, "_router").value, "_router", "_router", []))
  {
    assert PipeItems()[6] == Str("_router");
    ItemsExactly(bagpipes, "swagger_controllers", PipeItems(), 6);
    hide PassesOn, RoutesAt, Get, PipeItems;
  }

  lemma PipeEndsInRouter(bagpipes: Json)
    requires Get(bagpipes, "_router").Some? && Get(Get(bagpipes, "_router").value, "name") == Some(Str("swagger_router"))
    requires Get(bagpipes, "_validate") == Some(One("name", Str("swagger_validator")))
    requires !Has(bagpipes, "cors") && !Has(bagpipes, "swagger_params_parser") && !Has(bagpipes, "swagger_security")
    requires !Has(bagpipes, "express_compatibility")
    ensures EndsInRouter(bagpipes, "swagger_controllers", PipeItems())
  {
    hide PassesOn, RoutesAt, Get;
    DefinedPasses(bagpipes);
    PlainPasses(bagpipes, 1, "cors");
    PlainPasses(bagpipes, 2, "swagger_params_parser");
    PlainPasses(bagpipes, 3, "swagger_security");
    PlainPasses(bagpipes, 5, "express_compatibility");
    RouterEnds(bagpipes);
    assert |PipeItems()| == 7;
  }

  lemma UsedRouterIsFine(router: Json, used: Json)
    requires router == RouterDefinition() && used.Obj?
    requires forall key :: Get(used, key) == if key == "mockMode" then Some(Bool(false)) else Get(router, key)
    ensures RouterFine(used) && Get(used, "controllersDirs") == Some(Arr([Str("api/controllers")]))
    ensures Get(used, "name") == Some(Str("swagger_router"))
  {
    hide RouterFine, Directories, Get, RouterDefinition;
    RouterFields();
    DirectoriesOfDefaults();
    RouterFineExactly(used);
    assert "mockMode" != "controllersInterface" && "mockMode" != "controllersDirs" && "mockMode" != "mockControllersDirs";
    assert Get(used, "mockControllersDirs") == Some(Arr([Str("api/mocks")]));
    assert !Has(used, "controllersInterface");
    assert forall key :: Has(used, key) ==> key == "mockMode" || Has(router, key);
  }

  lemma LayerIsParsed()
    ensures Parsed(Layer())
  {
    assert Parsed(One("mockMode", Bool(false)));
    assert Parsed(One("_router", One("mockMode", Bool(false))));
  }

  lemma DefaultsAreAccepted()
    ensures DefaultsAccepted(Some(Defaults()))
  {
    NoReservedIn();
    NoReservedExactly(Defaults());
    GetOne("swagger", Defaults().fields[0].value);
    hide NoReserved, Get, PartOf, Clean;
  }

  lemma SettingsAreFine()
    ensures SettingsFine(Some(Defaults()), Some(Layer()), None, false)
    ensures !SettingsFine(Some(Defaults()), None, None, false)
  {
    hide Directories, Said, KnownSetting, Defaults, Layer, Bagpipes;
    SettingsOfDefaults();
    LayerIsAccepted();
    DirectoriesOfDefaults();
    assert Said(None, "mockMode") == None by { NothingSaid("mockMode"); }
    assert MockMode(Some(Defaults()), None, None) == Some(Bool(true));
    assert MockMode(Some(Defaults()), Some(Layer()), None) == Some(Bool(false));
  }

  lemma NothingSaid(key: string)
    ensures Said(None, key) == None
  {
  }

  /** The pipelines used differ from the default ones in the router's mock mode only. */
  lemma OverlaidFacts(used: Option<Json>)
    requires Overlaid(Some(Bagpipes()), One("_router", One("mockMode", Bool(false))), used)
    ensures used.Some? && used.value.Obj? && Has(used.value, "_router")
    ensures forall name :: name != "_router" ==> Get(used.value, name) == Get(Bagpipes(), name)
    ensures forall key :: key != "mockMode" ==> Get(Get(used.value, "_router").value, key) == Get(RouterDefinition(), key)
    ensures Get(Get(used.value, "_router").value, "mockMode") == Some(Bool(false))
  {
    hide Bagpipes, RouterDefinition, Get;
    GetOne("mockMode", Bool(false));
    DefinedFittings();
  }

  lemma OverlaidRoutes(merged: Json)
    requires Get(merged, "swaggerControllerPipe") == Some(Str("swagger_controllers"))
    requires Overlaid(Some(Bagpipes()), One("_router", One("mockMode", Bool(false))), Get(merged, "bagpipes"))
    ensures !NoPipelines(merged)
    ensures RouterOf(merged).Some? && RouterOf(merged).value.0 == "swagger_controllers"
    ensures RouterOf(merged).value.1.name == "_router"
    ensures Get(RouterOf(merged).value.1.value, "controllersDirs") == Some(Arr([Str("api/controllers")]))
  {
    hide Bagpipes, RouterDefinition, Get, EndsInRouter, RouterFine, FittingOf, Overlaid, IsName, One, PipeItems;
    OverlaidFacts(Get(merged, "bagpipes"));
    var used := Get(merged, "bagpipes").value;
    RouterFields();
    DefinedFittings();
    PipeIsNamed();
    PipeEndsInRouter(used);
    RouterEnds(used);
    assert Get(used, "_router").value.Obj? by { HasNameIsObject(Get(used, "_router").value); }
    UsedRouterIsFine(RouterDefinition(), Get(used, "_router").value);
    assert PipeOf(merged) == Some(("swagger_controllers", PipeItems()));
  }

  lemma HasNameIsObject(j: Json)
    ensures Get(j, "name").Some? ==> j.Obj?
  {
  }

  lemma PipeIsNamed()
    ensures IsName("swagger_controllers") && !Reserved("swagger_controllers") && |PipeItems()| == 7
    ensures BagpipesKey() == "bagpipes" && PipeKey() == "swaggerControllerPipe" && "bagpipes" != "swaggerControllerPipe"
    ensures "swagger_controllers" != "_router" && "_validate" != "_router" && "cors" != "_router"
    ensures "swagger_params_parser" != "_router" && "swagger_security" != "_router" && "express_compatibility" != "_router"
  {
  }

  lemma OrdinaryIsConfigured()
    ensures Configure(Some(Defaults()), Some(Layer()), None).Some?
    ensures var merged := Configure(Some(Defaults()), Some(Layer()), None).value.merged;
      && !NoPipelines(merged)
      && RouterOf(merged).Some? && RouterOf(merged).value.0 == "swagger_controllers"
      && RouterOf(merged).value.1.name == "_router"
      && Get(RouterOf(merged).value.1.value, "controllersDirs") == Some(Arr([Str("api/controllers")]))
  {
    hide *;
    DefaultsAreAccepted();
    SettingsOfDefaults();
    LayerIsAccepted();
    LayerIsParsed();
    ConfigureExactly(Some(Defaults()), Some(Layer()), None);
    ConfiguredValues(Some(Defaults()), Some(Layer()), None);
    OverlaidRoutes(Configure(Some(Defaults()), Some(Layer()), None).value.merged);
  }

  lemma ListedOne(directories: seq<string>)
    requires Listed(directories) == [Str("api/controllers")]
    ensures directories == ["api/controllers"]
  {
    assert Listed(directories)[0] == Str(directories[0]);
  }

  /**
   * The defaults route through `_router`, by the pipe `swagger_controllers`, with every known kind of item before it; the
   * layer turns the mock mode off. The configuration has its controllers in `api/controllers`; without the layer it is
   * refused, because the mock mode is on.
   */
  method ResolveOrdinary() returns (layered: Resolution, bare: Resolution)
    ensures layered.Configured? && layered.directories == ["api/controllers"]
    ensures layered.pipeline == "swagger_controllers" && layered.router == "_router"
    ensures bare.Unresolved?
  {
    hide *;
    OrdinaryIsConfigured();
    SettingsAreFine();
    LayerIsParsed();
    layered := ResolveConfiguration(Some(Defaults()), Some(Layer()), None, false);
    bare := ResolveConfiguration(Some(Defaults()), None, None, false);
    ListedOne(layered.directories);
  }
}
