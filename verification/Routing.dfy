// Server::create_factory_map and RequestHandlerDelegate::longest_prefix_matching: from the
// extracted map to the factory that serves a target.
module Routing {
  import opened Wrappers
  import opened ConfigSyntax
  import opened RouteMap
  import opened Extraction

  datatype Factory =
    | Echo | Sleep | Health | Palette | Color | NotFound | BadRequest
    | Static(location: string, root: string)
    | Api(location: string, dataPath: string)

  type Routes = map<string, Factory>

  // std::map::insert: a key already present is kept.
  function InsertRoute(routes: Routes, key: string, f: Factory): Routes {
    if key in routes then routes else routes[key := f]
  }

  const BUILT_IN: Routes := map[
    "/echo" := Echo, "/sleep" := Sleep, "/health" := Health, "/palette" := Palette,
    "/color" := Color, "/" := NotFound, "bad request" := BadRequest
  ]

  function HandlerMap(m: FilesystemMap, handler: string): map<string, string> {
    if handler in m then m[handler] else map[]
  }

  // Which factory a key leads to, by precedence rather than by order of insertion.
  function RouteOf(m: FilesystemMap, key: string): Option<Factory> {
    if key in BUILT_IN then Some(BUILT_IN[key])
    else if Lookup(m, "StaticHandler", key).Some? then Some(Static(key, Lookup(m, "StaticHandler", key).value))
    else if Lookup(m, "ApiHandler", key).Some? then Some(Api(key, Lookup(m, "ApiHandler", key).value))
    else None
  }

  ghost predicate Registers(routes: Routes, m: FilesystemMap) {
    && (forall key :: key in routes <==> RouteOf(m, key).Some?)
    && (forall key :: key in routes ==> routes[key] == RouteOf(m, key).value)
  }

  class Server {
    var routes: Routes

    constructor (filesystemMap: FilesystemMap)
      ensures Registers(routes, filesystemMap)
    {
      routes := map[];
      new;
      CreateFactoryMap(filesystemMap);
    }

    // Built-ins first, then the static locations, then the API locations.
    method CreateFactoryMap(filesystemMap: FilesystemMap)
      requires routes == map[]
      modifies this
      ensures Registers(routes, filesystemMap)
    {
      InsertBuiltIns();
      var staticMap, apiMap := HandlerMap(filesystemMap, "StaticHandler"), HandlerMap(filesystemMap, "ApiHandler");
      InsertLocations(staticMap, (location, root) => Static(location, root));
      InsertLocations(apiMap, (location, dataPath) => Api(location, dataPath));
    }

    method InsertBuiltIns()
      requires routes == map[]
      modifies this
      ensures routes == BUILT_IN
    {
      assert |"/echo"| == 5 && |"/sleep"| == 6 && |"/health"| == 7 && |"/palette"| == 8 && |"/color"| == 6;
      assert "/sleep"[1] != "/color"[1] && |"/"| == 1 && |"bad request"| == 11;
      routes := InsertRoute(routes, "/echo", Echo);
      routes := InsertRoute(routes, "/sleep", Sleep);
      routes := InsertRoute(routes, "/health", Health);
      assert routes == map["/echo" := Echo, "/sleep" := Sleep, "/health" := Health];
      routes := InsertRoute(routes, "/palette", Palette);
      routes := InsertRoute(routes, "/color", Color);
      assert routes == map["/echo" := Echo, "/sleep" := Sleep, "/health" := Health, "/palette" := Palette,
                           "/color" := Color];
      routes := InsertRoute(routes, "/", NotFound);
      routes := InsertRoute(routes, "bad request", BadRequest);
    }

    // Walks the locations in some order; a key already registered keeps its factory.
    method InsertLocations(locations: map<string, string>, make: (string, string) -> Factory)
      modifies this
      ensures routes.Keys == old(routes).Keys + locations.Keys
      ensures forall key :: key in routes ==>
                routes[key] == if key in old(routes) then old(routes)[key] else make(key, locations[key])
    {
      var todo := locations.Keys;
      while todo != {}
        invariant todo <= locations.Keys
        invariant routes.Keys == old(routes).Keys + (locations.Keys - todo)
        invariant forall key :: key in routes ==>
                    routes[key] == if key in old(routes) then old(routes)[key] else make(key, locations[key])
        decreases todo
      {
        var location :| location in todo;
        routes := InsertRoute(routes, location, make(location, locations[location]));
        todo := todo - {location};
      }
    }
  }

  // ---- Longest prefix ----

  // The key matches when it equals the target cut to the key's length.
  predicate PrefixOf(key: string, target: string) {
    key == target[..if |key| <= |target| then |key| else |target|]
  }

  lemma PrefixOfIsPrefix(key: string, target: string)
    ensures PrefixOf(key, target) <==> key <= target
  {
  }

  ghost predicate LongestMatch(keys: set<string>, target: string, key: string) {
    && key in keys && key <= target && key != ""
    && forall other :: other in keys && other <= target ==> |other| <= |key|
  }

  // The answer for a target: the longest registered prefix, or "/" when nothing matches.
  ghost predicate Chosen(keys: set<string>, target: string, key: string) {
    || LongestMatch(keys, target, key)
    || (key == "/" && forall other :: other in keys && other <= target ==> other == "")
  }

  // The loop visits the keys in some order; the answer is the same for every order.
  method LongestPrefixMatching(routes: Routes, uri: string) returns (matched: string)
    ensures Chosen(routes.Keys, uri, matched)
    ensures forall key :: Chosen(routes.Keys, uri, key) ==> key == matched
  {
    matched := "/";
    var maxMatchSize := 0;
    var todo := routes.Keys;
    ghost var seen: set<string> := {};
    while todo != {}
      invariant seen + todo == routes.Keys
      invariant if maxMatchSize == 0
                then matched == "/" && forall k :: k in seen && k <= uri ==> k == ""
                else |matched| == maxMatchSize && LongestMatch(seen, uri, matched)
      decreases todo
    {
      var root :| root in todo;
      PrefixOfIsPrefix(root, uri);
      if PrefixOf(root, uri) {
        if maxMatchSize < |root| {
          matched, maxMatchSize := root, |root|;
        }
      }
      seen, todo := seen + {root}, todo - {root};
    }
    assert seen == routes.Keys;
    forall key | Chosen(routes.Keys, uri, key) ensures key == matched {
      ChosenIsUnique(routes.Keys, uri, key, matched);
    }
  }

  lemma ChosenIsUnique(keys: set<string>, target: string, a: string, b: string)
    requires Chosen(keys, target, a) && Chosen(keys, target, b)
    ensures a == b
  {
    if LongestMatch(keys, target, a) && LongestMatch(keys, target, b) {
      assert a == target[..|a|] && b == target[..|b|];
    }
  }

  // processRequest, up to the factory: a request that cannot be parsed has no target.
  method FactoryFor(server: Server, target: Option<string>, ghost m: FilesystemMap) returns (key: string, f: Factory)
    requires Registers(server.routes, m)
    ensures target.None? ==> key == "bad request"
    ensures target.Some? ==> Chosen(server.routes.Keys, target.value, key)
    ensures RouteOf(m, key) == Some(f)
  {
    if target.None? {
      key := "bad request";
    } else {
      key := LongestPrefixMatching(server.routes, target.value);
    }
    assert RouteOf(m, key).Some?;
    f := server.routes[key];
  }

  // ---- End to end ----

  // The locations a configuration registers for a handler type, normalised.
  ghost predicate Configures(c: Config, handler: string, key: string) {
    exists i: nat :: FirstAt(Entries(c), handler, key, i)
  }

  ghost predicate IsKey(c: Config, key: string) {
    key in BUILT_IN || Configures(c, "StaticHandler", key) || Configures(c, "ApiHandler", key)
  }

  // The factory a configuration gives a key: a built-in, else the first line of the static
  // location, else the first line of the API location.
  ghost predicate Serves(c: Config, key: string, f: Factory) {
    if key in BUILT_IN then f == BUILT_IN[key]
    else if Configures(c, "StaticHandler", key) then
      exists i: nat :: FirstAt(Entries(c), "StaticHandler", key, i) && f == Static(key, Entries(c)[i].root)
    else
      exists i: nat :: FirstAt(Entries(c), "ApiHandler", key, i) && f == Api(key, Entries(c)[i].root)
  }

  lemma ConfiguresIff(c: Config, handler: string, key: string)
    ensures var r := Lookup(InsertAll(map[], Entries(c)), handler, key);
            (r.Some? <==> Configures(c, handler, key))
            && forall i: nat :: FirstAt(Entries(c), handler, key, i) ==> r == Some(Entries(c)[i].root)
  {
    FirstWins(map[], Entries(c), handler, key);
    if !NoMatch(Entries(c), handler, key) {
      var i := FirstMatch(Entries(c), handler, key);
    }
  }

  lemma RouteOfConfig(c: Config, key: string, f: Factory)
    ensures RouteOf(InsertAll(map[], Entries(c)), key) == Some(f) <==> IsKey(c, key) && Serves(c, key, f)
  {
    ConfiguresIff(c, "StaticHandler", key);
    ConfiguresIff(c, "ApiHandler", key);
  }

  // The same, read off the tree by position.
  ghost predicate PlacedAt(c: Config, handler: string, key: string) {
    exists i: nat, j: nat :: LocatesAt(c, i, j, handler, key)
  }

  ghost predicate ServedFrom(c: Config, key: string, f: Factory) {
    if key in BUILT_IN then f == BUILT_IN[key]
    else if PlacedAt(c, "StaticHandler", key) then
      exists root :: RootIs(c, "StaticHandler", key, Some(root)) && f == Static(key, root)
    else
      exists root :: RootIs(c, "ApiHandler", key, Some(root)) && f == Api(key, root)
  }

  lemma PlacedIff(c: Config, handler: string, key: string)
    requires Extractable(c)
    ensures PlacedAt(c, handler, key) <==> Configures(c, handler, key)
    ensures forall root :: RootIs(c, handler, key, Some(root))
              <==> Lookup(InsertAll(map[], Entries(c)), handler, key) == Some(root)
  {
    ConfiguresIff(c, handler, key);
    ExtractedIff(map[], c, handler, key, None);
    forall root ensures RootIs(c, handler, key, Some(root))
                   <==> Lookup(InsertAll(map[], Entries(c)), handler, key) == Some(root)
    {
      ExtractedIff(map[], c, handler, key, Some(root));
    }
  }

  lemma ServedFromIff(c: Config, key: string, f: Factory)
    requires Extractable(c) && IsKey(c, key)
    ensures ServedFrom(c, key, f) <==> Serves(c, key, f)
  {
    PlacedIff(c, "StaticHandler", key);
    PlacedIff(c, "ApiHandler", key);
    ConfiguresIff(c, "StaticHandler", key);
    ConfiguresIff(c, "ApiHandler", key);
  }

  // From the tree to the factory: for every configuration and every target the key is the longest
  // registered prefix, "/" if there is none, and the factory is the one the configuration gives it.
  method Route(c: Config, target: string) returns (key: string, f: Factory)
    ensures IsKey(c, key) && Serves(c, key, f)
    ensures Extractable(c) ==> ServedFrom(c, key, f)
    ensures key <= target || key == "/"
    ensures forall other :: IsKey(c, other) && other <= target ==> |other| <= |key|
  {
    var m := InsertAll(map[], Entries(c));
    var server := new Server(m);
    key, f := FactoryFor(server, Some(target), m);
    RouteOfConfig(c, key, f);
    if Extractable(c) { ServedFromIff(c, key, f); }
    forall other | IsKey(c, other) && other <= target ensures |other| <= |key| {
      ConfiguresIff(c, "StaticHandler", other);
      ConfiguresIff(c, "ApiHandler", other);
      assert RouteOf(m, other).Some?;
    }
  }
}
