/** Discovery, collection and assembly together: from the route calls written in the analysed files
    to the operations of the document. */
module Generator {
  import opened Lists
  import opened RouteDiscovery
  import opened Coverage
  import opened Assembly
  import Paths

  // Where a call expression stands, and its literal path.
  datatype Place = Place(line: nat, literal: Option<string>)

  datatype Root =
    | CreateRoute(calls: seq<CallNode>, router: string, mounts: seq<string>)  // an exported route factory
    | RegisterRoutes(name: string)                                            // an exported helper on its own

  // One root with the helpers of its file.
  datatype Scope = Scope(file: string, helpers: Helpers, places: map<nat, Place>, root: Root)

  predicate ValidScope(s: Scope) {
    s.root.RegisterRoutes? ==> s.root.name in s.helpers
  }

  function RootCalls(s: Scope): seq<CallNode>
    requires ValidScope(s)
  {
    if s.root.CreateRoute? then s.root.calls else s.helpers[s.root.name].calls
  }

  function RootRouter(s: Scope): string
    requires ValidScope(s)
  {
    if s.root.CreateRoute? then s.root.router else s.helpers[s.root.name].param
  }

  function SiteOf(places: map<nat, Place>, call: RouteCall): CallSite {
    if call.position in places then
      CallSite(places[call.position].line, call.httpMethod, places[call.position].literal)
    else CallSite(0, call.httpMethod, None)
  }

  function SitesOfCalls(places: map<nat, Place>, found: seq<RouteCall>): (r: seq<CallSite>)
    ensures |r| == |found| && forall i :: 0 <= i < |found| ==> r[i] == SiteOf(places, found[i])
  {
    seq(|found|, i requires 0 <= i < |found| => SiteOf(places, found[i]))
  }

  function UnitOf(s: Scope): Unit
    requires ValidScope(s)
  {
    var sites := SitesOfCalls(s.places, Collect(RootCalls(s), RootRouter(s), s.helpers, {}).found);
    match s.root
    case CreateRoute(_, _, mounts) => Factory(s.file, sites, mounts)
    case RegisterRoutes(_) => Register(s.file, sites)
  }

  predicate ValidScopes(scopes: seq<Scope>) {
    forall i :: 0 <= i < |scopes| ==> ValidScope(scopes[i])
  }

  function UnitsOf(scopes: seq<Scope>): (units: seq<Unit>)
    requires ValidScopes(scopes)
    ensures |units| == |scopes| && forall i :: 0 <= i < |scopes| ==> units[i] == UnitOf(scopes[i])
  {
    seq(|scopes|, i requires 0 <= i < |scopes| => UnitOf(scopes[i]))
  }

  // The call is written on the router in the root, or in a helper that the router reaches from it.
  ghost predicate Defines(s: Scope, call: RouteCall)
    requires ValidScope(s)
  {
    match s.root
    case CreateRoute(calls, router, _) => WrittenBelow(calls, router, s.helpers, call)
    case RegisterRoutes(name) => WrittenBelow(s.helpers[name].calls, s.helpers[name].param, s.helpers, call)
  }

  ghost predicate WrittenBelow(calls: seq<CallNode>, router: string, helpers: Helpers, call: RouteCall) {
    Writes(calls, router, call) || exists h :: WrittenIn(calls, router, helpers, h, call)
  }

  ghost predicate WrittenIn(calls: seq<CallNode>, router: string, helpers: Helpers, h: string, call: RouteCall) {
    && h in helpers && Reachable(calls, router, helpers, {}, h)
    && Writes(helpers[h].calls, helpers[h].param, call)
  }

  lemma {:induction false} RoutesOfHas(names: seq<string>, helpers: Helpers, call: RouteCall)
    requires forall i :: 0 <= i < |names| ==> names[i] in helpers
    ensures call in RoutesOf(names, helpers) <==>
              exists h :: h in names && Writes(helpers[h].calls, helpers[h].param, call)
  {
    if names != [] {
      RoutesOfHas(names[1..], helpers, call);
      OwnRoutesExactly(helpers[names[0]].calls, helpers[names[0]].param, call);
      assert names == [names[0]] + names[1..];
    }
  }

  // Discovery finds exactly the calls that the root defines.
  lemma {:induction false} FoundIsDefined(s: Scope, call: RouteCall)
    requires ValidScope(s)
    ensures call in Collect(RootCalls(s), RootRouter(s), s.helpers, {}).found <==> Defines(s, call)
  {
    var calls, router := RootCalls(s), RootRouter(s);
    var found := Collect(calls, router, s.helpers, {}).found;
    var names := DiscoveryIsReachability(calls, router, s.helpers);
    RoutesOfHas(names, s.helpers, call);
    OwnRoutesExactly(calls, router, call);
    assert call in found <==> call in multiset(found);
    forall h | h in names && Writes(s.helpers[h].calls, s.helpers[h].param, call)
      ensures WrittenIn(calls, router, s.helpers, h, call) {
    }
    forall h | WrittenIn(calls, router, s.helpers, h, call) ensures h in names {
    }
  }

  // What mounts the root: a factory its mounts, a register function nothing.
  predicate MountedAt(s: Scope, prefix: string) {
    match s.root
    case CreateRoute(_, _, mounts) => prefix in mounts
    case RegisterRoutes(_) => prefix == ""
  }

  // The call stands in the text with a literal path that is not a bare catch-all.
  predicate HasPath(s: Scope, call: RouteCall, path: string) {
    && call.position in s.places && s.places[call.position].literal == Some(path)
    && path !in {"*", "/*", ":wildcard", "/:wildcard"}
  }

  // The route documented for a call of that path.
  predicate RouteOf(s: Scope, call: RouteCall, prefix: string, path: string, r: Route) {
    HasPath(s, call, path)
    && RouteFor(CallSite(s.places[call.position].line, call.httpMethod, Some(path)), prefix, s.file, r)
  }

  ghost predicate EmittedFor(s: Scope, call: RouteCall, prefix: string, path: string, r: Route)
    requires ValidScope(s)
  {
    Defines(s, call) && MountedAt(s, prefix) && RouteOf(s, call, prefix, path, r)
  }

  lemma ParsedIsRouteOf(s: Scope, call: RouteCall, prefix: string, r: Route)
    ensures ParseRouteCall(SiteOf(s.places, call), prefix, s.file) == Some(r)
            <==> exists path :: RouteOf(s, call, prefix, path, r)
  {
    var site := SiteOf(s.places, call);
    ParsedExactly(site, prefix, s.file, r);
    if ParseRouteCall(site, prefix, s.file) == Some(r) {
      assert RouteOf(s, call, prefix, site.literal.value, r);
    }
  }

  lemma {:induction false} UnitEmits(s: Scope, r: Route)
    requires ValidScope(s)
    ensures r in RoutesOfUnit(UnitOf(s)) <==> exists call, p, path :: EmittedFor(s, call, p, path, r)
  {
    var found := Collect(RootCalls(s), RootRouter(s), s.helpers, {}).found;
    var u := UnitOf(s);
    EmittedByUnit(u, r);
    if r in RoutesOfUnit(u) {
      var p, c :| EmittedBy(u, p, c, r);
      var i :| 0 <= i < |u.calls| && u.calls[i] == c;
      FoundIsDefined(s, found[i]);
      ParsedExactly(c, p, s.file, r);
      ParsedIsRouteOf(s, found[i], p, r);
      var path :| RouteOf(s, found[i], p, path, r);
      assert EmittedFor(s, found[i], p, path, r);
    }
    forall call, p, path | EmittedFor(s, call, p, path, r) ensures r in RoutesOfUnit(u) {
      FoundIsDefined(s, call);
      ParsedIsRouteOf(s, call, p, r);
      var i :| 0 <= i < |found| && found[i] == call;
      ParsedExactly(u.calls[i], p, s.file, r);
      assert EmittedBy(u, p, u.calls[i], r);
    }
  }

  /** A route is collected exactly when some root, or a helper that its router reaches, defines it with a
      literal path under one of the mounts of that root. */
  lemma {:induction false} CollectedEndToEnd(scopes: seq<Scope>, r: Route)
    requires ValidScopes(scopes)
    ensures r in RoutesOfUnits(UnitsOf(scopes)) <==>
              exists k, call, p, path :: 0 <= k < |scopes| && EmittedFor(scopes[k], call, p, path, r)
  {
    var units := UnitsOf(scopes);
    RoutesOfUnitsFrom(units, r);
    if r in RoutesOfUnits(units) {
      var u :| u in units && r in RoutesOfUnit(u);
      var k :| 0 <= k < |units| && units[k] == u;
      UnitEmits(scopes[k], r);
    }
    forall k, call, p, path | 0 <= k < |scopes| && EmittedFor(scopes[k], call, p, path, r)
      ensures r in RoutesOfUnits(units)
    {
      UnitEmits(scopes[k], r);
      assert units[k] in units;
    }
  }

  lemma CollectedIsDocumented(routes: seq<Route>, r: Route)
    requires r in routes
    ensures KeyOf(r) in EmittedKeys(routes) && HasOperation(Assembled(routes), r)
  {
    var i :| 0 <= i < |routes| && routes[i] == r;
    assert KeyOf(routes[i]) in EmittedKeys(routes);
    AssemblyConservesOperations(routes, r);
    assert SameOperation(routes[i], r);
  }

  /** So every route call with a readable path in a mounted root, or in a helper that its router
      reaches, is on an emitted line, and the document has an operation of its method. The path of that
      operation, read back, is the mount followed by the path of the call itself. */
  lemma DefinedIsDocumented(inlineRoutes: seq<Route>, scopes: seq<Scope>, k: nat, call: RouteCall, prefix: string,
                            path: string)
    returns (r: Route)
    requires ValidScopes(scopes) && k < |scopes| && Defines(scopes[k], call) && MountedAt(scopes[k], prefix)
    requires HasPath(scopes[k], call, path)
    ensures RouteOf(scopes[k], call, prefix, path, r)
    ensures var routes := inlineRoutes + RoutesOfUnits(UnitsOf(scopes));
            r in routes && KeyOf(r) in EmittedKeys(routes) && HasOperation(Assembled(routes), r)
    ensures Paths.BraceFree(prefix) && Paths.BraceFree(path) ==>
              Paths.Segments(Paths.Restored(r.path)) == Paths.Segments(prefix) + EachWildcard(Paths.Segments(path))
    ensures Paths.BraceFree(prefix) && Paths.BraceFree(path) && '*' !in path ==>
              Paths.Segments(Paths.Restored(r.path)) == Paths.Segments(prefix) + Paths.Segments(path)
  {
    var s := scopes[k];
    var site := SiteOf(s.places, call);
    SkippedExactly(site, prefix, s.file);
    r := ParseRouteCall(site, prefix, s.file).value;
    ParsedIsRouteOf(s, call, prefix, r);
    assert EmittedFor(s, call, prefix, path, r);
    CollectedEndToEnd(scopes, r);
    CollectedIsDocumented(inlineRoutes + RoutesOfUnits(UnitsOf(scopes)), r);
    if Paths.BraceFree(prefix) && Paths.BraceFree(path) {
      PathIsMountThenCall(site, prefix, s.file, r);
    }
  }
}
