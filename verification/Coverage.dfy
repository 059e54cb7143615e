/** The run of the generator: collecting routes from every factory and register function, deciding
    which unmounted factories matter, and auditing every route-definition site in the tree. */
module Coverage {
  import opened Lists
  import Paths
  import opened Assembly

  // A route-definition call, and what collects it: a factory under its mounts, or a register
  // function whose paths are absolute.
  datatype CallSite = CallSite(line: nat, httpMethod: string, literal: Option<string>)

  datatype Unit =
    | Factory(file: string, calls: seq<CallSite>, mounts: seq<string>)
    | Register(file: string, calls: seq<CallSite>)

  datatype Key = Key(file: string, line: nat)

  function KeyOf(r: Route): Key {
    Key(r.file, r.line)
  }

  // ----- one route call -----

  function Wildcards(s: string): string {
    if s == [] then [] else (if s[0] == '*' then ":wildcard" else [s[0]]) + Wildcards(s[1..])
  }

  // None for a computed path and for a bare catch-all.
  function ParseRouteCall(call: CallSite, prefix: string, file: string): Option<Route> {
    if call.literal.None? then None
    else
      var sub := Wildcards(call.literal.value);
      if sub == ":wildcard" || sub == "/:wildcard" then None
      else Some(Route(call.httpMethod, Paths.Converted(Paths.JoinPaths([prefix, sub])), file, call.line))
  }

  function Emit(calls: seq<CallSite>, prefix: string, file: string): seq<Route> {
    if calls == [] then []
    else
      var rest := Emit(calls[..|calls| - 1], prefix, file);
      var route := ParseRouteCall(calls[|calls| - 1], prefix, file);
      if route.Some? then rest + [route.value] else rest
  }

  function EmitAll(calls: seq<CallSite>, prefixes: seq<string>, file: string): seq<Route> {
    if prefixes == [] then []
    else EmitAll(calls, prefixes[..|prefixes| - 1], file) + Emit(calls, prefixes[|prefixes| - 1], file)
  }

  function Prefixes(u: Unit): seq<string> {
    if u.Factory? then u.mounts else [""]
  }

  function RoutesOfUnit(u: Unit): seq<Route> {
    EmitAll(u.calls, Prefixes(u), u.file)
  }

  function RoutesOfUnits(units: seq<Unit>): seq<Route> {
    if units == [] then [] else RoutesOfUnits(units[..|units| - 1]) + RoutesOfUnit(units[|units| - 1])
  }

  predicate NotMounted(u: Unit) {
    u.Factory? && u.mounts == []
  }

  function UnmountedUnits(units: seq<Unit>): seq<Unit> {
    if units == [] then []
    else
      UnmountedUnits(units[..|units| - 1]) + if NotMounted(units[|units| - 1]) then [units[|units| - 1]] else []
  }

  // ----- the collection loops -----

  method EmitRoutes(calls: seq<CallSite>, prefix: string, file: string) returns (routes: seq<Route>)
    ensures routes == Emit(calls, prefix, file)
  {
    routes := [];
    for i := 0 to |calls|
      invariant routes == Emit(calls[..i], prefix, file)
    {
      assert calls[..i + 1][..i] == calls[..i];
      var route := ParseRouteCall(calls[i], prefix, file);
      if route.Some? {
        routes := routes + [route.value];
      }
    }
    assert calls[..|calls|] == calls;
  }

  method EmitUnderMounts(u: Unit) returns (routes: seq<Route>)
    ensures routes == RoutesOfUnit(u)
  {
    var prefixes := Prefixes(u);
    routes := [];
    for i := 0 to |prefixes|
      invariant routes == EmitAll(u.calls, prefixes[..i], u.file)
    {
      assert prefixes[..i + 1][..i] == prefixes[..i];
      var more := EmitRoutes(u.calls, prefixes[i], u.file);
      routes := routes + more;
    }
    assert prefixes[..|prefixes|] == prefixes;
  }

  /** Every unit in turn; factories that nothing mounts are held back until all files are read. */
  method CollectRoutes(inlineRoutes: seq<Route>, units: seq<Unit>) returns (routes: seq<Route>, unmounted: seq<Unit>)
    ensures routes == inlineRoutes + RoutesOfUnits(units) && unmounted == UnmountedUnits(units)
  {
    routes, unmounted := inlineRoutes, [];
    for i := 0 to |units|
      invariant routes == inlineRoutes + RoutesOfUnits(units[..i]) && unmounted == UnmountedUnits(units[..i])
    {
      assert units[..i + 1][..i] == units[..i];
      if NotMounted(units[i]) {
        unmounted := unmounted + [units[i]];
        assert RoutesOfUnit(units[i]) == [];
      } else {
        var more := EmitUnderMounts(units[i]);
        routes := routes + more;
      }
    }
    assert units[..|units|] == units;
  }

  // ----- the two key sets -----

  function EmittedKeys(routes: seq<Route>): set<Key> {
    set i | 0 <= i < |routes| :: KeyOf(routes[i])
  }

  function CallKeys(u: Unit): set<Key> {
    set i | 0 <= i < |u.calls| :: Key(u.file, u.calls[i].line)
  }

  function UndocumentedKeys(unmounted: seq<Unit>, emitted: set<Key>): set<Key> {
    set i, k | 0 <= i < |unmounted| && k in CallKeys(unmounted[i]) && k !in emitted :: k
  }

  method FindUnmountedKeys(unmounted: seq<Unit>, emitted: set<Key>) returns (unmountedKeys: set<Key>)
    ensures unmountedKeys == UndocumentedKeys(unmounted, emitted)
  {
    unmountedKeys := {};
    for i := 0 to |unmounted|
      invariant unmountedKeys == UndocumentedKeys(unmounted[..i], emitted)
    {
      var undocumented := set k | k in CallKeys(unmounted[i]) && k !in emitted;
      UndocumentedOneMore(unmounted, emitted, i);
      if undocumented != {} {
        unmountedKeys := unmountedKeys + undocumented;
      }
    }
    assert unmounted[..|unmounted|] == unmounted;
  }

  lemma UndocumentedOneMore(unmounted: seq<Unit>, emitted: set<Key>, i: nat)
    requires i < |unmounted|
    ensures UndocumentedKeys(unmounted[..i + 1], emitted) ==
              UndocumentedKeys(unmounted[..i], emitted) + set k | k in CallKeys(unmounted[i]) && k !in emitted
  {
    var front, next := unmounted[..i], unmounted[..i + 1];
    forall k | k in UndocumentedKeys(next, emitted)
      ensures k in UndocumentedKeys(front, emitted) || k in CallKeys(unmounted[i]) {
      var j :| 0 <= j < |next| && k in CallKeys(next[j]) && k !in emitted;
      assert j < i ==> front[j] == next[j];
    }
    forall k | k in UndocumentedKeys(front, emitted) ensures k in UndocumentedKeys(next, emitted) {
      var j :| 0 <= j < |front| && k in CallKeys(front[j]) && k !in emitted;
      assert next[j] == front[j];
    }
    forall k | k in CallKeys(unmounted[i]) && k !in emitted ensures k in UndocumentedKeys(next, emitted) {
      assert next[i] == unmounted[i];
    }
  }

  /** The deferred decision: a key counts as unmounted exactly when some call of a factory that nothing
      mounts has it, and no emitted route does. */
  lemma UnmountedKeysExactly(units: seq<Unit>, routes: seq<Route>, k: Key)
    ensures k in UndocumentedKeys(UnmountedUnits(units), EmittedKeys(routes))
            <==> (forall r :: r in routes ==> r.file != k.file || r.line != k.line)
                 && exists u, c :: u in units && u.Factory? && u.mounts == [] && u.file == k.file
                      && c in u.calls && c.line == k.line
  {
    var unmounted, emitted := UnmountedUnits(units), EmittedKeys(routes);
    assert k in emitted <==> exists r :: r in routes && r.file == k.file && r.line == k.line by {
      forall r | r in routes && r.file == k.file && r.line == k.line ensures k in emitted {
        var i :| 0 <= i < |routes| && routes[i] == r;
        assert KeyOf(routes[i]) == k;
      }
    }
    if k in UndocumentedKeys(unmounted, emitted) {
      var i :| 0 <= i < |unmounted| && k in CallKeys(unmounted[i]);
      UnmountedUnitsFrom(units, unmounted[i]);
      var j :| 0 <= j < |unmounted[i].calls| && Key(unmounted[i].file, unmounted[i].calls[j].line) == k;
      assert unmounted[i].calls[j] in unmounted[i].calls;
    }
    forall u, c | u in units && u.Factory? && u.mounts == [] && u.file == k.file && c in u.calls && c.line == k.line
      ensures k !in emitted ==> k in UndocumentedKeys(unmounted, emitted)
    {
      UnmountedUnitsFrom(units, u);
      var i :| 0 <= i < |unmounted| && unmounted[i] == u;
      var j :| 0 <= j < |u.calls| && u.calls[j] == c;
      assert k in CallKeys(unmounted[i]);
    }
  }

  // ----- what is collected -----

  lemma {:induction false} PlainWildcards(s: string, t: string)
    requires forall i :: 0 <= i < |t| ==> t[i] != ':' && t[i] != '*'
    ensures Wildcards(s) == t <==> s == t
  {
    if s != [] && s[0] != '*' && t != [] {
      PlainWildcards(s[1..], t[1..]);
      assert s == [s[0]] + s[1..] && t == [t[0]] + t[1..];
      assert Wildcards(s)[1..] == Wildcards(s[1..]);
    }
  }

  lemma {:induction false} OnlyWildcard(s: string)
    ensures Wildcards(s) == ":wildcard" <==> s == "*" || s == ":wildcard"
  {
    if s != [] && s[0] == '*' {
      PlainWildcards(s[1..], []);
      assert |Wildcards(s)| == 9 + |Wildcards(s[1..])|;
      assert s == "*" <==> s[1..] == [];
    } else if s != [] {
      PlainWildcards(s[1..], "wildcard");
      assert Wildcards(s)[1..] == Wildcards(s[1..]) && ":wildcard"[1..] == "wildcard";
      assert s == [s[0]] + s[1..];
    }
  }

  lemma {:induction false} SlashedWildcard(s: string)
    ensures Wildcards(s) == "/:wildcard" <==> s == "/*" || s == "/:wildcard"
  {
    if s != [] && s[0] == '/' {
      OnlyWildcard(s[1..]);
      assert Wildcards(s)[1..] == Wildcards(s[1..]);
      assert s == "/" + s[1..];
      assert "/:wildcard"[1..] == ":wildcard" && "/*"[1..] == "*";
    } else if s != [] {
      assert Wildcards(s)[0] == if s[0] == '*' then ':' else s[0];
    }
  }

  /** A route call is left out exactly when its path is computed, is a bare catch-all, or is a lone
      parameter that happens to be called `wildcard`. */
  lemma SkippedExactly(call: CallSite, prefix: string, file: string)
    ensures ParseRouteCall(call, prefix, file).None? <==>
              call.literal.None? || call.literal.value in {"*", "/*", ":wildcard", "/:wildcard"}
  {
    if call.literal.Some? {
      OnlyWildcard(call.literal.value);
      SlashedWildcard(call.literal.value);
    }
  }

  // ----- the path of a collected route -----

  lemma {:induction false} WildcardsAppend(a: string, b: string)
    ensures Wildcards(a + b) == Wildcards(a) + Wildcards(b)
  {
    if a == [] {
      assert a + b == b;
    } else {
      assert (a + b)[1..] == a[1..] + b;
      WildcardsAppend(a[1..], b);
    }
  }

  /** Each star is read as `:wildcard`, and everything else as it stands. */
  lemma {:induction false} StarsReplaced(a: string, b: string)
    requires '*' !in a
    ensures Wildcards(a) == a
    ensures Wildcards(a + "*" + b) == a + ":wildcard" + Wildcards(b)
  {
    if a != [] {
      assert '*' !in a[1..];
      StarsReplaced(a[1..], b);
      assert a == [a[0]] + a[1..];
    }
    assert "*"[1..] == [];
    WildcardsAppend(a + "*", b);
    WildcardsAppend(a, "*");
  }

  function EachWildcard(segments: seq<string>): (r: seq<string>)
    ensures |r| == |segments| && forall i :: 0 <= i < |segments| ==> r[i] == Wildcards(segments[i])
  {
    seq(|segments|, i requires 0 <= i < |segments| => Wildcards(segments[i]))
  }

  lemma {:induction false} WildcardsKeepSlashes(s: string)
    requires '/' !in s
    ensures '/' !in Wildcards(s) && (Wildcards(s) == [] <==> s == [])
  {
    if s != [] {
      WildcardsKeepSlashes(s[1..]);
    }
  }

  lemma SlashIsThere(s: string)
    ensures Paths.UpTo(s, '/') < |s| ==> '/' in s
  {
  }

  lemma PlainSegment(s: string)
    requires '/' !in s
    ensures Paths.Segments(s) == if s == [] then [] else [s]
  {
    if s != [] {
      SlashIsThere(s);
      assert s[..|s|] == s && s[|s|..] == [];
    }
  }

  lemma SegmentRead(s: string)
    requires '/' !in s
    ensures Paths.Segments(Wildcards(s)) == EachWildcard(Paths.Segments(s))
  {
    WildcardsKeepSlashes(s);
    PlainSegment(s);
    PlainSegment(Wildcards(s));
  }

  lemma WildcardsAcross(a: string, b: string)
    ensures Wildcards(a + "/" + b) == Wildcards(a) + "/" + Wildcards(b)
  {
    WildcardsAppend(a + "/", b);
    WildcardsAppend(a, "/");
    assert "/"[1..] == [];
  }

  lemma {:induction false} WildcardSegments(s: string)
    ensures Paths.Segments(Wildcards(s)) == EachWildcard(Paths.Segments(s))
    decreases |s|
  {
    var n := Paths.UpTo(s, '/');
    if n == |s| {
      SegmentRead(s);
    } else {
      var a, b := s[..n], s[n + 1..];
      assert s == a + "/" + b;
      SegmentRead(a);
      WildcardSegments(b);
      WildcardsAcross(a, b);
      Paths.SegmentsAcross(a, b);
      Paths.SegmentsAcross(Wildcards(a), Wildcards(b));
    }
  }

  lemma {:induction false} WildcardsBraceFree(s: string)
    requires Paths.BraceFree(s)
    ensures Paths.BraceFree(Wildcards(s))
  {
    if s != [] {
      WildcardsBraceFree(s[1..]);
    }
  }

  lemma {:induction false} StarFreeSegments(s: string)
    requires '*' !in s
    ensures EachWildcard(Paths.Segments(s)) == Paths.Segments(s)
  {
    StarsReplaced(s, []);
    WildcardSegments(s);
  }

  lemma TwoParts(a: string, b: string)
    ensures Paths.SegmentsOfAll([a, b]) == Paths.Segments(a) + Paths.Segments(b)
  {
    assert [a, b][1..] == [b] && [b][1..] == [];
    assert Paths.SegmentsOfAll([b]) == Paths.Segments(b) + Paths.SegmentsOfAll([]);
  }

  /** The path of a collected route, read back, is the mount followed by the path of its own call, with
      each star read as a parameter `wildcard`. */
  lemma PathIsMountThenCall(call: CallSite, prefix: string, file: string, r: Route)
    requires ParseRouteCall(call, prefix, file) == Some(r)
    requires Paths.BraceFree(prefix) && Paths.BraceFree(call.literal.value)
    ensures Paths.Segments(Paths.Restored(r.path))
         == Paths.Segments(prefix) + EachWildcard(Paths.Segments(call.literal.value))
    ensures '*' !in call.literal.value ==>
              Paths.Segments(Paths.Restored(r.path)) == Paths.Segments(prefix) + Paths.Segments(call.literal.value)
  {
    var sub := Wildcards(call.literal.value);
    WildcardsBraceFree(call.literal.value);
    Paths.ConvertedSegments([prefix, sub]);
    TwoParts(prefix, sub);
    WildcardSegments(call.literal.value);
    if '*' !in call.literal.value {
      StarFreeSegments(call.literal.value);
    }
  }

  // What mounts the calls of a unit: a factory its mounts, a register function nothing.
  predicate IsMount(u: Unit, prefix: string) {
    if u.Factory? then prefix in u.mounts else prefix == ""
  }

  // The route of a call with a literal path that is not a bare catch-all.
  predicate RouteFor(call: CallSite, prefix: string, file: string, r: Route) {
    && call.literal.Some? && call.literal.value !in {"*", "/*", ":wildcard", "/:wildcard"}
    && r.httpMethod == call.httpMethod && r.file == file && r.line == call.line
    && r.path == Paths.Converted(Paths.JoinPaths([prefix, Wildcards(call.literal.value)]))
  }

  lemma ParsedExactly(call: CallSite, prefix: string, file: string, r: Route)
    ensures ParseRouteCall(call, prefix, file) == Some(r) <==> RouteFor(call, prefix, file, r)
  {
    SkippedExactly(call, prefix, file);
  }

  ghost predicate EmittedBy(u: Unit, prefix: string, call: CallSite, r: Route) {
    IsMount(u, prefix) && call in u.calls && RouteFor(call, prefix, u.file, r)
  }

  lemma {:induction false} EmitHas(calls: seq<CallSite>, prefix: string, file: string, r: Route)
    ensures r in Emit(calls, prefix, file) <==> exists c :: c in calls && ParseRouteCall(c, prefix, file) == Some(r)
  {
    if calls != [] {
      EmitHas(calls[..|calls| - 1], prefix, file, r);
      assert calls == calls[..|calls| - 1] + [calls[|calls| - 1]];
    }
  }

  lemma {:induction false} EmitAllHas(calls: seq<CallSite>, prefixes: seq<string>, file: string, r: Route)
    ensures r in EmitAll(calls, prefixes, file) <==> exists p :: p in prefixes && r in Emit(calls, p, file)
  {
    if prefixes != [] {
      var front, last := prefixes[..|prefixes| - 1], prefixes[|prefixes| - 1];
      EmitAllHas(calls, front, file, r);
      assert prefixes == front + [last] && last in prefixes;
      if exists p :: p in prefixes && r in Emit(calls, p, file) {
        var p :| p in prefixes && r in Emit(calls, p, file);
        assert p in front || p == last;
      }
    }
  }

  /** The collected routes are exactly those of every readable call of every unit under each of its
      mounts. */
  lemma CollectedExactly(units: seq<Unit>, r: Route)
    ensures r in RoutesOfUnits(units) <==> exists u, p, c :: u in units && EmittedBy(u, p, c, r)
  {
    RoutesOfUnitsFrom(units, r);
    forall u | u in units ensures r in RoutesOfUnit(u) <==> exists p, c :: EmittedBy(u, p, c, r) {
      EmittedByUnit(u, r);
    }
  }

  lemma EmittedByUnit(u: Unit, r: Route)
    ensures r in RoutesOfUnit(u) <==> exists p, c :: EmittedBy(u, p, c, r)
  {
    EmitAllHas(u.calls, Prefixes(u), u.file, r);
    if r in RoutesOfUnit(u) {
      var p :| p in Prefixes(u) && r in Emit(u.calls, p, u.file);
      EmitHas(u.calls, p, u.file, r);
      var c :| c in u.calls && ParseRouteCall(c, p, u.file) == Some(r);
      ParsedExactly(c, p, u.file, r);
      assert EmittedBy(u, p, c, r);
    }
    if exists p, c :: EmittedBy(u, p, c, r) {
      var p, c :| EmittedBy(u, p, c, r);
      ParsedExactly(c, p, u.file, r);
      EmitHas(u.calls, p, u.file, r);
    }
  }

  // ----- order independence -----

  lemma {:induction false} RoutesOfUnitsFrom(units: seq<Unit>, r: Route)
    ensures r in RoutesOfUnits(units) <==> exists u :: u in units && r in RoutesOfUnit(u)
  {
    if units != [] {
      var front, last := units[..|units| - 1], units[|units| - 1];
      RoutesOfUnitsFrom(front, r);
      assert units == front + [last];
    }
  }

  lemma {:induction false} UnmountedUnitsFrom(units: seq<Unit>, u: Unit)
    ensures u in UnmountedUnits(units) <==> u in units && NotMounted(u)
  {
    if units != [] {
      var front, last := units[..|units| - 1], units[|units| - 1];
      UnmountedUnitsFrom(front, u);
      assert units == front + [last];
    }
  }

  /** Reading the files and their factories in another order changes neither key set, and so no
      classification. */
  lemma {:induction false} AuditIgnoresOrder(inlineRoutes: seq<Route>, a: seq<Unit>, b: seq<Unit>)
    requires multiset(a) == multiset(b)
    ensures EmittedKeys(inlineRoutes + RoutesOfUnits(a)) == EmittedKeys(inlineRoutes + RoutesOfUnits(b))
    ensures var emitted := EmittedKeys(inlineRoutes + RoutesOfUnits(a));
            && UndocumentedKeys(UnmountedUnits(a), emitted) == UndocumentedKeys(UnmountedUnits(b), emitted)
            && UndocumentedKeys(UnmountedUnits(a), emitted) !! emitted
  {
    forall u ensures u in a <==> u in b {
      assert u in a <==> u in multiset(a);
      assert u in b <==> u in multiset(b);
    }
    forall r ensures r in RoutesOfUnits(a) <==> r in RoutesOfUnits(b) {
      RoutesOfUnitsFrom(a, r);
      RoutesOfUnitsFrom(b, r);
    }
    SameElementsSameKeys(inlineRoutes + RoutesOfUnits(a), inlineRoutes + RoutesOfUnits(b));
    SameElementsSameKeys(inlineRoutes + RoutesOfUnits(b), inlineRoutes + RoutesOfUnits(a));
    var emitted := EmittedKeys(inlineRoutes + RoutesOfUnits(a));
    forall u ensures u in UnmountedUnits(a) <==> u in UnmountedUnits(b) {
      UnmountedUnitsFrom(a, u);
      UnmountedUnitsFrom(b, u);
    }
    SameUnitsSameKeys(UnmountedUnits(a), UnmountedUnits(b), emitted);
    SameUnitsSameKeys(UnmountedUnits(b), UnmountedUnits(a), emitted);
  }

  lemma SameElementsSameKeys(a: seq<Route>, b: seq<Route>)
    requires forall r :: r in a ==> r in b
    ensures EmittedKeys(a) <= EmittedKeys(b)
  {
    forall k | k in EmittedKeys(a) ensures k in EmittedKeys(b) {
      var i :| 0 <= i < |a| && KeyOf(a[i]) == k;
      assert a[i] in b;
    }
  }

  lemma SameUnitsSameKeys(a: seq<Unit>, b: seq<Unit>, emitted: set<Key>)
    requires forall u :: u in a ==> u in b
    ensures UndocumentedKeys(a, emitted) <= UndocumentedKeys(b, emitted)
  {
    forall k | k in UndocumentedKeys(a, emitted) ensures k in UndocumentedKeys(b, emitted) {
      var i :| 0 <= i < |a| && k in CallKeys(a[i]) && k !in emitted;
      assert a[i] in b;
    }
  }

  // ----- classification -----

  datatype Site = Site(file: string, line: nat, httpMethod: string, literal: string)

  datatype BlindSpot = BlindSpot(file: string, literal: Option<string>, reason: string)

  predicate EndsWith(s: string, suffix: string) {
    |suffix| <= |s| && s[|s| - |suffix|..] == suffix
  }

  predicate Exempts(b: BlindSpot, s: Site) {
    EndsWith(s.file, b.file) && (b.literal.None? || b.literal.value == s.literal)
  }

  // The first declared exemption covering the site.
  function DeclaredBlindSpot(spots: seq<BlindSpot>, s: Site): Option<BlindSpot> {
    if spots == [] then None
    else if Exempts(spots[0], s) then Some(spots[0])
    else DeclaredBlindSpot(spots[1..], s)
  }

  // The reason is that of the first exemption covering the site.
  ghost predicate FirstReason(spots: seq<BlindSpot>, s: Site, reason: string) {
    exists i :: 0 <= i < |spots| && Exempts(spots[i], s) && spots[i].reason == reason
      && forall j :: 0 <= j < i ==> !Exempts(spots[j], s)
  }

  lemma {:induction false} FirstReasonIs(spots: seq<BlindSpot>, s: Site)
    requires DeclaredBlindSpot(spots, s).Some?
    ensures FirstReason(spots, s, DeclaredBlindSpot(spots, s).value.reason)
  {
    if !Exempts(spots[0], s) {
      FirstReasonIs(spots[1..], s);
      var reason := DeclaredBlindSpot(spots[1..], s).value.reason;
      var i :| 0 <= i < |spots[1..]| && Exempts(spots[1..][i], s) && spots[1..][i].reason == reason
        && forall j :: 0 <= j < i ==> !Exempts(spots[1..][j], s);
      assert spots[i + 1] == spots[1..][i];
      forall j | 0 <= j < i + 1 ensures !Exempts(spots[j], s) {
        if j > 0 { assert spots[j] == spots[1..][j - 1]; }
      }
    }
  }

  datatype Class = InSpec | Declared | Unmounted | Undeclared

  function ClassOf(s: Site, emitted: set<Key>, unmountedKeys: set<Key>, spots: seq<BlindSpot>): Class {
    var key := Key(s.file, s.line);
    if key in emitted then InSpec
    else if DeclaredBlindSpot(spots, s).Some? then Declared
    else if key in unmountedKeys then Unmounted
    else Undeclared
  }

  // The sites of one class, in order.
  function OfClass(c: Class, sites: seq<Site>, emitted: set<Key>, unmountedKeys: set<Key>,
                   spots: seq<BlindSpot>): seq<Site> {
    if sites == [] then []
    else
      OfClass(c, sites[..|sites| - 1], emitted, unmountedKeys, spots)
      + if ClassOf(sites[|sites| - 1], emitted, unmountedKeys, spots) == c then [sites[|sites| - 1]] else []
  }

  datatype Report = Report(total: nat, inSpec: seq<Site>, declared: seq<(Site, string)>, unmounted: seq<Site>,
                           undeclared: seq<Site>)

  function SitesOf(declared: seq<(Site, string)>): seq<Site> {
    seq(|declared|, i requires 0 <= i < |declared| => declared[i].0)
  }

  method ClassifyRouteSites(sites: seq<Site>, emitted: set<Key>, unmountedKeys: set<Key>, spots: seq<BlindSpot>)
    returns (report: Report)
    ensures report.total == |sites|
    ensures report.inSpec == OfClass(InSpec, sites, emitted, unmountedKeys, spots)
    ensures SitesOf(report.declared) == OfClass(Declared, sites, emitted, unmountedKeys, spots)
    ensures report.unmounted == OfClass(Unmounted, sites, emitted, unmountedKeys, spots)
    ensures report.undeclared == OfClass(Undeclared, sites, emitted, unmountedKeys, spots)
    ensures forall d :: d in report.declared ==> FirstReason(spots, d.0, d.1)
  {
    report := Report(|sites|, [], [], [], []);
    for i := 0 to |sites|
      invariant report.total == |sites|
      invariant report.inSpec == OfClass(InSpec, sites[..i], emitted, unmountedKeys, spots)
      invariant SitesOf(report.declared) == OfClass(Declared, sites[..i], emitted, unmountedKeys, spots)
      invariant report.unmounted == OfClass(Unmounted, sites[..i], emitted, unmountedKeys, spots)
      invariant report.undeclared == OfClass(Undeclared, sites[..i], emitted, unmountedKeys, spots)
      invariant forall d :: d in report.declared ==> FirstReason(spots, d.0, d.1)
    {
      assert sites[..i + 1][..i] == sites[..i];
      var site := sites[i];
      var key := Key(site.file, site.line);
      var spot := DeclaredBlindSpot(spots, site);
      if key in emitted {
        report := report.(inSpec := report.inSpec + [site]);
      } else if spot.Some? {
        FirstReasonIs(spots, site);
        assert SitesOf(report.declared + [(site, spot.value.reason)]) == SitesOf(report.declared) + [site];
        report := report.(declared := report.declared + [(site, spot.value.reason)]);
      } else if key in unmountedKeys {
        report := report.(unmounted := report.unmounted + [site]);
      } else {
        report := report.(undeclared := report.undeclared + [site]);
      }
    }
    assert sites[..|sites|] == sites;
  }

  lemma {:induction false} BlindSpotIsDeclared(spots: seq<BlindSpot>, s: Site)
    ensures var b := DeclaredBlindSpot(spots, s);
            (b.Some? ==> b.value in spots && Exempts(b.value, s))
                && (b.None? ==> forall x :: x in spots ==> !Exempts(x, s))
  {
    if spots != [] {
      BlindSpotIsDeclared(spots[1..], s);
      assert spots == [spots[0]] + spots[1..];
    }
  }

  /** The four classes partition the sites: nothing is dropped, nothing is counted twice. */
  lemma {:induction false} ClassesPartition(sites: seq<Site>, emitted: set<Key>, unmountedKeys: set<Key>,
                                            spots: seq<BlindSpot>)
    ensures multiset(sites) ==
              multiset(OfClass(InSpec, sites, emitted, unmountedKeys, spots))
              + multiset(OfClass(Declared, sites, emitted, unmountedKeys, spots))
              + multiset(OfClass(Unmounted, sites, emitted, unmountedKeys, spots))
              + multiset(OfClass(Undeclared, sites, emitted, unmountedKeys, spots))
    ensures |sites| == |OfClass(InSpec, sites, emitted, unmountedKeys, spots)|
                       + |OfClass(Declared, sites, emitted, unmountedKeys, spots)|
                       + |OfClass(Unmounted, sites, emitted, unmountedKeys, spots)|
                       + |OfClass(Undeclared, sites, emitted, unmountedKeys, spots)|
  {
    if sites != [] {
      var front, last := sites[..|sites| - 1], sites[|sites| - 1];
      ClassesPartition(front, emitted, unmountedKeys, spots);
      assert sites == front + [last];
      OneMoreClassed(InSpec, sites, emitted, unmountedKeys, spots);
      OneMoreClassed(Declared, sites, emitted, unmountedKeys, spots);
      OneMoreClassed(Unmounted, sites, emitted, unmountedKeys, spots);
      OneMoreClassed(Undeclared, sites, emitted, unmountedKeys, spots);
      var mine := ClassOf(last, emitted, unmountedKeys, spots);
      SumsRegroup(multiset(OfClass(InSpec, front, emitted, unmountedKeys, spots)), Once(mine == InSpec, last),
                  multiset(OfClass(Declared, front, emitted, unmountedKeys, spots)), Once(mine == Declared, last),
                  multiset(OfClass(Unmounted, front, emitted, unmountedKeys, spots)), Once(mine == Unmounted, last),
                  multiset(OfClass(Undeclared, front, emitted, unmountedKeys, spots)), Once(mine == Undeclared, last));
      ExactlyOnce(mine, last);
    }
  }

  lemma SumsRegroup<T>(a: multiset<T>, a': multiset<T>, b: multiset<T>, b': multiset<T>, c: multiset<T>,
                       c': multiset<T>, d: multiset<T>, d': multiset<T>)
    ensures (a + a') + (b + b') + (c + c') + (d + d') == (a + b + c + d) + (a' + b' + c' + d')
  {
  }

  lemma ExactlyOnce(c: Class, s: Site)
    ensures Once(c == InSpec, s) + Once(c == Declared, s) + Once(c == Unmounted, s) + Once(c == Undeclared, s)
        == multiset{s}
  {
  }

  function Once(b: bool, s: Site): multiset<Site> {
    if b then multiset{s} else multiset{}
  }

  lemma OneMoreClassed(c: Class, sites: seq<Site>, emitted: set<Key>, unmountedKeys: set<Key>, spots: seq<BlindSpot>)
    requires sites != []
    ensures var front, last := sites[..|sites| - 1], sites[|sites| - 1];
            var mine := ClassOf(last, emitted, unmountedKeys, spots) == c;
            && multiset(OfClass(c, sites, emitted, unmountedKeys, spots))
                 == multiset(OfClass(c, front, emitted, unmountedKeys, spots)) + Once(mine, last)
            && |OfClass(c, sites, emitted, unmountedKeys, spots)|
                 == |OfClass(c, front, emitted, unmountedKeys, spots)| + if mine then 1 else 0
  {
  }

  lemma {:induction false} OfClassHas(c: Class, sites: seq<Site>, emitted: set<Key>, unmountedKeys: set<Key>,
                                      spots: seq<BlindSpot>, s: Site)
    ensures s in OfClass(c, sites, emitted, unmountedKeys, spots) <==>
              s in sites && ClassOf(s, emitted, unmountedKeys, spots) == c
  {
    if sites != [] {
      OfClassHas(c, sites[..|sites| - 1], emitted, unmountedKeys, spots, s);
      assert sites == sites[..|sites| - 1] + [sites[|sites| - 1]];
    }
  }

  // An exemption covers a site whose file ends like its own, and whose path is its own if it has one.
  lemma ExemptsExactly(spots: seq<BlindSpot>, s: Site)
    ensures (exists b :: b in spots && Exempts(b, s)) <==>
              exists b, before :: b in spots && s.file == before + b.file && b.literal in {None, Some(s.literal)}
  {
    forall b | b in spots && Exempts(b, s)
      ensures exists before :: s.file == before + b.file && b.literal in {None, Some(s.literal)}
    {
      assert s.file == s.file[..|s.file| - |b.file|] + b.file;
    }
  }

  /** What each class means. */
  lemma ClassificationExact(sites: seq<Site>, emitted: set<Key>, unmountedKeys: set<Key>, spots: seq<BlindSpot>,
                            s: Site)
    requires s in sites
    ensures var key := Key(s.file, s.line);
            var exempt := exists b, before ::
              b in spots && s.file == before + b.file && b.literal in {None, Some(s.literal)};
            && (s in OfClass(InSpec, sites, emitted, unmountedKeys, spots) <==> key in emitted)
            && (s in OfClass(Declared, sites, emitted, unmountedKeys, spots) <==> key !in emitted && exempt)
            && (s in OfClass(Unmounted, sites, emitted, unmountedKeys, spots) <==>
                  key !in emitted && !exempt && key in unmountedKeys)
            && (s in OfClass(Undeclared, sites, emitted, unmountedKeys, spots) <==>
                  key !in emitted && !exempt && key !in unmountedKeys)
  {
    BlindSpotIsDeclared(spots, s);
    ExemptsExactly(spots, s);
    OfClassHas(InSpec, sites, emitted, unmountedKeys, spots, s);
    OfClassHas(Declared, sites, emitted, unmountedKeys, spots, s);
    OfClassHas(Unmounted, sites, emitted, unmountedKeys, spots, s);
    OfClassHas(Undeclared, sites, emitted, unmountedKeys, spots, s);
  }

  // ----- what a passing gate promises -----

  /** When the run reports no undeclared site, every site is either on a line whose routes are in the
      document, or covered by a written exemption, or inside a factory that nothing mounts. */
  lemma {:induction false} PassingGateCovers(inlineRoutes: seq<Route>, units: seq<Unit>, sites: seq<Site>,
                                             spots: seq<BlindSpot>, s: Site)
    requires s in sites
    requires var routes := inlineRoutes + RoutesOfUnits(units);
             var emitted := EmittedKeys(routes);
             OfClass(Undeclared, sites, emitted, UndocumentedKeys(UnmountedUnits(units), emitted), spots) == []
    ensures var routes := inlineRoutes + RoutesOfUnits(units);
            || (exists r :: r in routes && r.file == s.file && r.line == s.line && HasOperation(Assembled(routes), r))
            || (exists b, before :: b in spots && s.file == before + b.file && b.literal in {None, Some(s.literal)})
            || (exists u, c :: u in units && u.Factory? && u.mounts == [] && u.file == s.file
                  && c in u.calls && c.line == s.line)
  {
    var routes := inlineRoutes + RoutesOfUnits(units);
    var emitted := EmittedKeys(routes);
    var unmounted := UnmountedUnits(units);
    var key := Key(s.file, s.line);
    OfClassHas(Undeclared, sites, emitted, UndocumentedKeys(unmounted, emitted), spots, s);
    BlindSpotIsDeclared(spots, s);
    ExemptsExactly(spots, s);
    if key in emitted {
      var i :| 0 <= i < |routes| && KeyOf(routes[i]) == key;
      AssemblyConservesOperations(routes, routes[i]);
      assert routes[i] in routes;
    } else if key in UndocumentedKeys(unmounted, emitted) {
      var i :| 0 <= i < |unmounted| && key in CallKeys(unmounted[i]);
      UnmountedUnitsFrom(units, unmounted[i]);
      var j :| 0 <= j < |unmounted[i].calls| && Key(unmounted[i].file, unmounted[i].calls[j].line) == key;
      assert unmounted[i].calls[j] in unmounted[i].calls;
    }
  }

  /** The audit keys sites by line alone: once any route of a line is emitted, every other site on the
      same line is reported as documented too, whatever its method and path. */
  lemma {:induction false} SharedLineMasks(routes: seq<Route>, r: Route, s: Site, unmountedKeys: set<Key>,
                                           spots: seq<BlindSpot>)
    requires r in routes && r.file == s.file && r.line == s.line
    ensures ClassOf(s, EmittedKeys(routes), unmountedKeys, spots) == InSpec
  {
    var i :| 0 <= i < |routes| && routes[i] == r;
    assert KeyOf(routes[i]) in EmittedKeys(routes);
  }

  ghost predicate DefinedBy(r: Route, s: Site) {
    r.file == s.file && r.line == s.line && r.httpMethod == s.httpMethod
  }

  /** With one site to a line, and every route emitted from an audited site, "in the spec" means that
      the site's own definition was emitted. */
  lemma {:induction false} DistinctLinesExact(routes: seq<Route>, sites: seq<Site>, s: Site, unmountedKeys: set<Key>,
                                              spots: seq<BlindSpot>)
    requires s in sites
    requires forall x, y :: x in sites && y in sites && x.file == y.file && x.line == y.line ==> x == y
    requires forall r :: r in routes ==> exists x :: x in sites && DefinedBy(r, x)
    ensures ClassOf(s, EmittedKeys(routes), unmountedKeys, spots) == InSpec <==>
              exists r :: r in routes && DefinedBy(r, s)
  {
    if Key(s.file, s.line) in EmittedKeys(routes) {
      var i :| 0 <= i < |routes| && KeyOf(routes[i]) == Key(s.file, s.line);
      assert routes[i] in routes;
      var x :| x in sites && DefinedBy(routes[i], x);
    }
    forall r | r in routes && DefinedBy(r, s) ensures Key(s.file, s.line) in EmittedKeys(routes) {
      SharedLineMasks(routes, r, s, unmountedKeys, spots);
    }
  }
}
