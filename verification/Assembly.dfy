/** From the collected routes to the document: sort, keep the first route of each operation, and
    build the `paths` object. Strings compare character by character, by code point. */
module Assembly {
  import opened Lists
  import opened Sorting
  import RouteDiscovery

  // One collected route: the operation it documents and the source line that defines it.
  datatype Route = Route(httpMethod: string, path: string, file: string, line: nat)

  // ----- orders -----

  predicate LexLeq(a: string, b: string) {
    a == [] || (b != [] && (a[0] < b[0] || (a[0] == b[0] && LexLeq(a[1..], b[1..]))))
  }

  lemma {:induction false} LexIsOrder(a: string, b: string, c: string)
    ensures LexLeq(a, a)
    ensures LexLeq(a, b) || LexLeq(b, a)
    ensures LexLeq(a, b) && LexLeq(b, a) ==> a == b
    ensures LexLeq(a, b) && LexLeq(b, c) ==> LexLeq(a, c)
  {
    if a != [] {
      var as', bs, cs := a[1..], if b == [] then [] else b[1..], if c == [] then [] else c[1..];
      LexIsOrder(as', bs, cs);
      assert b != [] && a[0] == b[0] && as' == bs ==> a == b by {
        assert a == [a[0]] + as';
        assert b != [] ==> b == [b[0]] + bs;
      }
    }
  }

  // Dictionary order: the one is the beginning of the other, or they part at a smaller character.
  ghost predicate Precedes(a: string, b: string) {
    a <= b || exists i: nat :: PartsAt(a, b, i)
  }

  predicate PartsAt(a: string, b: string, i: nat) {
    i < |a| && i < |b| && a[..i] == b[..i] && a[i] < b[i]
  }

  /** The comparison of strings is dictionary order. */
  lemma {:induction false} LexExact(a: string, b: string)
    ensures LexLeq(a, b) <==> Precedes(a, b)
  {
    if a != [] && b != [] {
      LexExact(a[1..], b[1..]);
      assert a == [a[0]] + a[1..] && b == [b[0]] + b[1..];
      if a[0] == b[0] {
        forall i: nat | PartsAt(a[1..], b[1..], i) ensures PartsAt(a, b, i + 1) {
          assert a[..i + 1] == [a[0]] + a[1..][..i] && b[..i + 1] == [b[0]] + b[1..][..i];
        }
        forall i: nat | PartsAt(a, b, i) ensures i > 0 && PartsAt(a[1..], b[1..], i - 1) {
          assert a[1..][..i - 1] == a[..i][1..] && b[1..][..i - 1] == b[..i][1..];
        }
      } else {
        assert PartsAt(a, b, 0) <==> a[0] < b[0];
        assert forall i: nat :: 0 < i && PartsAt(a, b, i) ==> a[..i][0] == b[..i][0];
      }
    }
  }

  // Strictly before in the document: by path first, then by method.
  ghost predicate Before(a: Route, b: Route) {
    if a.path != b.path then Precedes(a.path, b.path)
    else a.httpMethod != b.httpMethod && Precedes(a.httpMethod, b.httpMethod)
  }

  // The comparator: by path, then by method.
  predicate RouteLeq(a: Route, b: Route) {
    if a.path != b.path then LexLeq(a.path, b.path) else LexLeq(a.httpMethod, b.httpMethod)
  }

  predicate SameOperation(a: Route, b: Route) {
    a.path == b.path && a.httpMethod == b.httpMethod
  }

  lemma {:induction false} RouteLeqIsOrder()
    ensures TotalPreorder(RouteLeq)
    ensures forall a, b :: RouteLeq(a, b) && RouteLeq(b, a) ==> SameOperation(a, b)
  {
    forall a, b ensures RouteLeq(a, b) || RouteLeq(b, a) {
      LexIsOrder(a.path, b.path, a.path);
      LexIsOrder(a.httpMethod, b.httpMethod, a.httpMethod);
    }
    forall a, b | RouteLeq(a, b) && RouteLeq(b, a) ensures SameOperation(a, b) {
      LexIsOrder(a.path, b.path, a.path);
      LexIsOrder(a.httpMethod, b.httpMethod, a.httpMethod);
    }
    forall a, b, c | RouteLeq(a, b) && RouteLeq(b, c) ensures RouteLeq(a, c) {
      LexIsOrder(a.path, b.path, c.path);
      LexIsOrder(b.path, c.path, b.path);
      LexIsOrder(a.path, b.path, a.path);
      LexIsOrder(a.httpMethod, b.httpMethod, c.httpMethod);
    }
  }

  lemma BeforeExact(a: Route, b: Route)
    ensures Before(a, b) <==> RouteLeq(a, b) && !SameOperation(a, b)
  {
    LexExact(a.path, b.path);
    LexExact(a.httpMethod, b.httpMethod);
  }

  // ----- the first route of each operation -----

  // The text under which an operation is remembered as seen.
  function KeyText(r: Route): string {
    r.httpMethod + " " + r.path
  }

  predicate ValidRoutes(routes: seq<Route>) {
    forall i :: 0 <= i < |routes| ==> RouteDiscovery.IsHttpMethod(routes[i].httpMethod)
  }

  lemma {:induction false} KeyTextInjective(a: Route, b: Route)
    requires RouteDiscovery.IsHttpMethod(a.httpMethod) && RouteDiscovery.IsHttpMethod(b.httpMethod)
    ensures KeyText(a) == KeyText(b) <==> SameOperation(a, b)
  {
    if KeyText(a) == KeyText(b) {
      MethodEndsAtSpace(a, b);
      MethodEndsAtSpace(b, a);
      var n := |a.httpMethod|;
      assert a.httpMethod == KeyText(a)[..n] && b.httpMethod == KeyText(b)[..n];
      assert a.path == KeyText(a)[n + 1..] && b.path == KeyText(b)[n + 1..];
    }
  }

  // No method contains a space, so the first space of a key ends its method.
  lemma MethodEndsAtSpace(a: Route, b: Route)
    requires RouteDiscovery.IsHttpMethod(b.httpMethod) && KeyText(a) == KeyText(b)
    ensures |a.httpMethod| >= |b.httpMethod|
  {
    assert forall i :: 0 <= i < |b.httpMethod| ==> b.httpMethod[i] == KeyText(a)[i] && b.httpMethod[i] != ' ';
    assert KeyText(a)[|a.httpMethod|] == ' ';
  }

  predicate HasOperation(routes: seq<Route>, r: Route) {
    exists i :: 0 <= i < |routes| && SameOperation(routes[i], r)
  }

  function FirstOfEach(routes: seq<Route>): seq<Route> {
    if routes == [] then []
    else
      var front, last := FirstOfEach(routes[..|routes| - 1]), routes[|routes| - 1];
      if HasOperation(front, last) then front else front + [last]
  }

  function KeyTexts(routes: seq<Route>): set<string> {
    set i | 0 <= i < |routes| :: KeyText(routes[i])
  }

  lemma KeyTextsAppend(routes: seq<Route>, r: Route)
    ensures KeyTexts(routes + [r]) == KeyTexts(routes) + {KeyText(r)}
  {
    var all := routes + [r];
    assert all[|routes|] == r;
    forall k | k in KeyTexts(routes) ensures k in KeyTexts(all) {
      var i :| 0 <= i < |routes| && KeyText(routes[i]) == k;
      assert all[i] == routes[i];
    }
  }

  /** The filter with its set of seen keys. */
  method DedupRoutes(routes: seq<Route>) returns (unique: seq<Route>)
    requires ValidRoutes(routes)
    ensures unique == FirstOfEach(routes)
  {
    unique := [];
    var seen: set<string> := {};
    for i := 0 to |routes|
      invariant unique == FirstOfEach(routes[..i]) && ValidRoutes(unique)
      invariant seen == KeyTexts(unique)
    {
      assert routes[..i + 1][..i] == routes[..i];
      var key := KeyText(routes[i]);
      assert HasOperation(unique, routes[i]) <==> key in seen by {
        forall j | 0 <= j < |unique| ensures KeyText(unique[j]) == key <==> SameOperation(unique[j], routes[i]) {
          KeyTextInjective(unique[j], routes[i]);
        }
      }
      if key !in seen {
        KeyTextsAppend(unique, routes[i]);
        seen := seen + {key};
        unique := unique + [routes[i]];
      }
    }
    assert routes[..|routes|] == routes;
  }

  // The routes of one operation, in order.
  function OfOperation(routes: seq<Route>, r: Route): seq<Route> {
    if routes == [] then []
    else (if SameOperation(routes[0], r) then [routes[0]] else []) + OfOperation(routes[1..], r)
  }

  lemma {:induction false} OfOperationAppend(a: seq<Route>, b: seq<Route>, r: Route)
    ensures OfOperation(a + b, r) == OfOperation(a, r) + OfOperation(b, r)
  {
    if a == [] {
      assert a + b == b;
    } else {
      assert (a + b)[1..] == a[1..] + b;
      OfOperationAppend(a[1..], b, r);
    }
  }

  lemma {:induction false} OfOperationEmpty(routes: seq<Route>, r: Route)
    ensures OfOperation(routes, r) == [] <==> !HasOperation(routes, r)
  {
    if routes != [] {
      OfOperationEmpty(routes[1..], r);
      if HasOperation(routes, r) {
        var i :| 0 <= i < |routes| && SameOperation(routes[i], r);
        assert i > 0 ==> routes[1..][i - 1] == routes[i];
      }
      if HasOperation(routes[1..], r) {
        var i :| 0 <= i < |routes[1..]| && SameOperation(routes[1..][i], r);
        assert routes[i + 1] == routes[1..][i];
      }
    }
  }

  // Keeping the first of each operation keeps, for every operation, exactly its first route.
  lemma {:induction false} FirstOfEachKeepsFirst(routes: seq<Route>, r: Route)
    ensures OfOperation(FirstOfEach(routes), r)
        == OfOperation(routes, r)[..if OfOperation(routes, r) == [] then 0 else 1]
  {
    if routes != [] {
      var before, last := routes[..|routes| - 1], routes[|routes| - 1];
      var front := FirstOfEach(before);
      FirstOfEachKeepsFirst(before, r);
      FirstOfEachKeepsFirst(before, last);
      assert routes == before + [last];
      OfOperationAppend(before, [last], r);
      OfOperationAppend(front, [last], r);
      OfOperationEmpty(front, last);
      assert [last][1..] == [];
      if SameOperation(last, r) {
        SameOperationSameRoutes(front, last, r);
        SameOperationSameRoutes(before, last, r);
      }
    }
  }

  lemma {:induction false} SameOperationSameRoutes(routes: seq<Route>, a: Route, b: Route)
    requires SameOperation(a, b)
    ensures OfOperation(routes, a) == OfOperation(routes, b)
  {
    if routes != [] {
      SameOperationSameRoutes(routes[1..], a, b);
    }
  }

  // Sorting is stable: it leaves the routes of one operation in their order.
  lemma {:induction false} InsertKeepsOperation(x: Route, s: seq<Route>, r: Route)
    ensures OfOperation(Insert(RouteLeq, x, s), r) == OfOperation([x] + s, r)
  {
    if s != [] && !RouteLeq(x, s[0]) {
      InsertKeepsOperation(x, s[1..], r);
      LexIsOrder(x.httpMethod, x.httpMethod, x.httpMethod);
      OfOperationAppend([s[0]], Insert(RouteLeq, x, s[1..]), r);
      OfOperationAppend([x], s[1..], r);
      OfOperationAppend([x], s, r);
      OfOperationAppend([s[0]], s[1..], r);
      assert s == [s[0]] + s[1..];
      OthersSwap(x, s[0], r, OfOperation(s[1..], r));
    }
  }

  lemma OthersSwap(x: Route, y: Route, r: Route, rest: seq<Route>)
    requires !SameOperation(x, y)
    ensures OfOperation([x], r) + (OfOperation([y], r) + rest) == OfOperation([y], r) + (OfOperation([x], r) + rest)
  {
    assert [x][1..] == [] && [y][1..] == [];
    if SameOperation(x, r) {
      assert OfOperation([y], r) == [];
    } else {
      assert OfOperation([x], r) == [];
    }
  }

  lemma {:induction false} SortKeepsOperation(routes: seq<Route>, r: Route)
    ensures OfOperation(StableSort(RouteLeq, routes), r) == OfOperation(routes, r)
  {
    if routes != [] {
      SortKeepsOperation(routes[1..], r);
      InsertKeepsOperation(routes[0], StableSort(RouteLeq, routes[1..]), r);
      OfOperationAppend([routes[0]], StableSort(RouteLeq, routes[1..]), r);
      OfOperationAppend([routes[0]], routes[1..], r);
      assert routes == [routes[0]] + routes[1..];
    }
  }

  /** The documented operations: the routes, sorted, first of each kept. */
  function Assembled(routes: seq<Route>): seq<Route> {
    FirstOfEach(StableSort(RouteLeq, routes))
  }

  ghost predicate StrictlyAscending(routes: seq<Route>) {
    forall i, j :: 0 <= i < j < |routes| ==> Before(routes[i], routes[j])
  }

  lemma {:induction false} FirstOfEachAscends(s: seq<Route>)
    requires SortedBy(RouteLeq, s)
    ensures StrictlyAscending(FirstOfEach(s))
    ensures forall r :: r in FirstOfEach(s) ==> r in s
  {
    if s != [] {
      var before, last := s[..|s| - 1], s[|s| - 1];
      FirstOfEachAscends(before);
      assert s == before + [last];
      forall i | 0 <= i < |FirstOfEach(before)| && !HasOperation(FirstOfEach(before), last)
        ensures Before(FirstOfEach(before)[i], last)
      {
        assert FirstOfEach(before)[i] in before;
        BeforeExact(FirstOfEach(before)[i], last);
      }
    }
  }

  /** The documented operations are strictly ascending, so none occurs twice, and for every operation
      the documented route is the one that was collected first - one exists exactly when any was
      collected. */
  lemma {:induction false} AssemblyConservesOperations(routes: seq<Route>, r: Route)
    ensures StrictlyAscending(Assembled(routes))
    ensures OfOperation(Assembled(routes), r) == OfOperation(routes, r)[..if OfOperation(routes, r) == [] then 0 else 1]
    ensures HasOperation(Assembled(routes), r) <==> HasOperation(routes, r)
    ensures forall x :: x in Assembled(routes) ==> x in routes
  {
    var sorted := StableSort(RouteLeq, routes);
    RouteLeqIsOrder();
    StableSortSorts(RouteLeq, routes);
    FirstOfEachAscends(sorted);
    SortKeepsOperation(routes, r);
    FirstOfEachKeepsFirst(sorted, r);
    OfOperationEmpty(Assembled(routes), r);
    OfOperationEmpty(routes, r);
    forall x | x in Assembled(routes) ensures x in routes {
      assert x in multiset(sorted);
    }
  }

  // ----- the paths object -----

  type Paths = map<string, map<string, Route>>

  predicate Documents(paths: Paths, path: string, httpMethod: string) {
    path in paths && httpMethod in paths[path]
  }

  ghost predicate AscendingPaths(order: seq<string>) {
    forall i, j :: 0 <= i < j < |order| ==> Precedes(order[i], order[j]) && order[i] != order[j]
  }

  // The object holds exactly the operations of `done` ...
  ghost predicate HoldsExactly(paths: Paths, done: seq<Route>) {
    HoldsAll(paths, done) && HoldsOnly(paths, done) && forall p :: p in paths ==> exists m :: m in paths[p]
  }

  ghost predicate HoldsAll(paths: Paths, done: seq<Route>) {
    forall r :: r in done ==> Documents(paths, r.path, r.httpMethod) && paths[r.path][r.httpMethod] == r
  }

  ghost predicate HoldsOnly(paths: Paths, done: seq<Route>) {
    forall p, m :: Documents(paths, p, m) ==>
      paths[p][m] in done && paths[p][m].path == p && paths[p][m].httpMethod == m
  }

  // ... and its keys were inserted in ascending order.
  ghost predicate InsertedInOrder(paths: Paths, order: seq<string>) {
    AscendingPaths(order) && forall p :: p in order <==> p in paths
  }

  ghost predicate BuiltFrom(paths: Paths, order: seq<string>, done: seq<Route>) {
    HoldsExactly(paths, done) && InsertedInOrder(paths, order)
  }

  function WithPath(paths: Paths, path: string): Paths {
    if path in paths then paths else paths[path := map[]]
  }

  function WithRoute(paths: Paths, r: Route): Paths {
    var ready := WithPath(paths, r.path);
    ready[r.path := ready[r.path][r.httpMethod := r]]
  }

  lemma {:induction false} OneMoreHeld(paths: Paths, done: seq<Route>, r: Route)
    requires HoldsExactly(paths, done)
    requires forall x :: x in done ==> !SameOperation(x, r)
    ensures r.httpMethod !in WithPath(paths, r.path)[r.path]
    ensures HoldsExactly(WithRoute(paths, r), done + [r])
  {
    assert Documents(paths, r.path, r.httpMethod) ==> SameOperation(paths[r.path][r.httpMethod], r);
    var after := WithRoute(paths, r);
    forall p, m
      ensures Documents(after, p, m) <==> (Documents(paths, p, m) || (p == r.path && m == r.httpMethod))
      ensures Documents(paths, p, m) ==> Documents(after, p, m) && after[p][m] == paths[p][m]
    {
    }
    forall p | p in after ensures exists m :: m in after[p] {
      if p == r.path {
        assert r.httpMethod in after[p];
      }
    }
  }

  lemma {:induction false} OneMoreKey(paths: Paths, order: seq<string>, done: seq<Route>, r: Route)
    requires BuiltFrom(paths, order, done)
    requires forall x :: x in done ==> Before(x, r)
    ensures InsertedInOrder(WithRoute(paths, r), if r.path in paths then order else order + [r.path])
  {
    forall p | p in order && p != r.path ensures Precedes(p, r.path) {
      var m :| m in paths[p];
      assert Documents(paths, p, m);
      assert Before(paths[p][m], r);
    }
  }

  lemma OneMoreBuilt(paths: Paths, order: seq<string>, routes: seq<Route>, i: nat)
    requires i < |routes| && StrictlyAscending(routes) && BuiltFrom(paths, order, routes[..i])
    ensures routes[i].httpMethod !in WithPath(paths, routes[i].path)[routes[i].path]
    ensures BuiltFrom(WithRoute(paths, routes[i]), if routes[i].path in paths then order else order + [routes[i].path],
                      routes[..i + 1])
  {
    OneMoreHeld(paths, routes[..i], routes[i]);
    OneMoreKey(paths, order, routes[..i], routes[i]);
    assert routes[..i + 1] == routes[..i] + [routes[i]];
  }

  /** Building the object loses no operation and overwrites none; its keys are inserted in ascending
      order. */
  method BuildPaths(routes: seq<Route>) returns (paths: Paths, order: seq<string>)
    requires StrictlyAscending(routes)
    ensures BuiltFrom(paths, order, routes)
  {
    paths, order := map[], [];
    for i := 0 to |routes|
      invariant BuiltFrom(paths, order, routes[..i])
    {
      var r := routes[i];
      OneMoreBuilt(paths, order, routes, i);
      ghost var after := WithRoute(paths, r);
      if r.path !in paths {
        paths := paths[r.path := map[]];
        order := order + [r.path];
      }
      assert r.httpMethod !in paths[r.path];
      paths := paths[r.path := paths[r.path][r.httpMethod := r]];
      assert paths == after;
    }
    assert routes[..|routes|] == routes;
  }

  /** Ordering the path keys once more before writing changes nothing. */
  lemma {:induction false} PathsAlreadyOrdered(order: seq<string>)
    requires AscendingPaths(order)
    ensures StableSort(LexLeq, order) == order
  {
    forall i, j | 0 <= i < j < |order| ensures LexLeq(order[i], order[j]) {
      LexExact(order[i], order[j]);
    }
    SortedIsFixed(LexLeq, order);
  }
}
