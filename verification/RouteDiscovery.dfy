/** Collecting the route calls of a factory: a depth-first walk that follows helper functions to
    which the router is passed on, with one visited set shared by the whole walk. */
module RouteDiscovery {
  import opened Lists

  // One call expression inside a function, in document order.
  datatype CallNode =
    | Direct(callee: string, firstArg: Option<string>)          // f(a, ...), with the text of `a`
    | OnMember(receiver: string, member: string, position: nat)  // r.m(...)
    | OtherCall

  datatype RouteCall = RouteCall(position: nat, httpMethod: string)

  datatype Helper = Helper(calls: seq<CallNode>, param: string)

  type Helpers = map<string, Helper>

  predicate IsHttpMethod(member: string) {
    member in {"get", "post", "put", "patch", "delete"}
  }

  // ----- the walk, as a function of the visited set -----

  predicate PassesRouter(call: CallNode, router: string, helpers: Helpers) {
    call.Direct? && call.callee in helpers && call.firstArg == Some(router)
  }

  predicate DefinesRoute(call: CallNode, router: string) {
    call.OnMember? && call.receiver == router && IsHttpMethod(call.member)
  }

  // The routes found, the helpers expanded in order, and the visited set afterwards.
  datatype Walk = Walk(found: seq<RouteCall>, expanded: seq<string>, visited: set<string>)

  function Collect(calls: seq<CallNode>, router: string, helpers: Helpers, visited: set<string>): (w: Walk)
    ensures visited <= w.visited
    decreases helpers.Keys - visited, calls
  {
    if calls == [] then Walk([], [], visited)
    else if PassesRouter(calls[0], router, helpers) && calls[0].callee !in visited then
      var name := calls[0].callee;
      assert helpers.Keys - (visited + {name}) < helpers.Keys - visited by {
        assert name in helpers.Keys - visited;
      }
      var inner := Collect(helpers[name].calls, helpers[name].param, helpers, visited + {name});
      assert helpers.Keys - inner.visited <= helpers.Keys - (visited + {name});
      var rest := Collect(calls[1..], router, helpers, inner.visited);
      Walk(inner.found + rest.found, [name] + inner.expanded + rest.expanded, rest.visited)
    else
      var rest := Collect(calls[1..], router, helpers, visited);
      if DefinesRoute(calls[0], router) then
        rest.(found := [RouteCall(calls[0].position, calls[0].member)] + rest.found)
      else rest
  }

  // What the first of the remaining calls adds.
  lemma CollectFirst(calls: seq<CallNode>, i: nat, router: string, helpers: Helpers, visited: set<string>)
    requires i < |calls|
    ensures var w := Collect(calls[i..], router, helpers, visited);
            if PassesRouter(calls[i], router, helpers) && calls[i].callee !in visited then
              var helper := helpers[calls[i].callee];
              var inner := Collect(helper.calls, helper.param, helpers, visited + {calls[i].callee});
              var rest := Collect(calls[i + 1..], router, helpers, inner.visited);
              w.found == inner.found + rest.found && w.visited == rest.visited
            else
              var rest := Collect(calls[i + 1..], router, helpers, visited);
              && w.visited == rest.visited
              && w.found == (if DefinesRoute(calls[i], router) then [RouteCall(calls[i].position, calls[i].member)]
                             else [])
                            + rest.found
  {
    assert calls[i..][0] == calls[i] && calls[i..][1..] == calls[i + 1..];
  }

  // ----- the walk, as the program performs it -----

  class Discovery {
    var visited: set<string>

    constructor ()
      ensures visited == {}
    {
      visited := {};
    }

    method CollectRouteCalls(calls: seq<CallNode>, router: string, helpers: Helpers) returns (found: seq<RouteCall>)
      modifies this
      ensures found == Collect(calls, router, helpers, old(visited)).found
      ensures visited == Collect(calls, router, helpers, old(visited)).visited
      decreases helpers.Keys - visited
    {
      found := [];
      ghost var whole := Collect(calls, router, helpers, visited);
      for i := 0 to |calls|
        invariant old(visited) <= visited
        invariant found + Collect(calls[i..], router, helpers, visited).found == whole.found
        invariant Collect(calls[i..], router, helpers, visited).visited == whole.visited
      {
        var call := calls[i];
        CollectFirst(calls, i, router, helpers, visited);
        if call.Direct? {
          if call.callee in helpers && call.firstArg == Some(router) && call.callee !in visited {
            assert call.callee in helpers.Keys - old(visited);
            visited := visited + {call.callee};
            assert call.callee !in helpers.Keys - visited;
            var inner := CollectRouteCalls(helpers[call.callee].calls, helpers[call.callee].param, helpers);
            ConcatAssociates(found, inner, Collect(calls[i + 1..], router, helpers, visited).found);
            found := found + inner;
          }
        } else if call.OnMember? && call.receiver == router && IsHttpMethod(call.member) {
          ConcatAssociates(found, [RouteCall(call.position, call.member)],
                           Collect(calls[i + 1..], router, helpers, visited).found);
          found := found + [RouteCall(call.position, call.member)];
        }
      }
    }
  }

  // ----- reachability -----

  // Some call passes the router on to the helper of that name, as its first argument.
  ghost predicate PassesTo(calls: seq<CallNode>, router: string, helpers: Helpers, name: string) {
    name in helpers && exists i :: 0 <= i < |calls| && calls[i] == Direct(name, Some(router))
  }

  ghost predicate HelperPassesTo(helpers: Helpers, from: string, name: string) {
    from in helpers && PassesTo(helpers[from].calls, helpers[from].param, helpers, name)
  }

  // p leads from the scope through helpers that each receive the router, none of them in `avoid`.
  ghost predicate IsChain(calls: seq<CallNode>, router: string, helpers: Helpers, avoid: set<string>, p: seq<string>) {
    && p != [] && PassesTo(calls, router, helpers, p[0])
    && (forall i :: 0 <= i < |p| ==> p[i] !in avoid)
    && (forall i :: 0 <= i < |p| - 1 ==> HelperPassesTo(helpers, p[i], p[i + 1]))
  }

  ghost predicate Reachable(calls: seq<CallNode>, router: string, helpers: Helpers, avoid: set<string>, name: string) {
    exists p :: IsChain(calls, router, helpers, avoid, p) && p[|p| - 1] == name
  }

  lemma {:induction false} PassesToTail(calls: seq<CallNode>, router: string, helpers: Helpers, name: string)
    requires calls != []
    ensures PassesTo(calls, router, helpers, name) <==>
              (PassesRouter(calls[0], router, helpers) && calls[0].callee == name)
                  || PassesTo(calls[1..], router, helpers, name)
  {
    if PassesTo(calls[1..], router, helpers, name) {
      var i :| 0 <= i < |calls[1..]| && calls[1..][i] == Direct(name, Some(router));
      assert calls[i + 1] == calls[1..][i];
    }
    if PassesTo(calls, router, helpers, name) {
      var i :| 0 <= i < |calls| && calls[i] == Direct(name, Some(router));
      assert i > 0 ==> calls[1..][i - 1] == calls[i];
    }
  }

  // After the walk, every helper it expanded has had all its own successors visited.
  ghost predicate ClosedBy(helpers: Helpers, before: set<string>, after: set<string>) {
    forall h, name :: h in after && h !in before && HelperPassesTo(helpers, h, name) ==> name in after
  }

  lemma {:induction false} WalkCloses(calls: seq<CallNode>, router: string, helpers: Helpers, visited: set<string>)
    ensures var w := Collect(calls, router, helpers, visited);
            && ClosedBy(helpers, visited, w.visited)
            && (forall name :: PassesTo(calls, router, helpers, name) ==> name in w.visited)
    decreases helpers.Keys - visited, calls
  {
    if calls != [] {
      forall name { PassesToTail(calls, router, helpers, name); }
      if PassesRouter(calls[0], router, helpers) && calls[0].callee !in visited {
        var name := calls[0].callee;
        assert name in helpers.Keys - visited && name !in helpers.Keys - (visited + {name});
        WalkCloses(helpers[name].calls, helpers[name].param, helpers, visited + {name});
        var inner := Collect(helpers[name].calls, helpers[name].param, helpers, visited + {name});
        assert helpers.Keys - inner.visited <= helpers.Keys - (visited + {name});
        WalkCloses(calls[1..], router, helpers, inner.visited);
      } else {
        WalkCloses(calls[1..], router, helpers, visited);
      }
    }
  }

  lemma {:induction false} WalkReaches(calls: seq<CallNode>, router: string, helpers: Helpers, visited: set<string>,
                                       h: string)
    requires h in Collect(calls, router, helpers, visited).visited && h !in visited
    ensures Reachable(calls, router, helpers, visited, h)
    decreases helpers.Keys - visited, calls
  {
    forall name { PassesToTail(calls, router, helpers, name); }
    if PassesRouter(calls[0], router, helpers) && calls[0].callee !in visited {
      var name := calls[0].callee;
      assert name in helpers.Keys - visited && name !in helpers.Keys - (visited + {name});
      var inner := Collect(helpers[name].calls, helpers[name].param, helpers, visited + {name});
      assert helpers.Keys - inner.visited <= helpers.Keys - (visited + {name});
      if h == name {
        assert IsChain(calls, router, helpers, visited, [name]);
      } else if h in inner.visited {
        WalkReaches(helpers[name].calls, helpers[name].param, helpers, visited + {name}, h);
        var p :| IsChain(helpers[name].calls, helpers[name].param, helpers, visited + {name}, p) && p[|p| - 1] == h;
        var q := [name] + p;
        assert forall i :: 0 <= i < |q| - 1 ==> HelperPassesTo(helpers, q[i], q[i + 1]) by {
          assert forall i :: 0 < i < |q| ==> q[i] == p[i - 1];
        }
        assert IsChain(calls, router, helpers, visited, q) && q[|q| - 1] == h;
      } else {
        WalkReaches(calls[1..], router, helpers, inner.visited, h);
        var p :| IsChain(calls[1..], router, helpers, inner.visited, p) && p[|p| - 1] == h;
        assert IsChain(calls, router, helpers, visited, p);
      }
    } else {
      WalkReaches(calls[1..], router, helpers, visited, h);
      var p :| IsChain(calls[1..], router, helpers, visited, p) && p[|p| - 1] == h;
      assert IsChain(calls, router, helpers, visited, p);
    }
  }

  lemma {:induction false} ChainIsVisited(calls: seq<CallNode>, router: string, helpers: Helpers, visited: set<string>,
                                          p: seq<string>, k: nat)
    requires IsChain(calls, router, helpers, visited, p) && k < |p|
    ensures p[k] in Collect(calls, router, helpers, visited).visited
  {
    WalkCloses(calls, router, helpers, visited);
    if k > 0 {
      ChainIsVisited(calls, router, helpers, visited, p, k - 1);
      assert HelperPassesTo(helpers, p[k - 1], p[k]);
    }
  }

  /** The walk visits exactly the helpers reachable by passing the router on. */
  lemma {:induction false} VisitsExactlyReachable(calls: seq<CallNode>, router: string, helpers: Helpers,
                                                  visited: set<string>, h: string)
    ensures h in Collect(calls, router, helpers, visited).visited <==>
              h in visited || Reachable(calls, router, helpers, visited, h)
  {
    if h in Collect(calls, router, helpers, visited).visited && h !in visited {
      WalkReaches(calls, router, helpers, visited, h);
    }
    if Reachable(calls, router, helpers, visited, h) {
      var p :| IsChain(calls, router, helpers, visited, p) && p[|p| - 1] == h;
      ChainIsVisited(calls, router, helpers, visited, p, |p| - 1);
    }
  }

  // ----- what is found -----

  // The routes a function defines itself on the given router variable.
  function OwnRoutes(calls: seq<CallNode>, router: string): seq<RouteCall> {
    if calls == [] then []
    else if DefinesRoute(calls[0], router) then
      [RouteCall(calls[0].position, calls[0].member)] + OwnRoutes(calls[1..], router)
    else OwnRoutes(calls[1..], router)
  }

  // The call r.get(...), r.post(...) and so on, written on the given router variable.
  ghost predicate Writes(calls: seq<CallNode>, router: string, r: RouteCall) {
    && r.httpMethod in {"get", "post", "put", "patch", "delete"}
    && exists i :: 0 <= i < |calls| && calls[i] == OnMember(router, r.httpMethod, r.position)
  }

  /** The routes of a function are its calls of the five HTTP methods on the router. */
  lemma {:induction false} OwnRoutesExactly(calls: seq<CallNode>, router: string, r: RouteCall)
    ensures r in OwnRoutes(calls, router) <==> Writes(calls, router, r)
  {
    if calls != [] {
      OwnRoutesExactly(calls[1..], router, r);
      assert forall i :: 0 < i < |calls| ==> calls[i] == calls[1..][i - 1];
    }
  }

  function RoutesOf(names: seq<string>, helpers: Helpers): seq<RouteCall>
    requires forall i :: 0 <= i < |names| ==> names[i] in helpers
  {
    if names == [] then []
    else OwnRoutes(helpers[names[0]].calls, helpers[names[0]].param) + RoutesOf(names[1..], helpers)
  }

  lemma {:induction false} RoutesOfAppend(a: seq<string>, b: seq<string>, helpers: Helpers)
    requires forall i :: 0 <= i < |a| ==> a[i] in helpers
    requires forall i :: 0 <= i < |b| ==> b[i] in helpers
    ensures RoutesOf(a + b, helpers) == RoutesOf(a, helpers) + RoutesOf(b, helpers)
  {
    if a == [] {
      assert a + b == b;
    } else {
      assert (a + b)[1..] == a[1..] + b;
      RoutesOfAppend(a[1..], b, helpers);
    }
  }

  // Each newly visited helper is expanded exactly once.
  lemma {:induction false} ExpandsOnce(calls: seq<CallNode>, router: string, helpers: Helpers, visited: set<string>)
    ensures var w := Collect(calls, router, helpers, visited);
            && NoDuplicates(w.expanded)
            && (forall h :: h in w.expanded <==> h in w.visited && h !in visited)
            && (forall i :: 0 <= i < |w.expanded| ==> w.expanded[i] in helpers)
    decreases helpers.Keys - visited, calls
  {
    if calls != [] {
      if PassesRouter(calls[0], router, helpers) && calls[0].callee !in visited {
        var name := calls[0].callee;
        assert name in helpers.Keys - visited && name !in helpers.Keys - (visited + {name});
        ExpandsOnce(helpers[name].calls, helpers[name].param, helpers, visited + {name});
        var inner := Collect(helpers[name].calls, helpers[name].param, helpers, visited + {name});
        assert helpers.Keys - inner.visited <= helpers.Keys - (visited + {name});
        ExpandsOnce(calls[1..], router, helpers, inner.visited);
        var rest := Collect(calls[1..], router, helpers, inner.visited);
        NoDuplicatesConcat([name], inner.expanded);
        NoDuplicatesConcat([name] + inner.expanded, rest.expanded);
      } else {
        ExpandsOnce(calls[1..], router, helpers, visited);
      }
    }
  }

  // The routes found are those of the scope and of the expanded helpers, as often as written.
  lemma {:induction false} FindsEveryRoute(calls: seq<CallNode>, router: string, helpers: Helpers, visited: set<string>)
    requires forall i :: 0 <= i < |Collect(calls, router, helpers, visited).expanded| ==>
      Collect(calls, router, helpers, visited).expanded[i] in helpers
    ensures var w := Collect(calls, router, helpers, visited);
            multiset(w.found) == multiset(OwnRoutes(calls, router)) + multiset(RoutesOf(w.expanded, helpers))
    decreases helpers.Keys - visited, calls
  {
    if calls != [] {
      if PassesRouter(calls[0], router, helpers) && calls[0].callee !in visited {
        var name := calls[0].callee;
        assert name in helpers.Keys - visited && name !in helpers.Keys - (visited + {name});
        var inner := Collect(helpers[name].calls, helpers[name].param, helpers, visited + {name});
        assert helpers.Keys - inner.visited <= helpers.Keys - (visited + {name});
        var rest := Collect(calls[1..], router, helpers, inner.visited);
        ExpandsOnce(helpers[name].calls, helpers[name].param, helpers, visited + {name});
        ExpandsOnce(calls[1..], router, helpers, inner.visited);
        FindsEveryRoute(helpers[name].calls, helpers[name].param, helpers, visited + {name});
        FindsEveryRoute(calls[1..], router, helpers, inner.visited);
        RoutesOfExpansion(name, inner.expanded, rest.expanded, helpers);
      } else {
        ExpandsOnce(calls[1..], router, helpers, visited);
        FindsEveryRoute(calls[1..], router, helpers, visited);
      }
    }
  }

  lemma {:induction false} RoutesOfExpansion(name: string, a: seq<string>, b: seq<string>, helpers: Helpers)
    requires name in helpers
    requires forall i :: 0 <= i < |a| ==> a[i] in helpers
    requires forall i :: 0 <= i < |b| ==> b[i] in helpers
    ensures RoutesOf([name] + a + b, helpers) ==
              OwnRoutes(helpers[name].calls, helpers[name].param) + RoutesOf(a, helpers) + RoutesOf(b, helpers)
  {
    RoutesOfAppend([name] + a, b, helpers);
    assert ([name] + a)[1..] == a;
  }

  /** Discovery from an empty visited set: `names` lists every helper reachable from the root once,
      and the result holds exactly the routes of the root and of those helpers. */
  lemma {:induction false} DiscoveryIsReachability(calls: seq<CallNode>, router: string, helpers: Helpers)
    returns (names: seq<string>)
    ensures NoDuplicates(names) && forall i :: 0 <= i < |names| ==> names[i] in helpers
    ensures forall h :: h in names <==> Reachable(calls, router, helpers, {}, h)
    ensures multiset(Collect(calls, router, helpers, {}).found) ==
              multiset(OwnRoutes(calls, router)) + multiset(RoutesOf(names, helpers))
  {
    names := Collect(calls, router, helpers, {}).expanded;
    ExpandsOnce(calls, router, helpers, {});
    FindsEveryRoute(calls, router, helpers, {});
    forall h ensures h in names <==> Reachable(calls, router, helpers, {}, h) {
      VisitsExactlyReachable(calls, router, helpers, {}, h);
    }
  }

  /** A register function that is itself a helper is not in the visited set when its own walk
      starts, so when it can reach itself all its routes are found a second time. */
  lemma {:induction false} SelfReachingRootRepeats(helpers: Helpers, root: string)
    requires root in helpers
    requires Reachable(helpers[root].calls, helpers[root].param, helpers, {}, root)
    ensures var own := multiset(OwnRoutes(helpers[root].calls, helpers[root].param));
            own + own <= multiset(Collect(helpers[root].calls, helpers[root].param, helpers, {}).found)
  {
    var names := DiscoveryIsReachability(helpers[root].calls, helpers[root].param, helpers);
    RoutesOfMember(names, helpers, root);
  }

  lemma {:induction false} RoutesOfMember(names: seq<string>, helpers: Helpers, name: string)
    requires forall i :: 0 <= i < |names| ==> names[i] in helpers
    requires name in names
    ensures multiset(OwnRoutes(helpers[name].calls, helpers[name].param)) <= multiset(RoutesOf(names, helpers))
  {
    if names[0] != name {
      RoutesOfMember(names[1..], helpers, name);
    }
  }
}
