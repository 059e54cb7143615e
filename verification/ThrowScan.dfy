/** What scanning one function contributes to the throw walk: the statuses it throws itself, and
    the calls through which an error of a callee could still leave it. */
module ThrowScan {
  import opened Lists
  import opened ThrowScopes

  predicate IsOpaqueReceiver(name: string) {
    name in {"c", "console", "JSON", "Math", "Object", "Array", "Promise", "Number", "String", "Date",
             "process", "path", "fs", "Buffer", "Boolean", "Set", "Map", "res", "req"}
  }

  predicate ThrowsAt(b: Body, i: nat)
    requires WellFormed(b) && i < |b|
  {
    b[i].kind.Throw? && b[i].kind.status.Some? && !Swallowed(b, i)
  }

  // A schema-validated body parse rejects with 400 inside `parseJsonBody`.
  predicate ParsesAt(b: Body, i: nat)
    requires WellFormed(b) && i < |b|
  {
    b[i].kind.Call? && b[i].kind.callee == Identifier("parseJsonBody") && b[i].kind.argCount >= 2 && !Swallowed(b, i)
  }

  const BAD_REQUEST := ThrownStatus(400, None)

  // A call worth following: of a plain name, or of a method on a receiver that is not library surface.
  predicate IsDomainCall(kind: Kind) {
    kind.Call? &&
    match kind.callee
    case Identifier(_) => true
    case Member(receiver) => receiver.Some? && !IsOpaqueReceiver(receiver.value)
    case OtherCallee => false
  }

  predicate FollowsAt(b: Body, i: nat)
    requires WellFormed(b) && i < |b|
  {
    IsDomainCall(b[i].kind) && !Swallowed(b, i)
  }

  function ThrownFrom(b: Body, i: nat): seq<ThrownStatus>
    requires WellFormed(b) && i <= |b|
    decreases |b| - i
  {
    if i == |b| then []
    else (if ThrowsAt(b, i) then [b[i].kind.status.value] else []) + ThrownFrom(b, i + 1)
  }

  function ParsedFrom(b: Body, i: nat): seq<ThrownStatus>
    requires WellFormed(b) && i <= |b|
    decreases |b| - i
  {
    if i == |b| then [] else (if ParsesAt(b, i) then [BAD_REQUEST] else []) + ParsedFrom(b, i + 1)
  }

  function CallsFrom(b: Body, i: nat): seq<Option<FnId>>
    requires WellFormed(b) && i <= |b|
    decreases |b| - i
  {
    if i == |b| then [] else (if FollowsAt(b, i) then [b[i].kind.target] else []) + CallsFrom(b, i + 1)
  }

  // Its own statuses, and the resolution of each call it makes.
  datatype Summary = Summary(own: seq<ThrownStatus>, calls: seq<Option<FnId>>)

  function SummaryOf(b: Body): Summary
    requires WellFormed(b)
  {
    Summary(ThrownFrom(b, 0) + ParsedFrom(b, 0), CallsFrom(b, 0))
  }

  method ScanThrows(b: Body) returns (found: seq<ThrownStatus>)
    requires WellFormed(b)
    ensures found == ThrownFrom(b, 0)
  {
    found := [];
    for i := 0 to |b|
      invariant found + ThrownFrom(b, i) == ThrownFrom(b, 0)
    {
      if b[i].kind.Throw? {
        var swallowed := IsSwallowed(b, i);
        if !swallowed && b[i].kind.status.Some? {
          found := found + [b[i].kind.status.value];
        }
      }
    }
  }

  method ScanParses(b: Body) returns (found: seq<ThrownStatus>)
    requires WellFormed(b)
    ensures found == ParsedFrom(b, 0)
  {
    found := [];
    for i := 0 to |b|
      invariant found + ParsedFrom(b, i) == ParsedFrom(b, 0)
    {
      if b[i].kind.Call? {
        var swallowed := IsSwallowed(b, i);
        if !swallowed && b[i].kind.callee == Identifier("parseJsonBody") && b[i].kind.argCount >= 2 {
          found := found + [BAD_REQUEST];
        }
      }
    }
  }

  method ScanCalls(b: Body) returns (calls: seq<Option<FnId>>)
    requires WellFormed(b)
    ensures calls == CallsFrom(b, 0)
    ensures forall g :: Some(g) in calls <==> Calls(b, g)
  {
    calls := [];
    for i := 0 to |b|
      invariant calls + CallsFrom(b, i) == CallsFrom(b, 0)
    {
      if b[i].kind.Call? {
        var swallowed := IsSwallowed(b, i);
        if !swallowed && IsDomainCall(b[i].kind) {
          calls := calls + [b[i].kind.target];
        }
      }
    }
    forall g ensures Some(g) in calls <==> Calls(b, g) {
      SummarySays(b, BAD_REQUEST, g);
    }
  }

  // ----- what a summary says about the tree -----

  // It throws s itself, or parses a body against a schema, without swallowing the error.
  ghost predicate ThrowsDirectly(b: Body, s: ThrownStatus)
    requires WellFormed(b)
  {
    || (exists i :: 0 <= i < |b| && b[i].kind == Throw(Some(s)) && !Swallowed(b, i))
    || (s == ThrownStatus(400, None) && exists i :: 0 <= i < |b| && ParsesBody(b[i].kind) && !Swallowed(b, i))
  }

  predicate ParsesBody(kind: Kind) {
    kind.Call? && kind.callee == Identifier("parseJsonBody") && kind.argCount >= 2
  }

  // Some call whose error is not swallowed resolves to g: of a plain name, or of a method on a named
  // receiver that is not one of the library's.
  ghost predicate Calls(b: Body, g: FnId)
    requires WellFormed(b)
  {
    exists i :: 0 <= i < |b| && CallsOut(b[i].kind) && b[i].kind.target == Some(g) && !Swallowed(b, i)
  }

  predicate CallsOut(kind: Kind) {
    && kind.Call? && !kind.callee.OtherCallee?
    && (kind.callee.Member? ==>
          && kind.callee.receiver.Some?
          && kind.callee.receiver.value !in {
               "c", "console", "JSON", "Math", "Object", "Array", "Promise", "Number", "String", "Date",
               "process", "path", "fs", "Buffer", "Boolean", "Set", "Map", "res", "req"})
  }

  lemma {:induction false} ThrownFromSays(b: Body, i: nat, s: ThrownStatus)
    requires WellFormed(b) && i <= |b|
    ensures s in ThrownFrom(b, i) <==> exists j :: i <= j < |b| && ThrowsAt(b, j) && b[j].kind.status.value == s
    decreases |b| - i
  {
    if i < |b| {
      ThrownFromSays(b, i + 1, s);
    }
  }

  lemma {:induction false} ParsedFromSays(b: Body, i: nat, s: ThrownStatus)
    requires WellFormed(b) && i <= |b|
    ensures s in ParsedFrom(b, i) <==> s == BAD_REQUEST && exists j :: i <= j < |b| && ParsesAt(b, j)
    decreases |b| - i
  {
    if i < |b| {
      ParsedFromSays(b, i + 1, s);
    }
  }

  lemma {:induction false} CallsFromSays(b: Body, i: nat, g: FnId)
    requires WellFormed(b) && i <= |b|
    ensures Some(g) in CallsFrom(b, i) <==> exists j :: i <= j < |b| && FollowsAt(b, j) && b[j].kind.target == Some(g)
    decreases |b| - i
  {
    if i < |b| {
      CallsFromSays(b, i + 1, g);
    }
  }

  /** A summary lists exactly the unswallowed throws and the unswallowed, resolved calls. */
  lemma {:induction false} SummarySays(b: Body, s: ThrownStatus, g: FnId)
    requires WellFormed(b)
    ensures s in SummaryOf(b).own <==> ThrowsDirectly(b, s)
    ensures Some(g) in SummaryOf(b).calls <==> Calls(b, g)
  {
    ThrownFromSays(b, 0, s);
    ParsedFromSays(b, 0, s);
    CallsFromSays(b, 0, g);
    assert forall i :: 0 <= i < |b| ==>
        (ThrowsAt(b, i) && b[i].kind.status.value == s <==> b[i].kind == Throw(Some(s)) && !Swallowed(b, i));
    assert forall i :: 0 <= i < |b| ==> (ParsesAt(b, i) <==> ParsesBody(b[i].kind) && !Swallowed(b, i));
    assert forall i :: 0 <= i < |b| ==> (FollowsAt(b, i) <==> CallsOut(b[i].kind) && !Swallowed(b, i));
  }
}
