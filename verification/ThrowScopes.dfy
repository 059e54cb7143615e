/** A function body as the throw walk sees it, and the test for a node whose error never leaves the
    function because a `try` around it has a `catch` that cannot rethrow. */
module ThrowScopes {
  import opened Lists

  type FnId = string

  datatype ThrownStatus = ThrownStatus(status: nat, code: Option<string>)

  datatype Callee =
    | Identifier(name: string)
    | Member(receiver: Option<string>)  // the receiver's name, when it is a plain identifier
    | OtherCallee

  datatype Kind =
    | Throw(status: Option<ThrownStatus>)                       // what the error middleware makes of it
    | Call(callee: Callee, argCount: nat, target: Option<FnId>)  // the function it resolves to
    | Try(block: nat, handler: Option<nat>)                      // its try block and its catch clause
    | OtherNode

  // A node with its position in the text; `parent` is the index of the enclosing node.
  datatype Node = Node(kind: Kind, parent: nat, start: nat, end: nat)

  // The nodes of one function in document order; node 0 is the function itself.
  type Body = seq<Node>

  predicate Inside(b: Body, inner: nat, outer: nat)
    requires inner < |b| && outer < |b|
  {
    b[inner].start >= b[outer].start && b[inner].end <= b[outer].end
  }

  // A syntax tree: children lie inside their parent, siblings do not overlap.
  predicate WellFormed(b: Body) {
    && b != [] && b[0].kind.OtherNode?
    && (forall i {:trigger NodeOk(b, i)} :: 0 < i < |b| ==> NodeOk(b, i))
    && (forall i, j {:trigger SiblingsOk(b, i, j)} :: 0 < i < j < |b| ==> SiblingsOk(b, i, j))
    && (forall t {:trigger TryOk(b, t)} :: 0 <= t < |b| ==> TryOk(b, t))
  }

  predicate NodeOk(b: Body, i: nat)
    requires 0 < i < |b|
  {
    b[i].start < b[i].end && b[i].parent < i && Inside(b, i, b[i].parent)
  }

  predicate SiblingsOk(b: Body, i: nat, j: nat)
    requires i < |b| && j < |b|
  {
    b[i].parent == b[j].parent ==> b[i].end <= b[j].start || b[j].end <= b[i].start
  }

  predicate TryOk(b: Body, t: nat)
    requires t < |b|
  {
    b[t].kind.Try? ==>
      && t < b[t].kind.block < |b| && b[b[t].kind.block].parent == t
      && (b[t].kind.handler.Some? ==>
            t < b[t].kind.handler.value < |b| && b[b[t].kind.handler.value].parent == t)
  }

  // n is a or lies below it.
  predicate Under(b: Body, n: nat, a: nat)
    requires WellFormed(b) && n < |b|
  {
    n == a || (n > 0 && (assert NodeOk(b, n); Under(b, b[n].parent, a)))
  }

  // The catch clause contains a throw statement, however deep.
  predicate Rethrows(b: Body, handler: nat)
    requires WellFormed(b)
  {
    exists i :: 0 <= i < |b| && b[i].kind.Throw? && Under(b, i, handler)
  }

  predicate SwallowsAt(b: Body, n: nat, t: nat)
    requires WellFormed(b) && n < |b| && t < |b|
  {
    && b[t].kind.Try? && Under(b, n, b[t].kind.block)
    && b[t].kind.handler.Some? && !Rethrows(b, b[t].kind.handler.value)
  }

  /** What the walk must decide: some enclosing try block catches the error for good. */
  predicate Swallowed(b: Body, n: nat)
    requires WellFormed(b) && n < |b|
  {
    exists t :: 0 <= t < |b| && SwallowsAt(b, n, t)
  }

  lemma {:induction false} UnderIsInside(b: Body, n: nat, a: nat)
    requires WellFormed(b) && n < |b| && Under(b, n, a)
    ensures a < |b| && a <= n && Inside(b, n, a)
  {
    if n != a {
      assert NodeOk(b, n);
      UnderIsInside(b, b[n].parent, a);
    }
  }

  // A proper descendant of t sits under one of the children of t.
  lemma {:induction false} ChildAbove(b: Body, n: nat, t: nat) returns (c: nat)
    requires WellFormed(b) && n < |b| && Under(b, n, t) && n != t
    ensures 0 < c < |b| && b[c].parent == t && Under(b, n, c)
  {
    assert NodeOk(b, n);
    if b[n].parent == t {
      c := n;
    } else {
      c := ChildAbove(b, b[n].parent, t);
    }
  }

  /** Comparing text positions is the same as looking at the tree. */
  lemma {:induction false} PositionsTell(b: Body, n: nat, t: nat)
    requires WellFormed(b) && n < |b| && t < |b| && b[t].kind.Try? && Under(b, n, t) && n != t && b[t].kind.block < |b|
    ensures Inside(b, n, b[t].kind.block) <==> Under(b, n, b[t].kind.block)
  {
    assert TryOk(b, t);
    var block := b[t].kind.block;
    var c := ChildAbove(b, n, t);
    UnderIsInside(b, n, c);
    if Under(b, n, block) {
      UnderIsInside(b, n, block);
    } else {
      SiblingsApart(b, c, block, n);
    }
  }

  lemma {:induction false} SiblingsApart(b: Body, i: nat, j: nat, n: nat)
    requires WellFormed(b) && 0 < i < |b| && 0 < j < |b| && 0 < n < |b|
    requires i != j && b[i].parent == b[j].parent && Inside(b, n, i)
    ensures !Inside(b, n, j)
  {
    assert NodeOk(b, n);
    assert if i < j then SiblingsOk(b, i, j) else SiblingsOk(b, j, i);
  }

  lemma {:induction false} UnderRoot(b: Body, n: nat)
    requires WellFormed(b) && n < |b|
    ensures Under(b, n, 0)
  {
    if n > 0 {
      assert NodeOk(b, n);
      UnderRoot(b, b[n].parent);
    }
  }

  lemma {:induction false} UnderThrough(b: Body, n: nat, a: nat, c: nat)
    requires WellFormed(b) && n < |b| && a < |b| && Under(b, n, a) && Under(b, a, c)
    ensures Under(b, n, c)
  {
    if n != a {
      assert NodeOk(b, n);
      UnderThrough(b, b[n].parent, a, c);
    }
  }

  // Two nodes, neither below the other, lie below two children of one node.
  lemma {:induction false} Branches(b: Body, i: nat, t: nat) returns (x: nat, y: nat)
    requires WellFormed(b) && i < |b| && t < |b| && !Under(b, i, t) && !Under(b, t, i)
    ensures 0 < x < |b| && 0 < y < |b| && x != y && b[x].parent == b[y].parent && Under(b, i, x) && Under(b, t, y)
    decreases i
  {
    if i == 0 {
      UnderRoot(b, t);
    }
    assert NodeOk(b, i);
    var p := b[i].parent;
    if Under(b, t, p) {
      x := i;
      y := ChildAbove(b, t, p);
    } else {
      x, y := Branches(b, p, t);
    }
  }

  // What lies within the text of a catch clause lies below it in the tree.
  lemma {:induction false} InsideHandler(b: Body, i: nat, t: nat)
    requires WellFormed(b) && i < |b| && t < |b| && b[t].kind.Try? && b[t].kind.handler.Some?
    requires !b[i].kind.Try? && b[t].kind.handler.value < |b| && Inside(b, i, b[t].kind.handler.value)
    requires b[t].kind.block != b[t].kind.handler.value
    ensures Under(b, i, b[t].kind.handler.value)
  {
    assert TryOk(b, t);
    var handler, block := b[t].kind.handler.value, b[t].kind.block;
    assert NodeOk(b, handler) && NodeOk(b, block);
    SiblingsApart(b, block, handler, block);
    if Under(b, i, t) {
      var c := ChildAbove(b, i, t);
      if c != handler {
        UnderIsInside(b, i, c);
        SiblingsApart(b, c, handler, i);
      }
    } else if Under(b, t, i) {
      UnderIsInside(b, t, i);
    } else {
      var x, y := Branches(b, i, t);
      UnderIsInside(b, i, x);
      UnderIsInside(b, t, y);
      assert NodeOk(b, i);
      SiblingsApart(b, x, y, i);
    }
  }

  /** A catch clause rethrows exactly when a throw stands within its text. */
  lemma {:induction false} RethrowsTold(b: Body, t: nat)
    requires WellFormed(b) && t < |b| && b[t].kind.Try? && b[t].kind.handler.Some?
    requires b[t].kind.block != b[t].kind.handler.value && b[t].kind.handler.value < |b|
    ensures Rethrows(b, b[t].kind.handler.value) <==>
              exists i :: 0 <= i < |b| && b[i].kind.Throw? && Inside(b, i, b[t].kind.handler.value)
  {
    var handler := b[t].kind.handler.value;
    forall i | 0 <= i < |b| && b[i].kind.Throw?
      ensures Under(b, i, handler) <==> Inside(b, i, handler)
    {
      if Under(b, i, handler) {
        UnderIsInside(b, i, handler);
      }
      if Inside(b, i, handler) {
        InsideHandler(b, i, t);
      }
    }
  }

  lemma {:induction false} UnderBlockIsUnderTry(b: Body, n: nat, t: nat)
    requires WellFormed(b) && n < |b| && t < |b| && b[t].kind.Try? && Under(b, n, b[t].kind.block)
    ensures n != t && Under(b, n, t)
  {
    UnderIsInside(b, n, b[t].kind.block);
    assert TryOk(b, t) && NodeOk(b, n);
    if n != b[t].kind.block {
      UnderBlockIsUnderTry(b, b[n].parent, t);
    }
  }

  /** The walk up the parents, comparing text positions, decides exactly `Swallowed`. */
  method IsSwallowed(b: Body, n: nat) returns (swallowed: bool)
    requires WellFormed(b) && 0 < n < |b|
    ensures swallowed <==> Swallowed(b, n)
  {
    assert NodeOk(b, n);
    var cur: nat := b[n].parent;
    var within := true;
    forall t | 0 <= t < |b| && SwallowsAt(b, n, t) ensures Under(b, cur, t) {
      UnderBlockIsUnderTry(b, n, t);
    }
    while within
      invariant cur < n && Under(b, n, cur)
      invariant forall t :: 0 <= t < |b| && SwallowsAt(b, n, t) ==> within && Under(b, cur, t)
      decreases within, cur
    {
      assert TryOk(b, cur);
      if b[cur].kind.Try? {
        var block := b[cur].kind.block;
        var inTry := b[n].start >= b[block].start && b[n].end <= b[block].end;
        PositionsTell(b, n, cur);
        if inTry && b[cur].kind.handler.Some? && !Rethrows(b, b[cur].kind.handler.value) {
          assert SwallowsAt(b, n, cur);
          return true;
        }
      }
      assert !SwallowsAt(b, n, cur);
      forall t | 0 <= t < |b| && SwallowsAt(b, n, t) ensures t < cur {
        UnderIsInside(b, cur, t);
      }
      if cur == 0 {
        within := false;
      } else {
        UnderStep(b, n, cur);
        assert NodeOk(b, cur);
        cur := b[cur].parent;
      }
    }
    return false;
  }

  lemma {:induction false} UnderStep(b: Body, n: nat, a: nat)
    requires WellFormed(b) && n < |b| && 0 < a < |b| && Under(b, n, a)
    ensures Under(b, n, b[a].parent)
  {
    assert NodeOk(b, n);
    if n != a {
      UnderStep(b, b[n].parent, a);
    }
  }
}
