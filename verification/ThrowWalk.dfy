/** Which error statuses a function can throw: an interprocedural walk, bounded in depth, and what
    it means in terms of call paths. */
module ThrowWalk {
  import opened Lists
  import opened ThrowScopes
  import opened ThrowScan

  type Program = map<FnId, Summary>

  const MAX_THROW_FOLLOW_DEPTH: nat := 2

  // Every call resolves to a function of the program or to nothing.
  predicate ValidProgram(prog: Program) {
    forall f, i :: f in prog && 0 <= i < |prog[f].calls| && prog[f].calls[i].Some? ==> prog[f].calls[i].value in prog
  }

  // ----- the walk without a memo table -----

  function Walk(prog: Program, fn: FnId, depth: nat): seq<ThrownStatus>
    requires ValidProgram(prog) && fn in prog && depth <= MAX_THROW_FOLLOW_DEPTH
    decreases MAX_THROW_FOLLOW_DEPTH - depth, 1, 0
  {
    Dedup(prog[fn].own + WalkCalls(prog, prog[fn].calls, depth))
  }

  predicate AllIn(prog: Program, calls: seq<Option<FnId>>) {
    forall i :: 0 <= i < |calls| && calls[i].Some? ==> calls[i].value in prog
  }

  function WalkCalls(prog: Program, calls: seq<Option<FnId>>, depth: nat): seq<ThrownStatus>
    requires ValidProgram(prog) && AllIn(prog, calls) && depth <= MAX_THROW_FOLLOW_DEPTH
    decreases MAX_THROW_FOLLOW_DEPTH - depth, 0, |calls| + 1
  {
    if calls == [] then []
    else WalkCalls(prog, calls[..|calls| - 1], depth) + WalkCall(prog, calls[|calls| - 1], depth)
  }

  function WalkCall(prog: Program, call: Option<FnId>, depth: nat): seq<ThrownStatus>
    requires ValidProgram(prog) && (call.Some? ==> call.value in prog) && depth <= MAX_THROW_FOLLOW_DEPTH
    decreases MAX_THROW_FOLLOW_DEPTH - depth, 0, 0
  {
    if depth < MAX_THROW_FOLLOW_DEPTH && call.Some? then Walk(prog, call.value, depth + 1) else []
  }

  // ----- what it means: call paths -----

  predicate CallsTo(prog: Program, f: FnId, g: FnId) {
    f in prog && g in prog && Some(g) in prog[f].calls
  }

  // A chain of resolved calls, none of them swallowed where it is made.
  ghost predicate IsCallPath(prog: Program, p: seq<FnId>) {
    p != [] && p[0] in prog && forall i :: 0 <= i < |p| - 1 ==> StepOk(prog, p, i)
  }

  predicate StepOk(prog: Program, p: seq<FnId>, i: nat)
    requires i + 1 < |p|
  {
    CallsTo(prog, p[i], p[i + 1])
  }

  ghost predicate ThrownAlong(prog: Program, p: seq<FnId>, fn: FnId, s: ThrownStatus) {
    IsCallPath(prog, p) && p[0] == fn && p[|p| - 1] in prog && s in prog[p[|p| - 1]].own
  }

  // Whatever a callee contributes came from one call that was followed, and the other way round.
  ghost predicate CalleeReports(prog: Program, calls: seq<Option<FnId>>, depth: nat, s: ThrownStatus, j: nat)
    requires ValidProgram(prog) && AllIn(prog, calls) && depth < MAX_THROW_FOLLOW_DEPTH && j < |calls|
  {
    calls[j].Some? && s in Walk(prog, calls[j].value, depth + 1)
  }

  lemma {:induction false} CallsReport(prog: Program, calls: seq<Option<FnId>>, depth: nat, s: ThrownStatus)
    returns (j: nat)
    requires ValidProgram(prog) && AllIn(prog, calls) && depth <= MAX_THROW_FOLLOW_DEPTH
    requires s in WalkCalls(prog, calls, depth)
    ensures depth < MAX_THROW_FOLLOW_DEPTH && j < |calls| && CalleeReports(prog, calls, depth, s, j)
    decreases |calls|
  {
    var front := calls[..|calls| - 1];
    if s in WalkCalls(prog, front, depth) {
      j := CallsReport(prog, front, depth, s);
    } else {
      j := |calls| - 1;
    }
  }

  lemma {:induction false} ReportedByCalls(prog: Program, calls: seq<Option<FnId>>, depth: nat, s: ThrownStatus, j: nat)
    requires ValidProgram(prog) && AllIn(prog, calls) && depth < MAX_THROW_FOLLOW_DEPTH && j < |calls|
    requires CalleeReports(prog, calls, depth, s, j)
    ensures s in WalkCalls(prog, calls, depth)
    decreases |calls|
  {
    if j < |calls| - 1 {
      ReportedByCalls(prog, calls[..|calls| - 1], depth, s, j);
    }
  }

  // A reported status is thrown directly or reported for a callee one level deeper ...
  lemma {:induction false} ReportedBy(prog: Program, fn: FnId, depth: nat, s: ThrownStatus)
    returns (callee: Option<FnId>)
    requires ValidProgram(prog) && fn in prog && depth <= MAX_THROW_FOLLOW_DEPTH && s in Walk(prog, fn, depth)
    ensures callee.None? ==> s in prog[fn].own
    ensures callee.Some? ==> depth < MAX_THROW_FOLLOW_DEPTH && CallsTo(prog, fn, callee.value)
    ensures callee.Some? ==> s in Walk(prog, callee.value, depth + 1)
  {
    callee := None;
    if s !in prog[fn].own {
      var j := CallsReport(prog, prog[fn].calls, depth, s);
      callee := prog[fn].calls[j];
    }
  }

  // ... and the latter is always reported.
  lemma {:induction false} CalleeIsReported(prog: Program, fn: FnId, depth: nat, s: ThrownStatus, g: FnId)
    requires ValidProgram(prog) && CallsTo(prog, fn, g)
    requires depth < MAX_THROW_FOLLOW_DEPTH && s in Walk(prog, g, depth + 1)
    ensures s in Walk(prog, fn, depth)
  {
    var j :| 0 <= j < |prog[fn].calls| && prog[fn].calls[j] == Some(g);
    ReportedByCalls(prog, prog[fn].calls, depth, s, j);
  }

  lemma {:induction false} WalkedHasPath(prog: Program, fn: FnId, depth: nat, s: ThrownStatus) returns (p: seq<FnId>)
    requires ValidProgram(prog) && fn in prog && depth <= MAX_THROW_FOLLOW_DEPTH && s in Walk(prog, fn, depth)
    ensures ThrownAlong(prog, p, fn, s) && depth + |p| - 1 <= MAX_THROW_FOLLOW_DEPTH
    decreases MAX_THROW_FOLLOW_DEPTH - depth
  {
    var callee := ReportedBy(prog, fn, depth, s);
    if callee.None? {
      p := [fn];
    } else {
      var q := WalkedHasPath(prog, callee.value, depth + 1, s);
      p := ThrownFurther(prog, fn, callee.value, q, s);
    }
  }

  lemma {:induction false} PathIsWalked(prog: Program, fn: FnId, depth: nat, s: ThrownStatus, p: seq<FnId>)
    requires ValidProgram(prog) && fn in prog
    requires ThrownAlong(prog, p, fn, s) && depth + |p| - 1 <= MAX_THROW_FOLLOW_DEPTH
    ensures s in Walk(prog, fn, depth)
    decreases |p|
  {
    if |p| > 1 {
      PathTail(prog, p);
      PathIsWalked(prog, p[1], depth + 1, s, p[1..]);
      CalleeIsReported(prog, fn, depth, s, p[1]);
    }
  }

  /** A status is reported at a depth exactly when some chain of resolved, unswallowed calls that
      stays within the depth bound ends in a function that throws it itself. */
  lemma {:induction false} WalkIsPathSemantics(prog: Program, fn: FnId, depth: nat, s: ThrownStatus)
    requires ValidProgram(prog) && fn in prog && depth <= MAX_THROW_FOLLOW_DEPTH
    ensures s in Walk(prog, fn, depth) <==>
              exists p :: ThrownAlong(prog, p, fn, s) && depth + |p| - 1 <= MAX_THROW_FOLLOW_DEPTH
  {
    if s in Walk(prog, fn, depth) {
      var p := WalkedHasPath(prog, fn, depth, s);
    }
    if exists p :: ThrownAlong(prog, p, fn, s) && depth + |p| - 1 <= MAX_THROW_FOLLOW_DEPTH {
      var p :| ThrownAlong(prog, p, fn, s) && depth + |p| - 1 <= MAX_THROW_FOLLOW_DEPTH;
      PathIsWalked(prog, fn, depth, s, p);
    }
  }

  lemma ThrownFurther(prog: Program, fn: FnId, g: FnId, q: seq<FnId>, s: ThrownStatus) returns (p: seq<FnId>)
    requires CallsTo(prog, fn, g) && ThrownAlong(prog, q, g, s)
    ensures ThrownAlong(prog, p, fn, s) && |p| == |q| + 1
  {
    PathExtends(prog, fn, q);
    p := [fn] + q;
  }

  lemma PathExtends(prog: Program, fn: FnId, p: seq<FnId>)
    requires IsCallPath(prog, p) && CallsTo(prog, fn, p[0])
    ensures IsCallPath(prog, [fn] + p)
  {
    var q := [fn] + p;
    forall i | 0 <= i < |q| - 1 ensures StepOk(prog, q, i) {
      if i > 0 { assert StepOk(prog, p, i - 1); }
    }
  }

  lemma PathTail(prog: Program, p: seq<FnId>)
    requires IsCallPath(prog, p) && |p| > 1
    ensures CallsTo(prog, p[0], p[1]) && IsCallPath(prog, p[1..])
  {
    var q := p[1..];
    assert StepOk(prog, p, 0);
    forall i | 0 <= i < |q| - 1 ensures StepOk(prog, q, i) {
      assert StepOk(prog, p, i + 1);
    }
  }

  // ----- the honesty counters -----

  datatype Key = Key(fn: FnId, depth: nat)

  datatype Counter = Unfollowed | Truncated | Resolved

  // The counter that one call adds to when its function is scanned at a depth.
  function CounterOf(call: Option<FnId>, depth: nat): Counter {
    if depth >= MAX_THROW_FOLLOW_DEPTH then Truncated else if call.None? then Unfollowed else Resolved
  }

  function Increment(call: Option<FnId>, depth: nat, c: Counter): nat {
    if CounterOf(call, depth) == c then 1 else 0
  }

  function Tally(calls: seq<Option<FnId>>, depth: nat, c: Counter): nat {
    if calls == [] then 0
    else Tally(calls[..|calls| - 1], depth, c) + Increment(calls[|calls| - 1], depth, c)
  }

  // What scanning a key adds to a counter, and the total over a list of keys.
  function TallyOf(prog: Program, c: Counter, k: Key): nat {
    if k.fn in prog then Tally(prog[k.fn].calls, k.depth, c) else 0
  }

  function TotalOf(prog: Program, c: Counter, log: seq<Key>): nat {
    if log == [] then 0 else TallyOf(prog, c, log[0]) + TotalOf(prog, c, log[1..])
  }

  lemma {:induction false} TotalOfAppend(prog: Program, c: Counter, a: seq<Key>, b: seq<Key>)
    ensures TotalOf(prog, c, a + b) == TotalOf(prog, c, a) + TotalOf(prog, c, b)
  {
    if a == [] {
      assert a + b == b;
    } else {
      assert (a + b)[1..] == a[1..] + b;
      TotalOfAppend(prog, c, a[1..], b);
    }
  }

  lemma {:induction false} TotalOfRemove(prog: Program, c: Counter, log: seq<Key>, j: nat)
    requires j < |log|
    ensures TotalOf(prog, c, log) == TallyOf(prog, c, log[j]) + TotalOf(prog, c, log[..j] + log[j + 1..])
  {
    if j == 0 {
      assert log[..0] + log[1..] == log[1..];
    } else {
      TotalOfRemove(prog, c, log[1..], j - 1);
      assert (log[..j] + log[j + 1..])[1..] == log[1..][..j - 1] + log[1..][j..];
    }
  }

  // A total does not depend on the order of the keys.
  lemma {:induction false} TotalOfPermutation(prog: Program, c: Counter, a: seq<Key>, b: seq<Key>)
    requires multiset(a) == multiset(b)
    ensures TotalOf(prog, c, a) == TotalOf(prog, c, b)
    decreases |a|
  {
    if a == [] {
      assert |multiset(b)| == 0;
    } else {
      var j, rest := MatchingKey(a, b);
      TotalOfRemove(prog, c, b, j);
      TotalOfPermutation(prog, c, a[1..], rest);
    }
  }

  // The first key of a, found in b and taken out.
  lemma {:induction false} MatchingKey(a: seq<Key>, b: seq<Key>) returns (j: nat, rest: seq<Key>)
    requires a != [] && multiset(a) == multiset(b)
    ensures j < |b| && b[j] == a[0] && rest == b[..j] + b[j + 1..]
    ensures multiset(a[1..]) == multiset(rest)
  {
    assert a[0] in multiset(b);
    j :| 0 <= j < |b| && b[j] == a[0];
    rest := b[..j] + b[j + 1..];
    assert a == [a[0]] + a[1..];
    assert b == b[..j] + [b[j]] + b[j + 1..];
    CancelOne(a[0], multiset(a[1..]), multiset(rest));
  }

  // ----- which scans a run performs -----

  // From one scan to another, following resolved calls one level deeper at a time.
  ghost predicate ScanPath(prog: Program, from: Key, to: Key, p: seq<FnId>) {
    && IsCallPath(prog, p) && p[0] == from.fn && p[|p| - 1] == to.fn
    && to.depth == from.depth + |p| - 1 <= MAX_THROW_FOLLOW_DEPTH
  }

  ghost predicate Scans(prog: Program, from: Key, to: Key) {
    exists p :: ScanPath(prog, from, to, p)
  }

  lemma ScansItself(prog: Program, k: Key)
    requires k.fn in prog && k.depth <= MAX_THROW_FOLLOW_DEPTH
    ensures Scans(prog, k, k)
  {
    assert ScanPath(prog, k, k, [k.fn]);
  }

  lemma ScansThrough(prog: Program, k: Key, g: FnId, to: Key)
    requires CallsTo(prog, k.fn, g) && Scans(prog, Key(g, k.depth + 1), to)
    ensures Scans(prog, k, to)
  {
    var p :| ScanPath(prog, Key(g, k.depth + 1), to, p);
    PathExtends(prog, k.fn, p);
    assert ScanPath(prog, k, to, [k.fn] + p);
  }
}
