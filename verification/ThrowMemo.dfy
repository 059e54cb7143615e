/** The throw walk as it runs: one memo table, one set of active scans and three counters, shared by
    all handlers. The table is transparent, the recursion guard never fires, every (function, depth)
    is scanned at most once, and the counters do not depend on the order of the handlers. */
module ThrowMemo {
  import opened Lists
  import opened ThrowScopes
  import opened ThrowScan
  import opened ThrowWalk

  // The functions of the analysed tree: well-formed bodies, calls resolved within the tree.
  predicate ValidTree(bodies: map<FnId, Body>) {
    && (forall f :: f in bodies ==> WellFormed(bodies[f]))
    && ValidProgram(Summaries(bodies))
  }

  function Summaries(bodies: map<FnId, Body>): Program {
    map f | f in bodies && WellFormed(bodies[f]) :: SummaryOf(bodies[f])
  }

  method Deduplicate(found: seq<ThrownStatus>) returns (deduped: seq<ThrownStatus>)
    ensures deduped == Dedup(found)
  {
    deduped := [];
    for j := 0 to |found|
      invariant deduped == Dedup(found[..j])
    {
      assert found[..j + 1][..j] == found[..j];
      if found[j] !in deduped {
        deduped := deduped + [found[j]];
      }
    }
    assert found[..|found|] == found;
  }

  // What was scanned since the log had `from` entries.
  function Since(log: seq<Key>, from: nat): seq<Key> {
    if from <= |log| then log[from..] else []
  }

  class ThrowAnalysis {
    const bodies: map<FnId, Body>
    ghost const prog: Program
    var cache: map<Key, seq<ThrownStatus>>
    var active: set<Key>
    var unfollowed: nat
    var truncated: nat
    var resolved: nat
    ghost var log: seq<Key>  // the scans completed, in order

    constructor (bodies: map<FnId, Body>)
      requires ValidTree(bodies)
      ensures this.bodies == bodies && Idle() && log == []
    {
      this.bodies := bodies;
      prog := Summaries(bodies);
      cache := map[];
      active := {};
      unfollowed, truncated, resolved := 0, 0, 0;
      log := [];
    }

    ghost predicate Valid()
      reads this
    {
      ValidTree(bodies) && prog == Summaries(bodies) && TableOk(prog, cache, log)
    }

    // Between two handlers.
    ghost predicate Idle()
      reads this
    {
      && Valid()
      && active == {}
      && unfollowed == TotalOf(prog, Unfollowed, log)
      && truncated == TotalOf(prog, Truncated, log)
      && resolved == TotalOf(prog, Resolved, log)
    }

    // The three passes over one function.
    method ScanFunction(fn: FnId) returns (own: seq<ThrownStatus>, calls: seq<Option<FnId>>)
      requires Valid() && fn in prog
      ensures own == prog[fn].own && calls == prog[fn].calls
    {
      var throws := ScanThrows(bodies[fn]);
      var parses := ScanParses(bodies[fn]);
      calls := ScanCalls(bodies[fn]);
      own := throws + parses;
    }

    // One call that leaves a function being scanned.
    method FollowCall(fn: FnId, depth: nat, call: Option<FnId>) returns (found: seq<ThrownStatus>)
      requires Valid() && fn in prog && call in prog[fn].calls && depth <= MAX_THROW_FOLLOW_DEPTH
      requires forall k :: k in active ==> k.depth <= depth
      modifies this
      ensures Valid() && active == old(active) && old(cache).Keys <= cache.Keys
      ensures found == WalkCall(prog, call, depth)
      ensures CalleeCached(cache, call, depth)
      ensures Grown(prog, Key(fn, depth), depth + 1, old(log), log)
      ensures unfollowed == old(unfollowed) + Increment(call, depth, Unfollowed)
          + TotalOf(prog, Unfollowed, Since(log, |old(log)|))
      ensures truncated == old(truncated) + Increment(call, depth, Truncated)
          + TotalOf(prog, Truncated, Since(log, |old(log)|))
      ensures resolved == old(resolved) + Increment(call, depth, Resolved)
          + TotalOf(prog, Resolved, Since(log, |old(log)|))
      decreases MAX_THROW_FOLLOW_DEPTH - depth, 0
    {
      found := [];
      if depth >= MAX_THROW_FOLLOW_DEPTH {
        NotGrown(prog, Key(fn, depth), depth + 1, log);
        truncated := truncated + 1;
      } else if call.None? {
        NotGrown(prog, Key(fn, depth), depth + 1, log);
        unfollowed := unfollowed + 1;
      } else {
        resolved := resolved + 1;
        found := EnterCallee(fn, depth, call.value);
      }
    }

    method EnterCallee(fn: FnId, depth: nat, callee: FnId) returns (found: seq<ThrownStatus>)
      requires Valid() && fn in prog && Some(callee) in prog[fn].calls && depth < MAX_THROW_FOLLOW_DEPTH
      requires forall k :: k in active ==> k.depth <= depth
      modifies this
      ensures Valid() && active == old(active) && old(cache).Keys <= cache.Keys
      ensures found == Walk(prog, callee, depth + 1) && Key(callee, depth + 1) in cache
      ensures Grown(prog, Key(fn, depth), depth + 1, old(log), log)
      ensures unfollowed == old(unfollowed) + TotalOf(prog, Unfollowed, Since(log, |old(log)|))
      ensures truncated == old(truncated) + TotalOf(prog, Truncated, Since(log, |old(log)|))
      ensures resolved == old(resolved) + TotalOf(prog, Resolved, Since(log, |old(log)|))
      decreases MAX_THROW_FOLLOW_DEPTH - depth - 1, 4
    {
      assert CallsTo(prog, fn, callee);
      found := CollectThrownStatuses(callee, depth + 1);
      GrownThrough(prog, fn, depth, callee, old(log), log);
    }

    // All of them, one after the other.
    method FollowCalls(fn: FnId, depth: nat, calls: seq<Option<FnId>>) returns (found: seq<ThrownStatus>)
      requires Valid() && fn in prog && calls == prog[fn].calls && depth <= MAX_THROW_FOLLOW_DEPTH
      requires forall k :: k in active ==> k.depth <= depth
      modifies this
      ensures Valid() && active == old(active) && old(cache).Keys <= cache.Keys
      ensures found == WalkCalls(prog, calls, depth)
      ensures CalleesCached(cache, calls, depth)
      ensures Grown(prog, Key(fn, depth), depth + 1, old(log), log)
      ensures unfollowed == old(unfollowed) + Tally(calls, depth, Unfollowed)
          + TotalOf(prog, Unfollowed, Since(log, |old(log)|))
      ensures truncated == old(truncated) + Tally(calls, depth, Truncated)
          + TotalOf(prog, Truncated, Since(log, |old(log)|))
      ensures resolved == old(resolved) + Tally(calls, depth, Resolved)
          + TotalOf(prog, Resolved, Since(log, |old(log)|))
      decreases MAX_THROW_FOLLOW_DEPTH - depth, 1, 1
    {
      found := [];
      NotGrown(prog, Key(fn, depth), depth + 1, log);
      for i := 0 to |calls|
        invariant Following(fn, depth, calls, i, found, old(log), old(unfollowed), old(truncated), old(resolved))
        invariant active == old(active) && old(cache).Keys <= cache.Keys
      {
        found := FollowNext(fn, depth, calls, i, found, old(log), old(unfollowed), old(truncated), old(resolved));
      }
      assert calls[..|calls|] == calls;
    }

    // The first i calls have been followed, since the log and the counters had the given values.
    ghost predicate Following(fn: FnId, depth: nat, calls: seq<Option<FnId>>, i: nat, found: seq<ThrownStatus>,
                              from: seq<Key>, u: nat, t: nat, r: nat)
      requires i <= |calls|
      reads this
    {
      && Valid() && fn in prog && calls == prog[fn].calls && depth <= MAX_THROW_FOLLOW_DEPTH
      && found == WalkCalls(prog, calls[..i], depth)
      && CalleesCached(cache, calls[..i], depth)
      && Grown(prog, Key(fn, depth), depth + 1, from, log)
      && unfollowed == u + Tally(calls[..i], depth, Unfollowed) + TotalOf(prog, Unfollowed, Since(log, |from|))
      && truncated == t + Tally(calls[..i], depth, Truncated) + TotalOf(prog, Truncated, Since(log, |from|))
      && resolved == r + Tally(calls[..i], depth, Resolved) + TotalOf(prog, Resolved, Since(log, |from|))
    }

    method FollowNext(fn: FnId, depth: nat, calls: seq<Option<FnId>>, i: nat, before: seq<ThrownStatus>,
                      ghost from: seq<Key>, ghost u: nat, ghost t: nat, ghost r: nat)
      returns (found: seq<ThrownStatus>)
      requires i < |calls| && Following(fn, depth, calls, i, before, from, u, t, r)
      requires forall k :: k in active ==> k.depth <= depth
      modifies this
      ensures Following(fn, depth, calls, i + 1, found, from, u, t, r)
      ensures active == old(active) && old(cache).Keys <= cache.Keys
      decreases MAX_THROW_FOLLOW_DEPTH - depth, 1, 0
    {
      var inner := FollowCall(fn, depth, calls[i]);
      found := before + inner;
      OneMoreCached(old(cache), cache, calls, depth, i);
      OneMoreCall(prog, calls, depth, i);
      GrownTwice(prog, Key(fn, depth), depth + 1, from, old(log), log);
      OneMoreCounted(prog, Unfollowed, calls, depth, i, from, old(log), log);
      OneMoreCounted(prog, Truncated, calls, depth, i, from, old(log), log);
      OneMoreCounted(prog, Resolved, calls, depth, i, from, old(log), log);
    }

    method CollectThrownStatuses(fn: FnId, depth: nat) returns (found: seq<ThrownStatus>)
      requires Valid() && fn in prog && depth <= MAX_THROW_FOLLOW_DEPTH
      requires forall k :: k in active ==> k.depth < depth
      modifies this
      ensures Valid() && active == old(active) && old(cache).Keys <= cache.Keys
      ensures found == Walk(prog, fn, depth)
      ensures Key(fn, depth) in cache
      ensures Grown(prog, Key(fn, depth), depth, old(log), log)
      ensures unfollowed == old(unfollowed) + TotalOf(prog, Unfollowed, Since(log, |old(log)|))
      ensures truncated == old(truncated) + TotalOf(prog, Truncated, Since(log, |old(log)|))
      ensures resolved == old(resolved) + TotalOf(prog, Resolved, Since(log, |old(log)|))
      decreases MAX_THROW_FOLLOW_DEPTH - depth, 3
    {
      var key := Key(fn, depth);
      if key in cache {
        assert EntryOk(prog, cache, key);
        return cache[key];
      }
      if key in active {
        assert false;
        return [];
      }
      found := ScanAndRecord(fn, depth);
    }

    // The scan proper, once neither the table nor the guard has answered.
    method ScanAndRecord(fn: FnId, depth: nat) returns (found: seq<ThrownStatus>)
      requires Valid() && fn in prog && depth <= MAX_THROW_FOLLOW_DEPTH && Key(fn, depth) !in cache
      requires forall k :: k in active ==> k.depth < depth
      modifies this
      ensures Valid() && active == old(active) && old(cache).Keys <= cache.Keys
      ensures found == Walk(prog, fn, depth)
      ensures Key(fn, depth) in cache
      ensures Grown(prog, Key(fn, depth), depth, old(log), log)
      ensures unfollowed == old(unfollowed) + TotalOf(prog, Unfollowed, Since(log, |old(log)|))
      ensures truncated == old(truncated) + TotalOf(prog, Truncated, Since(log, |old(log)|))
      ensures resolved == old(resolved) + TotalOf(prog, Resolved, Since(log, |old(log)|))
      decreases MAX_THROW_FOLLOW_DEPTH - depth, 2
    {
      var key := Key(fn, depth);
      found := ScanUnderGuard(fn, depth);
      Remember(key, found, old(log));
    }

    // The three passes, with the key marked as active.
    method ScanUnderGuard(fn: FnId, depth: nat) returns (found: seq<ThrownStatus>)
      requires Valid() && fn in prog && depth <= MAX_THROW_FOLLOW_DEPTH
      requires forall k :: k in active ==> k.depth < depth
      modifies this
      ensures Valid() && active == old(active) && old(cache).Keys <= cache.Keys
      ensures found == Walk(prog, fn, depth)
      ensures CalleesCached(cache, prog[fn].calls, depth)
      ensures Grown(prog, Key(fn, depth), depth + 1, old(log), log)
      ensures unfollowed == old(unfollowed) + Tally(prog[fn].calls, depth, Unfollowed)
          + TotalOf(prog, Unfollowed, Since(log, |old(log)|))
      ensures truncated == old(truncated) + Tally(prog[fn].calls, depth, Truncated)
          + TotalOf(prog, Truncated, Since(log, |old(log)|))
      ensures resolved == old(resolved) + Tally(prog[fn].calls, depth, Resolved)
          + TotalOf(prog, Resolved, Since(log, |old(log)|))
      decreases MAX_THROW_FOLLOW_DEPTH - depth, 1, 2
    {
      active := active + {Key(fn, depth)};
      var own, calls := ScanFunction(fn);
      var inner := FollowCalls(fn, depth, calls);
      active := active - {Key(fn, depth)};
      found := Deduplicate(own + inner);
    }

    // The finished scan of a key enters the table.
    method Remember(key: Key, found: seq<ThrownStatus>, ghost before: seq<Key>)
      requires Valid() && key.fn in prog && key.depth <= MAX_THROW_FOLLOW_DEPTH
      requires key !in before && Grown(prog, key, key.depth + 1, before, log)
      requires found == Walk(prog, key.fn, key.depth) && CalleesCached(cache, prog[key.fn].calls, key.depth)
      modifies this`cache, this`log
      ensures Valid() && cache == old(cache)[key := found] && log == old(log) + [key]
      ensures Grown(prog, key, key.depth, before, log)
      ensures OwnAdded(prog, Unfollowed, key, before, old(log), log)
      ensures OwnAdded(prog, Truncated, key, before, old(log), log)
      ensures OwnAdded(prog, Resolved, key, before, old(log), log)
    {
      NotLoggedBelow(prog, key, before, log);
      EntryAdded(prog, cache, log, key);
      GrownByItself(prog, key, before, log);
      OwnCounted(prog, Unfollowed, key, before, log);
      OwnCounted(prog, Truncated, key, before, log);
      OwnCounted(prog, Resolved, key, before, log);
      cache := cache[key := found];
      log := log + [key];
    }

    method ThrownStatusesForHandler(handler: FnId) returns (found: seq<ThrownStatus>)
      requires Idle() && handler in prog
      modifies this
      ensures Idle() && old(cache).Keys <= cache.Keys
      ensures found == Walk(prog, handler, 0)
      ensures Key(handler, 0) in cache
      ensures Grown(prog, Key(handler, 0), 0, old(log), log)
    {
      active := {};
      found := CollectThrownStatuses(handler, 0);
      TotalSince(prog, Unfollowed, old(log), log);
      TotalSince(prog, Truncated, old(log), log);
      TotalSince(prog, Resolved, old(log), log);
    }

    /** A whole run: every handler gets its uncached answer, and what was scanned is exactly what the
        handlers lead to, each once. */
    method AnalyseAll(handlers: seq<FnId>) returns (results: seq<seq<ThrownStatus>>)
      requires Idle() && log == [] && forall i :: 0 <= i < |handlers| ==> handlers[i] in prog
      modifies this
      ensures Idle()
      ensures AllAnswered(prog, handlers, results)
      ensures NoDuplicates(log) && forall k :: k in log <==> Scanned(prog, handlers, k)
    {
      results := [];
      for i := 0 to |handlers|
        invariant Idle()
        invariant AllAnswered(prog, handlers[..i], results)
        invariant HandlersCached(cache, handlers[..i])
        invariant forall k :: k in log ==> Scanned(prog, handlers, k)
      {
        ghost var before, cached := log, cache;
        var found := ThrownStatusesForHandler(handlers[i]);
        OneMoreHandler(cached, cache, handlers, i);
        OneMoreAnswer(prog, handlers, i, results, found);
        results := results + [found];
        ScannedGrows(prog, handlers, i, before, log);
      }
      assert handlers[..|handlers|] == handlers;
      TableHasScanned(prog, cache, log, handlers);
    }
  }

  // Scans one level deeper never log the key itself.
  lemma NotLoggedBelow(prog: Program, key: Key, before: seq<Key>, after: seq<Key>)
    requires Grown(prog, key, key.depth + 1, before, after) && key !in before
    ensures key !in after
  {
    assert after == before + Since(after, |before|);
  }

  // A callee that was followed has its own entry.
  ghost predicate CalleeCached(cache: map<Key, seq<ThrownStatus>>, call: Option<FnId>, depth: nat) {
    depth < MAX_THROW_FOLLOW_DEPTH && call.Some? ==> Key(call.value, depth + 1) in cache
  }

  ghost predicate CalleesCached(cache: map<Key, seq<ThrownStatus>>, calls: seq<Option<FnId>>, depth: nat) {
    forall i :: 0 <= i < |calls| ==> CalleeCached(cache, calls[i], depth)
  }

  lemma OneMoreCached(before: map<Key, seq<ThrownStatus>>, after: map<Key, seq<ThrownStatus>>,
                      calls: seq<Option<FnId>>, depth: nat, i: nat)
    requires i < |calls| && before.Keys <= after.Keys
    requires CalleesCached(before, calls[..i], depth) && CalleeCached(after, calls[i], depth)
    ensures CalleesCached(after, calls[..i + 1], depth)
  {
    var prefix, next := calls[..i], calls[..i + 1];
    forall j | 0 <= j < |next| ensures CalleeCached(after, next[j], depth) {
      if j < i {
        assert CalleeCached(before, prefix[j], depth);
      }
    }
  }

  lemma OneMoreCall(prog: Program, calls: seq<Option<FnId>>, depth: nat, i: nat)
    requires ValidProgram(prog) && AllIn(prog, calls) && depth <= MAX_THROW_FOLLOW_DEPTH && i < |calls|
    ensures WalkCalls(prog, calls[..i + 1], depth) == WalkCalls(prog, calls[..i], depth)
        + WalkCall(prog, calls[i], depth)
  {
    assert calls[..i + 1][..i] == calls[..i];
  }

  // Every cache entry is the uncached value, scans are logged once, and the table is closed under
  // the scans that an entry performed.
  ghost predicate TableOk(prog: Program, cache: map<Key, seq<ThrownStatus>>, log: seq<Key>)
    requires ValidProgram(prog)
  {
    && (forall k {:trigger EntryOk(prog, cache, k)} :: k in cache ==> EntryOk(prog, cache, k))
    && NoDuplicates(log)
    && (forall k :: k in log <==> k in cache)
  }

  ghost predicate EntryOk(prog: Program, cache: map<Key, seq<ThrownStatus>>, k: Key)
    requires ValidProgram(prog) && k in cache
  {
    && k.fn in prog && k.depth <= MAX_THROW_FOLLOW_DEPTH
    && cache[k] == Walk(prog, k.fn, k.depth)
    && CalleesCached(cache, prog[k.fn].calls, k.depth)
  }

  // The log grew by scans at a depth of at least `floor` that `key` leads to.
  ghost predicate Grown(prog: Program, key: Key, floor: nat, before: seq<Key>, after: seq<Key>) {
    && before <= after
    && forall k :: k in Since(after, |before|) ==> k.depth >= floor && Scans(prog, key, k)
  }

  lemma NotGrown(prog: Program, key: Key, floor: nat, log: seq<Key>)
    ensures Grown(prog, key, floor, log, log) && Since(log, |log|) == []
  {
  }

  lemma {:induction false} GrownThrough(prog: Program, fn: FnId, depth: nat, g: FnId, before: seq<Key>, after: seq<Key>)
    requires CallsTo(prog, fn, g)
    requires Grown(prog, Key(g, depth + 1), depth + 1, before, after)
    ensures Grown(prog, Key(fn, depth), depth + 1, before, after)
  {
    forall k | k in Since(after, |before|) ensures Scans(prog, Key(fn, depth), k) {
      ScansThrough(prog, Key(fn, depth), g, k);
    }
  }

  lemma {:induction false} GrownTwice(prog: Program, key: Key, floor: nat, a: seq<Key>, b: seq<Key>, c: seq<Key>)
    requires Grown(prog, key, floor, a, b) && Grown(prog, key, floor, b, c)
    ensures Grown(prog, key, floor, a, c)
  {
    assert Since(c, |a|) == Since(b, |a|) + Since(c, |b|);
  }

  // What one more call adds to a counter, when the log grows from a over b to c.
  lemma {:induction false} OneMoreCounted(prog: Program, n: Counter, calls: seq<Option<FnId>>, depth: nat, i: nat,
                                          a: seq<Key>, b: seq<Key>, c: seq<Key>)
    requires i < |calls| && a <= b <= c
    ensures Tally(calls[..i + 1], depth, n) + TotalOf(prog, n, Since(c, |a|))
         == Tally(calls[..i], depth, n) + TotalOf(prog, n, Since(b, |a|))
            + Increment(calls[i], depth, n) + TotalOf(prog, n, Since(c, |b|))
  {
    assert calls[..i + 1][..i] == calls[..i];
    assert Since(c, |a|) == Since(b, |a|) + Since(c, |b|);
    TotalOfAppend(prog, n, Since(b, |a|), Since(c, |b|));
  }

  // A finished scan is logged after everything it led to.
  lemma {:induction false} GrownByItself(prog: Program, key: Key, before: seq<Key>, after: seq<Key>)
    requires key.fn in prog && key.depth <= MAX_THROW_FOLLOW_DEPTH
    requires Grown(prog, key, key.depth + 1, before, after)
    ensures Grown(prog, key, key.depth, before, after + [key])
  {
    ScansItself(prog, key);
    assert Since(after + [key], |before|) == Since(after, |before|) + [key];
  }

  // Beyond what the scans below it counted, a counter has what the scan of the key itself counts.
  ghost predicate OwnAdded(prog: Program, n: Counter, key: Key, before: seq<Key>, below: seq<Key>, log: seq<Key>) {
    TotalOf(prog, n, Since(log, |before|)) == TotalOf(prog, n, Since(below, |before|)) + TallyOf(prog, n, key)
  }

  lemma {:induction false} OwnCounted(prog: Program, n: Counter, key: Key, before: seq<Key>, after: seq<Key>)
    requires before <= after
    ensures OwnAdded(prog, n, key, before, after, after + [key])
  {
    assert Since(after + [key], |before|) == Since(after, |before|) + [key];
    TotalOfAppend(prog, n, Since(after, |before|), [key]);
    assert [key][1..] == [];
  }

  lemma {:induction false} EntryAdded(prog: Program, cache: map<Key, seq<ThrownStatus>>, log: seq<Key>, key: Key)
    requires ValidProgram(prog) && TableOk(prog, cache, log) && key !in cache
    requires key.fn in prog && key.depth <= MAX_THROW_FOLLOW_DEPTH
    requires CalleesCached(cache, prog[key.fn].calls, key.depth)
    ensures TableOk(prog, cache[key := Walk(prog, key.fn, key.depth)], log + [key])
  {
    NoDuplicatesConcat(log, [key]);
    var after := cache[key := Walk(prog, key.fn, key.depth)];
    forall k | k in after ensures EntryOk(prog, after, k) {
      if k != key {
        assert EntryOk(prog, cache, k);
      }
    }
  }

  // The answer for a handler is its uncached walk, and it is in the table.
  ghost predicate Answered(prog: Program, handler: FnId, result: seq<ThrownStatus>) {
    ValidProgram(prog) && handler in prog && result == Walk(prog, handler, 0)
  }

  ghost predicate AllAnswered(prog: Program, handlers: seq<FnId>, results: seq<seq<ThrownStatus>>) {
    |results| == |handlers| && forall i :: 0 <= i < |handlers| ==> Answered(prog, handlers[i], results[i])
  }

  lemma OneMoreAnswer(prog: Program, handlers: seq<FnId>, i: nat, results: seq<seq<ThrownStatus>>,
                      found: seq<ThrownStatus>)
    requires i < |handlers| && AllAnswered(prog, handlers[..i], results) && Answered(prog, handlers[i], found)
    ensures AllAnswered(prog, handlers[..i + 1], results + [found])
  {
    var front, next := handlers[..i], handlers[..i + 1];
    forall j | 0 <= j < |next| ensures Answered(prog, next[j], (results + [found])[j]) {
      if j < i {
        assert Answered(prog, front[j], results[j]);
      }
    }
  }

  ghost predicate HandlersCached(cache: map<Key, seq<ThrownStatus>>, handlers: seq<FnId>) {
    forall h :: h in handlers ==> Key(h, 0) in cache
  }

  lemma OneMoreHandler(before: map<Key, seq<ThrownStatus>>, after: map<Key, seq<ThrownStatus>>, handlers: seq<FnId>,
                       i: nat)
    requires i < |handlers| && before.Keys <= after.Keys
    requires HandlersCached(before, handlers[..i]) && Key(handlers[i], 0) in after
    ensures HandlersCached(after, handlers[..i + 1])
  {
    assert handlers[..i + 1] == handlers[..i] + [handlers[i]];
    forall h | h in handlers[..i + 1] ensures Key(h, 0) in after {
      assert h in handlers[..i] ==> Key(h, 0) in before.Keys;
    }
  }

  // ----- what a run scans, and what it counts -----

  ghost predicate Scanned(prog: Program, handlers: seq<FnId>, k: Key) {
    exists i :: 0 <= i < |handlers| && Scans(prog, Key(handlers[i], 0), k)
  }

  lemma {:induction false} TotalSince(prog: Program, c: Counter, before: seq<Key>, after: seq<Key>)
    requires before <= after
    ensures TotalOf(prog, c, after) == TotalOf(prog, c, before) + TotalOf(prog, c, Since(after, |before|))
  {
    assert after == before + Since(after, |before|);
    TotalOfAppend(prog, c, before, Since(after, |before|));
  }

  lemma {:induction false} ScannedGrows(prog: Program, handlers: seq<FnId>, i: nat, before: seq<Key>, after: seq<Key>)
    requires i < |handlers| && Grown(prog, Key(handlers[i], 0), 0, before, after)
    requires forall k :: k in before ==> Scanned(prog, handlers, k)
    ensures forall k :: k in after ==> Scanned(prog, handlers, k)
  {
    assert after == before + Since(after, |before|);
  }

  lemma {:induction false} TableHasScanned(prog: Program, cache: map<Key, seq<ThrownStatus>>, log: seq<Key>,
                                           handlers: seq<FnId>)
    requires ValidProgram(prog) && TableOk(prog, cache, log)
    requires HandlersCached(cache, handlers)
    ensures forall k :: Scanned(prog, handlers, k) ==> k in log
  {
    forall k | Scanned(prog, handlers, k) ensures k in log {
      var i :| 0 <= i < |handlers| && Scans(prog, Key(handlers[i], 0), k);
      assert handlers[i] in handlers;
      TableHasScans(prog, cache, log, Key(handlers[i], 0), k);
    }
  }

  lemma {:induction false} TableHasScans(prog: Program, cache: map<Key, seq<ThrownStatus>>, log: seq<Key>, from: Key,
                                         to: Key)
    requires ValidProgram(prog) && TableOk(prog, cache, log) && from in cache && Scans(prog, from, to)
    ensures to in cache
  {
    var p :| ScanPath(prog, from, to, p);
    TableHasPath(prog, cache, log, from, to, p);
  }

  lemma {:induction false} TableHasPath(prog: Program, cache: map<Key, seq<ThrownStatus>>, log: seq<Key>, from: Key,
                                        to: Key, p: seq<FnId>)
    requires ValidProgram(prog) && TableOk(prog, cache, log) && from in cache && ScanPath(prog, from, to, p)
    ensures to in cache
    decreases |p|
  {
    if |p| > 1 {
      PathTail(prog, p);
      assert EntryOk(prog, cache, from);
      var i :| 0 <= i < |prog[p[0]].calls| && prog[p[0]].calls[i] == Some(p[1]);
      assert CalleeCached(cache, prog[p[0]].calls[i], from.depth);
      TableHasPath(prog, cache, log, Key(p[1], from.depth + 1), to, p[1..]);
    }
  }

  /** The counters of a run depend on the set of its handlers only, not on their order. */
  lemma {:induction false} CountersIgnoreOrder(prog: Program, a: seq<FnId>, b: seq<FnId>, logA: seq<Key>,
                                               logB: seq<Key>, c: Counter)
    requires forall h :: h in a <==> h in b
    requires NoDuplicates(logA) && forall k :: k in logA <==> Scanned(prog, a, k)
    requires NoDuplicates(logB) && forall k :: k in logB <==> Scanned(prog, b, k)
    ensures TotalOf(prog, c, logA) == TotalOf(prog, c, logB)
  {
    forall k ensures k in logA <==> k in logB {
      ScannedBySame(prog, a, b, k);
      ScannedBySame(prog, b, a, k);
    }
    SameElementsSameMultiset(logA, logB);
    TotalOfPermutation(prog, c, logA, logB);
  }

  lemma ScannedBySame(prog: Program, a: seq<FnId>, b: seq<FnId>, k: Key)
    requires forall h :: h in a ==> h in b
    ensures Scanned(prog, a, k) ==> Scanned(prog, b, k)
  {
    if Scanned(prog, a, k) {
      var i :| 0 <= i < |a| && Scans(prog, Key(a[i], 0), k);
      assert a[i] in b;
      var j :| 0 <= j < |b| && b[j] == a[i];
      assert Scans(prog, Key(b[j], 0), k);
    }
  }

  // ----- the answer for a handler, in terms of the analysed functions -----

  // p calls from function to function, no call swallowed where it is made.
  ghost predicate CallChain(bodies: map<FnId, Body>, p: seq<FnId>)
    requires ValidTree(bodies)
  {
    p != [] && p[0] in bodies && forall i :: 0 <= i < |p| - 1 ==> ChainStep(bodies, p, i)
  }

  ghost predicate ChainStep(bodies: map<FnId, Body>, p: seq<FnId>, i: nat)
    requires ValidTree(bodies) && i + 1 < |p|
  {
    p[i] in bodies && p[i + 1] in bodies && Calls(bodies[p[i]], p[i + 1])
  }

  ghost predicate ThrownAtEnd(bodies: map<FnId, Body>, p: seq<FnId>, handler: FnId, s: ThrownStatus)
    requires ValidTree(bodies)
  {
    CallChain(bodies, p) && p[0] == handler && p[|p| - 1] in bodies && ThrowsDirectly(bodies[p[|p| - 1]], s)
  }

  lemma {:induction false} ChainsAgree(bodies: map<FnId, Body>, p: seq<FnId>, handler: FnId, s: ThrownStatus)
    requires ValidTree(bodies)
    ensures ThrownAtEnd(bodies, p, handler, s) <==> ThrownAlong(Summaries(bodies), p, handler, s)
  {
    var prog := Summaries(bodies);
    forall i | 0 <= i < |p| - 1 ensures ChainStep(bodies, p, i) <==> StepOk(prog, p, i) {
      if p[i] in bodies && p[i + 1] in bodies {
        SummarySays(bodies[p[i]], s, p[i + 1]);
      }
    }
    if p != [] && p[|p| - 1] in bodies {
      SummarySays(bodies[p[|p| - 1]], s, handler);
    }
  }

  /** The statuses reported for a handler are exactly those that some chain of at most two resolved
      calls can throw without any `try` on the way swallowing them; none is reported twice. */
  lemma {:induction false} HandlerStatusesExact(bodies: map<FnId, Body>, handler: FnId, s: ThrownStatus)
    requires ValidTree(bodies) && handler in bodies
    ensures handler in Summaries(bodies) && NoDuplicates(Walk(Summaries(bodies), handler, 0))
    ensures s in Walk(Summaries(bodies), handler, 0) <==>
              exists p :: ThrownAtEnd(bodies, p, handler, s) && |p| - 1 <= 2
  {
    WalkIsPathSemantics(Summaries(bodies), handler, 0, s);
    forall p ensures ThrownAtEnd(bodies, p, handler, s) <==> ThrownAlong(Summaries(bodies), p, handler, s) {
      ChainsAgree(bodies, p, handler, s);
    }
  }
}
