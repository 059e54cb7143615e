/** The flight recorder: status transitions found by diffing one snapshot of the workspaces against
    the last status seen of each, reset whenever another project is opened. */
module FlightRecorder {
  import opened Lists

  datatype Observation = Observation(id: string, status: string, isDirect: bool)

  datatype Transition = Transition(id: string, from: string, to: string)

  function Active(snapshot: seq<Observation>): seq<Observation> {
    if snapshot == [] then []
    else (if snapshot[0].isDirect then [] else [snapshot[0]]) + Active(snapshot[1..])
  }

  // ----- the diff -----

  // The last status of every workspace, after the observations.
  function Latest(prev: map<string, string>, obs: seq<Observation>): map<string, string> {
    if obs == [] then prev
    else Latest(prev, obs[..|obs| - 1])[obs[|obs| - 1].id := obs[|obs| - 1].status]
  }

  function Emitted(prev: map<string, string>, o: Observation): seq<Transition> {
    if o.id in prev && prev[o.id] != o.status then [Transition(o.id, prev[o.id], o.status)] else []
  }

  function Fresh(prev: map<string, string>, obs: seq<Observation>): seq<Transition> {
    if obs == [] then []
    else
      var front := obs[..|obs| - 1];
      Fresh(prev, front) + Emitted(Latest(prev, front), obs[|obs| - 1])
  }

  datatype Feed = Feed(project: Option<string>, prev: map<string, string>, raw: seq<Transition>,
                       shown: seq<Observation>)

  // A response is applied whatever project is open by the time it arrives.
  datatype Event = Open(project: Option<string>) | Response(owner: string, snapshot: seq<Observation>)

  function Step(f: Feed, e: Event): Feed {
    match e
    case Open(project) =>
      if project == f.project then f
      else if project == None then f.(project := None)
      else f.(project := project, prev := map[], raw := [])
    case Response(_, snapshot) =>
      f.(prev := Latest(f.prev, Active(snapshot)), raw := f.raw + Fresh(f.prev, Active(snapshot)),
         shown := Active(snapshot))
  }

  function Run(events: seq<Event>): Feed {
    if events == [] then Feed(None, map[], [], []) else Step(Run(events[..|events| - 1]), events[|events| - 1])
  }

  class Recorder {
    var project: Option<string>
    var prev: map<string, string>
    var raw: seq<Transition>
    var shown: seq<Observation>

    ghost function Now(): Feed
      reads this
    {
      Feed(project, prev, raw, shown)
    }

    constructor ()
      ensures Now() == Run([])
    {
      project, prev, raw, shown := None, map[], [], [];
    }

    method OpenProject(next: Option<string>)
      modifies this
      ensures Now() == Step(old(Now()), Open(next))
    {
      if next == project {
        return;
      }
      project := next;
      if next == None {
        return;
      }
      prev := map[];
      raw := [];
    }

    method Arrived(owner: string, snapshot: seq<Observation>)
      modifies this
      ensures Now() == Step(old(Now()), Response(owner, snapshot))
    {
      var active := Active(snapshot);
      var found: seq<Transition> := [];
      ghost var start := prev;
      for i := 0 to |active|
        invariant project == old(project) && raw == old(raw) && shown == old(shown)
        invariant prev == Latest(start, active[..i]) && found == Fresh(start, active[..i])
      {
        assert active[..i + 1][..i] == active[..i];
        var w := active[i];
        var from := if w.id in prev then Some(prev[w.id]) else None;
        prev := prev[w.id := w.status];
        if from == None || from.value == w.status {
          continue;
        }
        found := found + [Transition(w.id, from.value, w.status)];
      }
      assert active[..|active|] == active;
      shown := active;
      if |found| > 0 {
        raw := raw + found;
      }
    }
  }

  // ----- what the transitions mean -----

  // The statuses one workspace was seen in, in order.
  function Statuses(obs: seq<Observation>, id: string): seq<string> {
    if obs == [] then []
    else Statuses(obs[..|obs| - 1], id) + if obs[|obs| - 1].id == id then [obs[|obs| - 1].status] else []
  }

  // One transition for each place where the status changed.
  function Changes(id: string, statuses: seq<string>): seq<Transition> {
    if |statuses| < 2 then []
    else
      var from, to := statuses[|statuses| - 2], statuses[|statuses| - 1];
      Changes(id, statuses[..|statuses| - 1]) + if from == to then [] else [Transition(id, from, to)]
  }

  function StepsOf(ts: seq<Transition>, id: string): seq<Transition> {
    if ts == [] then []
    else StepsOf(ts[..|ts| - 1], id) + if ts[|ts| - 1].id == id then [ts[|ts| - 1]] else []
  }

  lemma {:induction false} LatestIsLast(obs: seq<Observation>, id: string)
    ensures id in Latest(map[], obs) <==> Statuses(obs, id) != []
    ensures id in Latest(map[], obs) ==> Latest(map[], obs)[id] == Statuses(obs, id)[|Statuses(obs, id)| - 1]
  {
    if obs != [] {
      LatestIsLast(obs[..|obs| - 1], id);
    }
  }

  lemma StepsOfOneMore(ts: seq<Transition>, more: seq<Transition>, id: string)
    requires |more| <= 1
    ensures StepsOf(ts + more, id) == StepsOf(ts, id) + if more != [] && more[0].id == id then more else []
  {
    if more == [] {
      assert ts + more == ts;
    } else {
      assert (ts + more)[..|ts + more| - 1] == ts;
    }
  }

  lemma ChangesOneMore(id: string, statuses: seq<string>, status: string)
    ensures Changes(id, statuses + [status])
         == Changes(id, statuses)
            + if statuses != [] && statuses[|statuses| - 1] != status
              then [Transition(id, statuses[|statuses| - 1], status)] else []
  {
    assert (statuses + [status])[..|statuses|] == statuses;
  }

  /** The transitions of a workspace are exactly the changes in the statuses it was seen in, however
      often it vanished and came back, and whatever happened to the others. */
  lemma {:induction false} ExactChanges(obs: seq<Observation>, id: string)
    ensures StepsOf(Fresh(map[], obs), id) == Changes(id, Statuses(obs, id))
  {
    if obs != [] {
      var front, o := obs[..|obs| - 1], obs[|obs| - 1];
      ExactChanges(front, id);
      LatestIsLast(front, id);
      StepsOfOneMore(Fresh(map[], front), Emitted(Latest(map[], front), o), id);
      if o.id == id {
        ChangesOneMore(id, Statuses(front, id), o.status);
      } else {
        assert Statuses(obs, id) == Statuses(front, id);
      }
    }
  }

  // The changes never step in place, and lead from the first status to the last one.
  lemma {:induction false} ChangesChain(id: string, statuses: seq<string>)
    requires statuses != []
    ensures var ts := Changes(id, statuses);
            && (forall i :: 0 <= i < |ts| ==> ts[i].from != ts[i].to)
            && (forall i :: 0 <= i < |ts| - 1 ==> ts[i].to == ts[i + 1].from)
            && (if ts == [] then statuses[0] == statuses[|statuses| - 1]
                else ts[0].from == statuses[0] && ts[|ts| - 1].to == statuses[|statuses| - 1])
  {
    if |statuses| >= 2 {
      ChangesChain(id, statuses[..|statuses| - 1]);
    }
  }

  // ----- replaying -----

  function Firsts(obs: seq<Observation>): map<string, string> {
    if obs == [] then map[]
    else
      var front, o := Firsts(obs[..|obs| - 1]), obs[|obs| - 1];
      if o.id in front then front else front[o.id := o.status]
  }

  // Fails on a transition that does not start where the workspace is.
  function Replay(m: map<string, string>, ts: seq<Transition>): Option<map<string, string>> {
    if ts == [] then Some(m)
    else
      var t := ts[|ts| - 1];
      match Replay(m, ts[..|ts| - 1])
      case None => None
      case Some(before) => if t.id in before && before[t.id] == t.from then Some(before[t.id := t.to]) else None
  }

  lemma {:induction false} SeenOnce(obs: seq<Observation>)
    ensures Firsts(obs).Keys == Latest(map[], obs).Keys
    ensures forall t :: t in Fresh(map[], obs) ==> t.id in Latest(map[], obs)
  {
    if obs != [] {
      SeenOnce(obs[..|obs| - 1]);
    }
  }

  lemma {:induction false} ReplayBeside(m: map<string, string>, ts: seq<Transition>, id: string, status: string)
    requires forall t :: t in ts ==> t.id != id
    requires Replay(m, ts).Some?
    ensures Replay(m[id := status], ts) == Some(Replay(m, ts).value[id := status])
  {
    if ts != [] {
      ReplayBeside(m, ts[..|ts| - 1], id, status);
      var t, before := ts[|ts| - 1], Replay(m, ts[..|ts| - 1]).value;
      assert before[t.id := t.to][id := status] == before[id := status][t.id := t.to];
    }
  }

  lemma ReplayOneMore(m: map<string, string>, ts: seq<Transition>, prev: map<string, string>, o: Observation)
    requires Replay(m, ts) == Some(prev) && o.id in prev
    ensures Replay(m, ts + Emitted(prev, o)) == Some(prev[o.id := o.status])
  {
    if prev[o.id] == o.status {
      assert ts + Emitted(prev, o) == ts && prev[o.id := o.status] == prev;
    } else {
      var more := ts + Emitted(prev, o);
      assert more[..|more| - 1] == ts;
    }
  }

  /** Replaying the transitions over the first statuses rebuilds the latest ones. */
  lemma {:induction false} ReplayRebuilds(obs: seq<Observation>)
    ensures Replay(Firsts(obs), Fresh(map[], obs)) == Some(Latest(map[], obs))
  {
    if obs != [] {
      var front, o := obs[..|obs| - 1], obs[|obs| - 1];
      var ts := Fresh(map[], front);
      ReplayRebuilds(front);
      SeenOnce(front);
      if o.id in Firsts(front) {
        ReplayOneMore(Firsts(front), ts, Latest(map[], front), o);
      } else {
        ReplayBeside(Firsts(front), ts, o.id, o.status);
        assert ts + Emitted(Latest(map[], front), o) == ts;
      }
    }
  }

  // ----- projects -----

  // What was observed since the recorder was last reset, by the responses for owner only when given.
  function Since(events: seq<Event>, owner: Option<string>): seq<Observation> {
    if events == [] then []
    else
      var front, e := events[..|events| - 1], events[|events| - 1];
      match e
      case Open(project) => if project != None && project != Run(front).project then [] else Since(front, owner)
      case Response(from, snapshot) =>
        Since(front, owner) + if owner == None || owner == Some(from) then Active(snapshot) else []
  }

  lemma {:induction false} DiffsCompose(a: seq<Observation>, b: seq<Observation>)
    ensures Latest(map[], a + b) == Latest(Latest(map[], a), b)
    ensures Fresh(map[], a + b) == Fresh(map[], a) + Fresh(Latest(map[], a), b)
  {
    if b == [] {
      assert a + b == a;
    } else {
      assert (a + b)[..|a + b| - 1] == a + b[..|b| - 1];
      DiffsCompose(a, b[..|b| - 1]);
    }
  }

  // Responses one by one are one long diff.
  lemma {:induction false} RunIsOneDiff(events: seq<Event>)
    ensures Run(events).prev == Latest(map[], Since(events, None))
        && Run(events).raw == Fresh(map[], Since(events, None))
  {
    if events != [] {
      var front, e := events[..|events| - 1], events[|events| - 1];
      RunIsOneDiff(front);
      if e.Response? {
        DiffsCompose(Since(front, None), Active(e.snapshot));
      }
    }
  }

  // Every response lists workspaces of its own project.
  ghost predicate Owned(events: seq<Event>, home: map<string, string>) {
    forall e, o :: e in events && e.Response? && o in e.snapshot ==> o.id in home && home[o.id] == e.owner
  }

  lemma {:induction false} StatusesOfConcat(a: seq<Observation>, b: seq<Observation>, id: string)
    ensures Statuses(a + b, id) == Statuses(a, id) + Statuses(b, id)
  {
    if b == [] {
      assert a + b == a;
    } else {
      assert (a + b)[..|a + b| - 1] == a + b[..|b| - 1];
      StatusesOfConcat(a, b[..|b| - 1], id);
    }
  }

  lemma {:induction false} StatusesOfOthers(obs: seq<Observation>, id: string)
    requires forall o :: o in obs ==> o.id != id
    ensures Statuses(obs, id) == []
  {
    if obs != [] {
      StatusesOfOthers(obs[..|obs| - 1], id);
    }
  }

  lemma {:induction false} ActiveIsPart(snapshot: seq<Observation>)
    ensures forall o :: o in Active(snapshot) <==> o in snapshot && !o.isDirect
  {
    if snapshot != [] {
      ActiveIsPart(snapshot[1..]);
    }
  }

  lemma {:induction false} OwnStatuses(events: seq<Event>, home: map<string, string>, id: string)
    requires Owned(events, home) && id in home
    ensures Statuses(Since(events, None), id) == Statuses(Since(events, Some(home[id])), id)
  {
    if events != [] {
      var front, e := events[..|events| - 1], events[|events| - 1];
      OwnStatuses(front, home, id);
      if e.Response? {
        var mine := Active(e.snapshot);
        ActiveIsPart(e.snapshot);
        StatusesOfConcat(Since(front, None), mine, id);
        StatusesOfConcat(Since(front, Some(home[id])), mine, id);
        if e.owner != home[id] {
          assert e in events;
          StatusesOfOthers(mine, id);
          assert Since(front, Some(home[id])) + [] == Since(front, Some(home[id]));
        }
      }
    }
  }

  // The project that is open.
  function OpenAfter(events: seq<Event>): Option<string> {
    if events == [] then None
    else
      match events[|events| - 1]
      case Open(project) => project
      case Response(_, _) => OpenAfter(events[..|events| - 1])
  }

  // The statuses in which a snapshot shows a workspace; direct ones are left out.
  function SeenIn(snapshot: seq<Observation>, id: string): seq<string> {
    if snapshot == [] then []
    else
      (if snapshot[0].id == id && !snapshot[0].isDirect then [snapshot[0].status] else []) + SeenIn(snapshot[1..], id)
  }

  // The statuses in which its own project's responses showed it, since another project was last opened.
  function SeenSince(events: seq<Event>, owner: string, id: string): seq<string> {
    if events == [] then []
    else
      var front := events[..|events| - 1];
      match events[|events| - 1]
      case Open(project) => if project.Some? && project != OpenAfter(front) then [] else SeenSince(front, owner, id)
      case Response(from, snapshot) => SeenSince(front, owner, id) + if from == owner then SeenIn(snapshot, id) else []
  }

  lemma {:induction false} OpenIsProject(events: seq<Event>)
    ensures Run(events).project == OpenAfter(events)
  {
    if events != [] {
      OpenIsProject(events[..|events| - 1]);
    }
  }

  lemma StatusesOfOne(o: Observation, id: string)
    ensures Statuses([o], id) == if o.id == id then [o.status] else []
  {
    assert [o][..0] == [];
  }

  lemma {:induction false} ActiveStatuses(snapshot: seq<Observation>, id: string)
    ensures Statuses(Active(snapshot), id) == SeenIn(snapshot, id)
  {
    if snapshot != [] {
      var o, rest := snapshot[0], Active(snapshot[1..]);
      ActiveStatuses(snapshot[1..], id);
      if o.isDirect {
        assert Active(snapshot) == rest;
      } else {
        StatusesOfConcat([o], rest, id);
        StatusesOfOne(o, id);
      }
    }
  }

  lemma {:induction false} SinceIsSeen(events: seq<Event>, owner: string, id: string)
    ensures Statuses(Since(events, Some(owner)), id) == SeenSince(events, owner, id)
  {
    if events != [] {
      var front, e := events[..|events| - 1], events[|events| - 1];
      SinceIsSeen(front, owner, id);
      OpenIsProject(front);
      if e.Response? && e.owner == owner {
        StatusesOfConcat(Since(front, Some(owner)), Active(e.snapshot), id);
        ActiveStatuses(e.snapshot, id);
      } else if e.Response? {
        assert Since(front, Some(owner)) + [] == Since(front, Some(owner));
      }
    }
  }

  /** Over any run, the transitions on record for a workspace are the changes in its statuses since
      the reset - late responses of another project do not disturb them. */
  lemma RecordedExactly(events: seq<Event>, home: map<string, string>, id: string)
    requires Owned(events, home) && id in home
    ensures StepsOf(Run(events).raw, id) == Changes(id, SeenSince(events, home[id], id))
  {
    SinceIsSeen(events, home[id], id);
    RunIsOneDiff(events);
    ExactChanges(Since(events, None), id);
    OwnStatuses(events, home, id);
  }

  lemma OneObservation(prev: map<string, string>, o: Observation)
    requires !o.isDirect
    ensures Active([o]) == [o]
    ensures Latest(prev, [o]) == prev[o.id := o.status] && Fresh(prev, [o]) == Emitted(prev, o)
  {
    assert [o][..0] == [] && [o][1..] == [];
  }

  // But two late responses do put a transition of the other project on record.
  lemma LateResponsesLeak(p: string, q: string, w: string, a: string, b: string)
    requires p != q && a != b
    ensures var late := [Open(Some(p)), Open(Some(q)), Response(p, [Observation(w, a, false)]),
                         Response(p, [Observation(w, b, false)])];
            Run(late).project == Some(q) && Run(late).raw == [Transition(w, a, b)]
  {
    var o0, o1 := Observation(w, a, false), Observation(w, b, false);
    var late := [Open(Some(p)), Open(Some(q)), Response(p, [o0]), Response(p, [o1])];
    assert late[..3][..2] == late[..2] && late[..2][..1] == late[..1] && late[..1][..0] == [];
    assert Run(late[..1]) == Step(Run([]), Open(Some(p)));
    assert Run(late[..2]) == Step(Run(late[..1]), Open(Some(q)));
    OneObservation(map[], o0);
    OneObservation(map[w := a], o1);
    assert Run(late[..3]) == Step(Run(late[..2]), Response(p, [o0]));
    assert Run(late) == Step(Run(late[..3]), Response(p, [o1]));
  }
}
