/** The question badge: one counter, many overlapping requests, and a generation number that says
    which answer is still wanted. Every interleaving of renders, effects, polls, refreshes and late
    or failed answers is a run of `Step`. */
module QuestionBadge {
  import opened Lists

  datatype Write = Write(generation: nat, value: nat)

  // issued and settled record every request and every answer so far, writes every change of the count.
  datatype State = State(
    committed: Option<string>, pending: bool, effected: Option<string>,
    generation: nat, count: nat,
    issued: map<nat, string>, settled: map<nat, nat>, writes: seq<Write>)
  {
    predicate InFlight(g: nat) {
      g in issued && g !in settled
    }
  }

  datatype Event =
    | Commit(project: Option<string>)
    | RunEffects
    | Poll
    | WsRefresh
    | Answer(generation: nat, questions: nat)
    | Fail(generation: nat)

  // The first render: its effects have yet to run.
  function Mounted(project: Option<string>): State {
    State(project, true, None, 0, 0, map[], map[], [])
  }

  function Load(s: State, project: Option<string>): State {
    if project == None then s
    else s.(generation := s.generation + 1, issued := s.issued[s.generation + 1 := project.value])
  }

  function Effects(s: State): State {
    if !s.pending then s
    else
      var t := s.(pending := false, effected := s.committed);
      if s.committed == None then
        t.(generation := s.generation + 1, count := 0, writes := s.writes + [Write(s.generation + 1, 0)])
      else Load(t, s.committed)
  }

  // A failed request counts as no questions. Only an answer of the current generation is written.
  function Settle(s: State, g: nat, value: nat): State {
    if !s.InFlight(g) then s
    else
      var t := s.(settled := s.settled[g := value]);
      if s.generation == g then t.(count := value, writes := s.writes + [Write(g, value)]) else t
  }

  function Step(s: State, e: Event): State {
    match e
    case Commit(project) =>
      // The effects of one render run before the next render starts.
      var t := Effects(s);
      if project == t.committed then t else t.(committed := project, pending := true)
    case RunEffects => Effects(s)
    case Poll => Load(s, s.effected)
    case WsRefresh => if s.effected == None then s else Load(s, s.committed)
    case Answer(g, questions) => Settle(s, g, questions)
    case Fail(g) => Settle(s, g, 0)
  }

  function Run(s: State, events: seq<Event>): State {
    if events == [] then s else Step(Run(s, events[..|events| - 1]), events[|events| - 1])
  }

  // ----- the hook -----

  class Badge {
    var committed: Option<string>
    var pending: bool
    var effected: Option<string>
    var generation: nat
    var count: nat
    ghost var issued: map<nat, string>
    ghost var settled: map<nat, nat>
    ghost var writes: seq<Write>

    ghost function Now(): State
      reads this
    {
      State(committed, pending, effected, generation, count, issued, settled, writes)
    }

    constructor (project: Option<string>)
      ensures Now() == Mounted(project)
    {
      committed, pending, effected := project, true, None;
      generation, count := 0, 0;
      issued, settled, writes := map[], map[], [];
    }

    method SetCount(value: nat)
      modifies this`count, this`writes
      ensures Now() == old(Now()).(count := value, writes := old(writes) + [Write(generation, value)])
    {
      count := value;
      writes := writes + [Write(generation, value)];
    }

    // Issues a request and keeps the generation it was issued under.
    method StartLoad(project: Option<string>) returns (mine: Option<nat>)
      modifies this`generation, this`issued
      ensures Now() == Load(old(Now()), project)
      ensures mine == if project == None then None else Some(generation)
    {
      if project == None {
        return None;
      }
      generation := generation + 1;
      issued := issued[generation := project.value];
      return Some(generation);
    }

    method FinishLoad(mine: nat, answer: Option<nat>)
      requires Now().InFlight(mine)
      modifies this`count, this`settled, this`writes
      ensures Now() == Step(old(Now()), match answer case Some(n) => Answer(mine, n) case None => Fail(mine))
    {
      var value := match answer case Some(n) => n case None => 0;
      settled := settled[mine := value];
      if generation == mine {
        SetCount(value);
      }
    }

    method RunEffect() returns (mine: Option<nat>)
      modifies this
      ensures Now() == Step(old(Now()), RunEffects)
      ensures mine.Some? ==> mine.value == generation
    {
      mine := None;
      if !pending {
        return;
      }
      pending, effected := false, committed;
      if committed == None {
        generation := generation + 1;
        SetCount(0);
        return;
      }
      mine := StartLoad(committed);
    }

    method Render(project: Option<string>) returns (mine: Option<nat>)
      modifies this
      ensures Now() == Step(old(Now()), Commit(project))
    {
      mine := RunEffect();
      if project != committed {
        committed, pending := project, true;
      }
    }

    method Tick() returns (mine: Option<nat>)
      modifies this
      ensures Now() == Step(old(Now()), Poll)
    {
      mine := StartLoad(effected);
    }

    method Refresh() returns (mine: Option<nat>)
      modifies this
      ensures Now() == Step(old(Now()), WsRefresh)
    {
      mine := None;
      if effected != None {
        mine := StartLoad(committed);
      }
    }
  }

  // ----- what every run keeps -----

  // The generations were handed out to loads or used up by clearing the count.
  ghost predicate Numbered(s: State) {
    && (forall g :: g in s.issued ==> 1 <= g <= s.generation)
    && (forall g :: g in s.settled ==> g in s.issued)
  }

  ghost predicate WritesInOrder(s: State) {
    && (forall i, j :: 0 <= i < j < |s.writes| ==> s.writes[i].generation < s.writes[j].generation)
    && (forall i :: 0 <= i < |s.writes| ==> s.writes[i].generation <= s.generation)
    && (s.InFlight(s.generation) ==> forall i :: 0 <= i < |s.writes| ==> s.writes[i].generation < s.generation)
  }

  // The count is the answer to the newest generation, once that is known.
  ghost predicate Current(s: State) {
    && (s.generation in s.settled ==> s.count == s.settled[s.generation])
    && (s.generation !in s.issued ==> s.count == 0)
  }

  // Once the effects have run, everything is about the shown project.
  ghost predicate Aligned(s: State) {
    !s.pending ==>
      && s.effected == s.committed
      && match s.committed
         case None => s.generation !in s.issued
         case Some(p) => s.generation in s.issued && s.issued[s.generation] == p
  }

  // Until then, the newest load is for the project shown before or for the one shown now.
  ghost predicate BetweenTwo(s: State) {
    s.pending ==>
      && (s.effected.Some? ==> s.effected != s.committed)
      && (s.generation in s.issued ==>
            s.effected.Some? && Some(s.issued[s.generation]) in {s.effected, s.committed})
  }

  ghost predicate Inv(s: State) {
    Numbered(s) && WritesInOrder(s) && Current(s) && Aligned(s) && BetweenTwo(s)
  }

  lemma LoadKeeps(s: State, project: Option<string>)
    requires Numbered(s) && WritesInOrder(s)
    ensures Numbered(Load(s, project)) && WritesInOrder(Load(s, project))
    ensures project.Some? ==> Current(Load(s, project))
  {
  }

  lemma EffectsKeep(s: State)
    requires Inv(s)
    ensures Inv(Effects(s)) && !Effects(s).pending
  {
    if s.pending && s.committed.Some? {
      LoadKeeps(s.(pending := false, effected := s.committed), s.committed);
    }
  }

  lemma SettleKeeps(s: State, g: nat, value: nat)
    requires Inv(s)
    ensures Inv(Settle(s, g, value))
  {
  }

  lemma StepKeeps(s: State, e: Event)
    requires Inv(s)
    ensures Inv(Step(s, e))
  {
    match e
    case Commit(_) => EffectsKeep(s);
    case RunEffects => EffectsKeep(s);
    case Poll => LoadKeeps(s, s.effected);
    case WsRefresh => LoadKeeps(s, s.committed);
    case Answer(g, questions) => SettleKeeps(s, g, questions);
    case Fail(g) => SettleKeeps(s, g, 0);
  }

  lemma {:induction false} RunKeeps(s: State, events: seq<Event>)
    requires Inv(s)
    ensures Inv(Run(s, events))
  {
    if events != [] {
      RunKeeps(s, events[..|events| - 1]);
      StepKeeps(Run(s, events[..|events| - 1]), events[|events| - 1]);
    }
  }

  /** A request that may still write the count was issued for the shown project exactly when the
      effects of the last render have run, or it is not one for the project they ran for last. */
  lemma WantedAnswerIsOurs(project: Option<string>, events: seq<Event>, g: nat)
    requires var s := Run(Mounted(project), events); s.InFlight(g) && g == s.generation
    ensures var s := Run(Mounted(project), events);
            s.committed == Some(s.issued[g]) <==> !s.pending || s.effected != Some(s.issued[g])
  {
    RunKeeps(Mounted(project), events);
  }

  /** The generations that write the count strictly increase, so no answer overwrites a newer one. */
  lemma WritesIncrease(project: Option<string>, events: seq<Event>, i: nat, j: nat)
    requires i < j < |Run(Mounted(project), events).writes|
    ensures var s := Run(Mounted(project), events); s.writes[i].generation < s.writes[j].generation <= s.generation
  {
    RunKeeps(Mounted(project), events);
  }

  /** When nothing is in flight, the badge shows the answer to the last load, which was for the shown
      project - nothing when that load failed or no project is shown. */
  lemma QuiescentCount(project: Option<string>, events: seq<Event>)
    requires var s := Run(Mounted(project), events); !s.pending && forall g :: g in s.issued ==> g in s.settled
    ensures var s := Run(Mounted(project), events);
            match s.committed
            case None => s.count == 0
            case Some(p) =>
              s.generation in s.issued && s.issued[s.generation] == p
              && s.generation in s.settled && s.count == s.settled[s.generation]
  {
    RunKeeps(Mounted(project), events);
  }

  lemma {:induction false} RunAppend(s: State, a: seq<Event>, b: seq<Event>)
    ensures Run(s, a + b) == Run(Run(s, a), b)
  {
    if b == [] {
      assert a + b == a;
    } else {
      assert (a + b)[..|a + b| - 1] == a + b[..|b| - 1];
      RunAppend(s, a, b[..|b| - 1]);
    }
  }

  // No later event changes an answer.
  lemma {:induction false} SettledStays(s: State, events: seq<Event>, g: nat)
    requires g in s.settled
    ensures g in Run(s, events).settled && Run(s, events).settled[g] == s.settled[g]
  {
    if events != [] {
      SettledStays(s, events[..|events| - 1], g);
    }
  }

  /** As long as no newer load is issued, the badge shows what the request was answered with, and 0 if
      it failed, whatever else happens in between. */
  lemma AnsweredIsShown(project: Option<string>, before: seq<Event>, g: nat, answer: Option<nat>, after: seq<Event>)
    requires Run(Mounted(project), before).InFlight(g)
    requires var e := if answer.Some? then Answer(g, answer.value) else Fail(g);
             Run(Mounted(project), before + [e] + after).generation == g
    ensures var e := if answer.Some? then Answer(g, answer.value) else Fail(g);
            Run(Mounted(project), before + [e] + after).count == if answer.Some? then answer.value else 0
  {
    var start, e := Mounted(project), if answer.Some? then Answer(g, answer.value) else Fail(g);
    var at := Run(start, before);
    RunAppend(start, before + [e], after);
    RunAppend(start, before, [e]);
    assert [e][..0] == [] && Run(at, [e]) == Step(at, e);
    SettledStays(Step(at, e), after, g);
    RunKeeps(start, before + [e] + after);
  }

  // So between a render and its effects, the old project's answer is still written.
  lemma LateAnswerBeforeEffects(old': string, new': string, n: nat)
    requires old' != new'
    ensures var s := Run(Mounted(Some(old')), [RunEffects, Commit(Some(new')), Answer(1, n)]);
            s.committed == Some(new') && s.count == n && 1 in s.issued && s.issued[1] == old'
  {
    var start := Mounted(Some(old'));
    var e := [RunEffects, Commit(Some(new')), Answer(1, n)];
    assert e[..2][..1] == [RunEffects] && e[..2][1] == Commit(Some(new')) && [RunEffects][..0] == [];
    assert Run(start, []) == start;
    assert Run(start, [RunEffects]) == Effects(start);
    assert Run(start, e[..2]) == Step(Effects(start), Commit(Some(new')));
  }
}
