/** Properties of the P2P hole manager over every sequence of records, endings and evaluations. */
module P2pRuns {
  import opened Prelude
  import opened Holes
  import opened P2pCore

  datatype Event =
    | Peer(now: nat, session: PeerSession, age: nat)
    | Ended(id: Slot)
    | Evaluation(now: nat, infos: seq<HoleInfo>, ages: nat -> nat)

  datatype Outcome = Outcome(state: CoreState, effects: seq<Effect>)

  ghost function Step(s: CoreState, e: Event): Outcome
    requires MaxHoles(s.pool) <= SLOTS
  {
    match e
    case Peer(now, session, age) =>
      var r := OnPeer(s, now, session, age);
      Outcome(r.state, if r.effect.Some? then [r.effect.value] else [])
    case Ended(id) => Outcome(OnEnded(s, id), [])
    case Evaluation(now, infos, ages) =>
      var r := Evaluate(s, now, infos, ages);
      Outcome(r.state, r.effects)
  }

  // ---------------------------------------------------------------- bounds

  lemma AllHoles(holes: HoleMap)
    ensures Matched(holes) + Unanswered(holes) == holes.Keys
    ensures |holes| == |Matched(holes)| + |Unanswered(holes)|
  {
    assert Matched(holes) + Unanswered(holes) == holes.Keys;
    assert Matched(holes) !! Unanswered(holes);
  }

  lemma OnPeerStaysBounded(s: CoreState, now: nat, session: PeerSession, age: nat)
    requires Bounded(s)
    ensures Bounded(OnPeer(s, now, session, age).state)
  {
    var t, id := OnPeer(s, now, session, age).state, session.slot;
    AllHoles(s.holes);
    if id in s.holes {
      assert t.holes.Keys == s.holes.Keys;
      assert |t.holes.Keys| == |s.holes.Keys|;
      assert Unanswered(t.holes) == Unanswered(s.holes) - {id};
    } else if t != s {
      assert t.holes.Keys == s.holes.Keys + {id};
      assert |t.holes.Keys| == |s.holes.Keys| + 1;
      assert Unanswered(t.holes) == Unanswered(s.holes);
    }
  }

  lemma OnEndedStaysBounded(s: CoreState, id: Slot)
    requires Bounded(s)
    ensures Bounded(OnEnded(s, id))
  {
    var t := OnEnded(s, id);
    if id in s.holes {
      assert t.holes.Keys == s.holes.Keys - {id};
      assert |t.holes.Keys| == |s.holes.Keys| - 1;
      assert Unanswered(t.holes) == Unanswered(s.holes) - {id};
    }
  }

  lemma OpenOneStaysBounded(s: CoreState, now: nat, age: nat)
    requires Bounded(s) && |s.holes| < MaxHoles(s.pool)
    ensures Bounded(OpenOne(s, now, age))
  {
    var t, id := OpenOne(s, now, age), Free(s.holes, s.nextId);
    assert t.holes.Keys == s.holes.Keys + {id};
    assert |t.holes.Keys| == |s.holes.Keys| + 1;
    AllHoles(t.holes);
  }

  lemma {:induction false} ExecuteStaysBounded(s: CoreState, now: nat, actions: seq<Action>, ages: nat -> nat)
    requires Bounded(s) && MaxHoles(s.pool) <= SLOTS
    ensures Bounded(Execute(s, now, actions, ages).state)
    decreases |actions|
  {
    hide Bounded, OpenOne;
    if actions != [] {
      var e := Execute(s, now, actions[..|actions| - 1], ages);
      ExecuteStaysBounded(s, now, actions[..|actions| - 1], ages);
      if |e.state.holes| < MaxHoles(s.pool) {
        OpenOneStaysBounded(e.state, now, ages(e.picked));
      }
    }
  }

  lemma StepStaysBounded(s: CoreState, e: Event)
    requires Bounded(s)
    ensures Bounded(Step(s, e).state) && Step(s, e).state.pool == s.pool
  {
    match e
    case Peer(now, session, age) => OnPeerStaysBounded(s, now, session, age);
    case Ended(id) => OnEndedStaysBounded(s, id);
    case Evaluation(now, infos, ages) =>
      ExecuteStaysBounded(s, now, Plan(infos, Minus(now, s.lastOpen), s.pool), ages);
  }

  // ---------------------------------------------------------------- numbers

  /** The numbers an execution opens, in order. */
  function Spawned(effects: seq<Effect>): seq<Slot> {
    if effects == [] then []
    else Spawned(effects[..|effects| - 1]) + (if effects[|effects| - 1].Spawn? then [effects[|effects| - 1].id] else [])
  }

  ghost predicate AllNew(ids: seq<Slot>, before: HoleMap, after: HoleMap) {
    && (forall i, j | 0 <= i < j < |ids| :: ids[i] != ids[j])
    && (forall id | id in ids :: id !in before && id in after)
    && (forall id | id in before :: id in after)
  }

  lemma SpawnedMore(effects: seq<Effect>, effect: Effect)
    ensures Spawned(effects + [effect]) == if effect.Spawn? then Spawned(effects) + [effect.id] else Spawned(effects)
  {
    assert (effects + [effect])[..|effects + [effect]| - 1] == effects;
  }

  lemma OneMoreNew(ids: seq<Slot>, before: HoleMap, mid: HoleMap, id: Slot, record: Record)
    requires AllNew(ids, before, mid) && id !in mid
    ensures AllNew(ids + [id], before, mid[id := record]) && |mid[id := record]| == |mid| + 1
  {
    assert mid[id := record].Keys == mid.Keys + {id};
    assert |mid[id := record].Keys| == |mid.Keys| + 1;
  }

  /** What one more action of a plan does to an execution. */
  lemma ExecuteOneMore(s: CoreState, now: nat, rest: seq<Action>, last: Action, ages: nat -> nat)
    requires MaxHoles(s.pool) <= SLOTS
    requires AllNew(Spawned(Execute(s, now, rest, ages).effects), s.holes, Execute(s, now, rest, ages).state.holes)
    ensures
      var e, r := Execute(s, now, rest, ages), Execute(s, now, rest + [last], ages);
      var opens := last.Open? && |e.state.holes| < MaxHoles(s.pool);
      && AllNew(Spawned(r.effects), s.holes, r.state.holes)
      && |Spawned(r.effects)| == |Spawned(e.effects)| + (if opens then 1 else 0)
      && |r.state.holes| == |e.state.holes| + (if opens then 1 else 0)
  {
    hide AllNew, Spawned;
    assert (rest + [last])[..|rest + [last]| - 1] == rest;
    var e := Execute(s, now, rest, ages);
    if last.Retire? {
      SpawnedMore(e.effects, Drain(last.id));
    } else if |e.state.holes| < MaxHoles(s.pool) {
      var id := Free(e.state.holes, e.state.nextId);
      SpawnedMore(e.effects, Spawn(id, None));
      OneMoreNew(Spawned(e.effects), s.holes, e.state.holes, id, Record(now, ages(e.picked), None));
    }
  }

  lemma {:induction false} ExecuteSpawnsNew(s: CoreState, now: nat, actions: seq<Action>, ages: nat -> nat)
    requires MaxHoles(s.pool) <= SLOTS
    ensures
      var e := Execute(s, now, actions, ages);
      && AllNew(Spawned(e.effects), s.holes, e.state.holes)
      && |Spawned(e.effects)| <= CountOpens(actions)
      && (|s.holes| + CountOpens(actions) <= MaxHoles(s.pool) ==>
            |Spawned(e.effects)| == CountOpens(actions) && |e.state.holes| == |s.holes| + CountOpens(actions))
    decreases |actions|
  {
    if actions == [] {
      assert Execute(s, now, actions, ages) == Evaluated(s, [], 0);
    } else {
      hide AllNew, Spawned, Execute, CountOpens;
      var rest, last := actions[..|actions| - 1], actions[|actions| - 1];
      assert actions == rest + [last];
      ExecuteSpawnsNew(s, now, rest, ages);
      CountOpensOfLast(rest, last);
      ExecuteOneMore(s, now, rest, last, ages);
    }
  }

  lemma {:induction false} CountOpensOfLast(rest: seq<Action>, last: Action)
    ensures CountOpens(rest + [last]) == CountOpens(rest) + (if last.Open? then 1 else 0)
  {
    if rest == [] {
      OneAction(last);
      assert [] + [last] == [last];
    } else {
      assert (rest + [last])[1..] == rest[1..] + [last];
      CountOpensOfLast(rest[1..], last);
    }
  }

  /**
   No step opens a hole under a number in use, and no two holes under one number; a hole opened in
   answer to the peer is opened under the peer's number and session.
   */
  lemma SpawnsTakeFreeNumbers(s: CoreState, e: Event)
    requires MaxHoles(s.pool) <= SLOTS && !e.Ended?
    ensures AllNew(Spawned(Step(s, e).effects), s.holes, Step(s, e).state.holes)
  {
    match e
    case Peer(now, session, age) =>
      var effects := Step(s, e).effects;
      if effects != [] {
        assert effects[..0] == [];
      }
    case Evaluation(now, infos, ages) =>
      ExecuteSpawnsNew(s, now, Plan(infos, Minus(now, s.lastOpen), s.pool), ages);
  }

  /** As long as the limit on holes is not met, an evaluation opens every hole its plan asks for. */
  lemma EvaluationOpensWhatIsPlanned(s: CoreState, now: nat, infos: seq<HoleInfo>, ages: nat -> nat)
    requires MaxHoles(s.pool) <= SLOTS && Minus(now, s.started) >= START_GRACE
    requires |s.holes| + CountOpens(Plan(infos, Minus(now, s.lastOpen), s.pool)) <= MaxHoles(s.pool)
    ensures
      var r, plan := Evaluate(s, now, infos, ages), Plan(infos, Minus(now, s.lastOpen), s.pool);
      && |Spawned(r.effects)| == CountOpens(plan)
      && |Live(infos)| + |Spawned(r.effects)| >= s.pool.minActive + |Retired(plan)|
  {
    var plan := Plan(infos, Minus(now, s.lastOpen), s.pool);
    ExecuteSpawnsNew(s, now, plan, ages);
    PlanKeepsTheMinimum(infos, Minus(now, s.lastOpen), s.pool);
  }

  // ---------------------------------------------------------------- whole runs

  /** A state and every hole that was closed after its peer had answered, in order. */
  datatype History = History(state: CoreState, closings: seq<(Slot, nat)>)

  function Closing(s: CoreState, e: Event): seq<(Slot, nat)> {
    if e.Ended? && e.id in s.holes && s.holes[e.id].peerSession.Some?
    then [(e.id, s.holes[e.id].peerSession.value)]
    else []
  }

  ghost predicate Sound(h: History, pool: PoolPolicy) {
    h.state.pool == pool && Bounded(h.state) && h.state.closed == LastOf(h.closings, CLOSED_MEMORY)
  }

  ghost function After(h: History, e: Event): History
    requires MaxHoles(h.state.pool) <= SLOTS
  {
    History(Step(h.state, e).state, h.closings + Closing(h.state, e))
  }

  lemma StepStaysSound(h: History, e: Event, pool: PoolPolicy)
    requires Sound(h, pool)
    ensures Sound(After(h, e), pool)
  {
    StepStaysBounded(h.state, e);
    var closing := Closing(h.state, e);
    if closing == [] {
      assert h.closings + closing == h.closings;
      if e.Evaluation? {
        assert Step(h.state, e).state.closed == h.state.closed;
      }
    } else {
      Remembered(h.closings, closing[0]);
    }
  }

  /** Appending and dropping the oldest keeps the last 256. */
  lemma Remembered(closings: seq<(Slot, nat)>, c: (Slot, nat))
    ensures
      var closed := LastOf(closings, CLOSED_MEMORY) + [c];
      LastOf(closings + [c], CLOSED_MEMORY) == if |closed| > CLOSED_MEMORY then closed[1..] else closed
  {
  }

  ghost function Run(h: History, events: seq<Event>): (r: History)
    requires MaxHoles(h.state.pool) <= SLOTS
    ensures r.state.pool == h.state.pool
    decreases |events|
  {
    if events == [] then h
    else
      StepKeepsPool(h.state, events[0]);
      Run(After(h, events[0]), events[1..])
  }

  lemma StepKeepsPool(s: CoreState, e: Event)
    requires MaxHoles(s.pool) <= SLOTS
    ensures Step(s, e).state.pool == s.pool
  {
  }

  lemma {:induction false} RunStaysSound(h: History, events: seq<Event>, pool: PoolPolicy)
    requires Sound(h, pool)
    ensures Sound(Run(h, events), pool)
    decreases |events|
  {
    if events != [] {
      StepStaysSound(h, events[0], pool);
      RunStaysSound(After(h, events[0]), events[1..], pool);
    }
  }

  /**
   In every reachable state: at most `2 * max_total` own unanswered holes, at most `3 * max_total` holes,
   at most 256 closed holes remembered.
   */
  lemma EveryPoolIsBounded(pool: PoolPolicy, firstId: Slot, start: nat, events: seq<Event>)
    requires MaxHoles(pool) <= SLOTS
    ensures
      var s := Run(History(Fresh(pool, firstId, start), []), events).state;
      && |Unanswered(s.holes)| <= 2 * pool.maxTotal
      && |s.holes| <= 3 * pool.maxTotal
      && |s.closed| <= 256
  {
    var h := History(Fresh(pool, firstId, start), []);
    assert Unanswered(h.state.holes) == {};
    RunStaysSound(h, events, pool);
  }

  /** A record of a hole that is among the last 256 closed ones never opens the hole again. */
  lemma ClosedHolesStayClosed(pool: PoolPolicy, firstId: Slot, start: nat, events: seq<Event>,
                             now: nat, session: PeerSession, age: nat)
    requires MaxHoles(pool) <= SLOTS
    requires
      var h := Run(History(Fresh(pool, firstId, start), []), events);
      (session.slot, session.sessionId) in LastOf(h.closings, 256)
    ensures
      var h := Run(History(Fresh(pool, firstId, start), []), events);
      Spawned(Step(h.state, Peer(now, session, age)).effects) == []
  {
    var h0 := History(Fresh(pool, firstId, start), []);
    assert Unanswered(h0.state.holes) == {};
    RunStaysSound(h0, events, pool);
    var effects := Step(Run(h0, events).state, Peer(now, session, age)).effects;
    if effects != [] {
      assert effects[..0] == [];
    }
  }
}
