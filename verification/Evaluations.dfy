/**
 What an evaluation of the hole set makes of its plan: which holes are told to drain, which are opened and how they are
 recorded, and how far apart the set grows.
 */
module Evaluations {
  import opened Prelude
  import opened Holes
  import opened P2pCore
  import opened P2pRuns

  /** The holes told to drain, in order. */
  function DrainsOf(effects: seq<Effect>): seq<nat> {
    if effects == [] then []
    else
      DrainsOf(effects[..|effects| - 1])
      + (if effects[|effects| - 1].Drain? then [effects[|effects| - 1].hole] else [])
  }

  lemma DrainsOfMore(effects: seq<Effect>, effect: Effect)
    ensures DrainsOf(effects + [effect]) == DrainsOf(effects) + (if effect.Drain? then [effect.hole] else [])
  {
    assert (effects + [effect])[..|effects|] == effects;
  }

  lemma RetiredFirst(actions: seq<Action>)
    requires actions != []
    ensures Retired(actions) == (if actions[0].Retire? then [actions[0].id] else []) + Retired(actions[1..])
  {
  }

  lemma {:induction false} RetiredOfLast(rest: seq<Action>, last: Action)
    ensures Retired(rest + [last]) == Retired(rest) + (if last.Retire? then [last.id] else [])
  {
    if rest == [] {
      OneAction(last);
      assert [] + [last] == [last];
    } else {
      hide Retired;
      RetiredFirst(rest);
      RetiredFirst(rest + [last]);
      assert (rest + [last])[1..] == rest[1..] + [last];
      RetiredOfLast(rest[1..], last);
    }
  }

  lemma {:induction false} ExecuteDrains(s: CoreState, now: nat, actions: seq<Action>, ages: nat -> nat)
    requires MaxHoles(s.pool) <= SLOTS
    ensures DrainsOf(Execute(s, now, actions, ages).effects) == Retired(actions)
    decreases |actions|
  {
    if actions != [] {
      var rest, last := actions[..|actions| - 1], actions[|actions| - 1];
      assert actions == rest + [last];
      ExecuteDrains(s, now, rest, ages);
      RetiredOfLast(rest, last);
      var e := Execute(s, now, rest, ages);
      match last
      case Retire(id) => DrainsOfMore(e.effects, Drain(id));
      case Open =>
        if |e.state.holes| < MaxHoles(s.pool) {
          DrainsOfMore(e.effects, Spawn(Free(e.state.holes, e.state.nextId), None));
        }
    }
  }

  /** In the first three seconds nothing is done; afterwards exactly the holes the plan retires are told to drain. */
  lemma EvaluationDrainsWhatIsPlanned(s: CoreState, now: nat, infos: seq<HoleInfo>, ages: nat -> nat)
    requires MaxHoles(s.pool) <= SLOTS
    ensures
      var r := Evaluate(s, now, infos, ages);
      if now < s.started + 3000 then r.state == s && r.effects == []
      else DrainsOf(r.effects) == Retired(Plan(infos, Minus(now, s.lastOpen), s.pool))
  {
    if now >= s.started + 3000 {
      ExecuteDrains(s, now, Plan(infos, Minus(now, s.lastOpen), s.pool), ages);
    }
  }

  /**
   With the minimum of live holes there, an evaluation tells exactly the badly lossy holes to drain, if there are any,
   and with room for holes opens one for each of them.
   */
  lemma BadHolesAreReplaced(s: CoreState, now: nat, infos: seq<HoleInfo>, ages: nat -> nat)
    requires MaxHoles(s.pool) <= SLOTS && now >= s.started + 3000
    requires |Live(infos)| >= s.pool.minActive && exists h :: h in infos && LosesTooMuch(h, s.pool)
    ensures
      var r := Evaluate(s, now, infos, ages);
      && (forall id :: id in DrainsOf(r.effects) <==> exists h :: h in infos && h.id == id && LosesTooMuch(h, s.pool))
      && (|s.holes| + |DrainsOf(r.effects)| <= 2 * s.pool.maxTotal ==> |Spawned(r.effects)| == |DrainsOf(r.effects)|)
  {
    hide Plan, Retired, CountOpens, Execute;
    var since := Minus(now, s.lastOpen);
    EvaluationDrainsWhatIsPlanned(s, now, infos, ages);
    ExecuteSpawnsNew(s, now, Plan(infos, since, s.pool), ages);
    var bad :| bad in infos && LosesTooMuch(bad, s.pool);
    PlanReplacesEveryBadHole(infos, since, s.pool, bad);
    forall h | h in infos && LosesTooMuch(h, s.pool)
      ensures h.id in Retired(Plan(infos, since, s.pool))
    {
      PlanReplacesEveryBadHole(infos, since, s.pool, h);
    }
  }

  /**
   With nothing badly lossy, as many expired holes are told to drain as there are active ones beyond the minimum, the
   oldest first; none is opened for them yet.
   */
  lemma ExpiredHolesAreDrained(s: CoreState, now: nat, infos: seq<HoleInfo>, ages: nat -> nat)
    requires MaxHoles(s.pool) <= SLOTS && now >= s.started + 3000 && DistinctIds(infos)
    requires |Live(infos)| >= s.pool.minActive && forall h | h in infos :: !LosesTooMuch(h, s.pool)
    requires |InWork(infos)| > s.pool.minActive && exists h :: h in infos && IsLive(h) && h.age >= h.maxAge
    ensures
      var r := Evaluate(s, now, infos, ages);
      && |DrainsOf(r.effects)| == Min(|InWork(infos)| - s.pool.minActive, |Expired(infos)|)
      && Spawned(r.effects) == []
      && (forall id | id in DrainsOf(r.effects) ::
            exists h :: h in infos && IsLive(h) && h.age >= h.maxAge && h.id == id)
      && (forall h, e | h in infos && h.id in DrainsOf(r.effects)
                          && e in infos && IsLive(e) && e.age >= e.maxAge && e.id !in DrainsOf(r.effects) ::
            e.age <= h.age)
  {
    hide Plan, Retired, CountOpens, Execute, Spawned, Filter;
    var since := Minus(now, s.lastOpen);
    EvaluationDrainsWhatIsPlanned(s, now, infos, ages);
    ExecuteSpawnsNew(s, now, Plan(infos, since, s.pool), ages);
    BadlyLossyIs(infos, s.pool);
    FilterKeeps(infos, h => IsLive(h) && h.age >= h.maxAge);
    PlanDrainsTheOldest(infos, since, s.pool);
  }

  // ---------------------------------------------------------------- new holes

  /** The holes an execution opened are recorded with the moment and the ages picked, unanswered; the others stay. */
  ghost predicate Recorded(before: HoleMap, after: HoleMap, ids: seq<Slot>, now: nat, ages: nat -> nat) {
    && after.Keys == before.Keys + (set id | id in ids)
    && (forall id | id in before && id !in ids :: after[id] == before[id])
    && (forall i | 0 <= i < |ids| :: ids[i] in after && after[ids[i]] == Record(now, ages(i), None))
  }

  lemma RecordedMore(before: HoleMap, mid: HoleMap, ids: seq<Slot>, now: nat, ages: nat -> nat, id: Slot)
    requires Recorded(before, mid, ids, now, ages) && id !in mid
    ensures Recorded(before, mid[id := Record(now, ages(|ids|), None)], ids + [id], now, ages)
  {
    assert forall i | 0 <= i < |ids| :: ids[i] in mid && ids[i] != id;
    assert (set x | x in ids + [id]) == (set x | x in ids) + {id};
  }

  lemma {:induction false} ExecuteRecords(s: CoreState, now: nat, actions: seq<Action>, ages: nat -> nat)
    requires MaxHoles(s.pool) <= SLOTS
    ensures
      var e := Execute(s, now, actions, ages);
      && e.picked == |Spawned(e.effects)|
      && Recorded(s.holes, e.state.holes, Spawned(e.effects), now, ages)
      && e.state.lastOpen == (if Spawned(e.effects) == [] then s.lastOpen else now)
    decreases |actions|
  {
    hide Recorded;
    if actions == [] {
      NothingRecorded(s.holes, now, ages);
    } else {
      var last := actions[|actions| - 1];
      ExecuteRecords(s, now, actions[..|actions| - 1], ages);
      var e := Execute(s, now, actions[..|actions| - 1], ages);
      if last.Retire? {
        SpawnedMore(e.effects, Drain(last.id));
      } else if |e.state.holes| < MaxHoles(s.pool) {
        var id := Free(e.state.holes, e.state.nextId);
        SpawnedMore(e.effects, Spawn(id, None));
        RecordedMore(s.holes, e.state.holes, Spawned(e.effects), now, ages, id);
      }
    }
  }

  lemma NothingRecorded(holes: HoleMap, now: nat, ages: nat -> nat)
    ensures Recorded(holes, holes, [], now, ages)
  {
  }

  /** The holes an evaluation opened are recorded as new; all others stay as they are. */
  lemma NewHolesAreRecorded(s: CoreState, now: nat, infos: seq<HoleInfo>, ages: nat -> nat)
    requires MaxHoles(s.pool) <= SLOTS
    ensures
      var r := Evaluate(s, now, infos, ages);
      && Recorded(s.holes, r.state.holes, Spawned(r.effects), now, ages)
      && r.state.lastOpen == (if Spawned(r.effects) == [] then s.lastOpen else now)
  {
    if Minus(now, s.started) < START_GRACE {
      NothingRecorded(s.holes, now, ages);
    } else {
      ExecuteRecords(s, now, Plan(infos, Minus(now, s.lastOpen), s.pool), ages);
    }
  }

  /** The numbers in use: those of the holes before, and the new ones so far. */
  function InUse(before: HoleMap, ids: seq<Slot>): set<Slot> {
    before.Keys + (set id | id in ids)
  }

  /** `id` is the first number not in use from `from` on, around the 32-bit circle. */
  ghost predicate IsNextFree(used: set<Slot>, from: Slot, id: Slot) {
    id !in used && exists k: nat :: id == Around(from, k) && forall j: nat | j < k :: Around(from, j) in used
  }

  function Around(from: Slot, k: nat): Slot {
    (from + k) % 0x1_0000_0000
  }

  /** Where the search goes on after these numbers. */
  function NextAfter(from: Slot, ids: seq<Slot>): Slot {
    if ids == [] then from else Around(ids[|ids| - 1], 1)
  }

  /** Each number is the first free one after the one before, the first of them from `from` on. */
  ghost predicate InTurn(before: HoleMap, from: Slot, ids: seq<Slot>) {
    forall i | 0 <= i < |ids| :: IsNextFree(InUse(before, ids[..i]), NextAfter(from, ids[..i]), ids[i])
  }

  lemma NumberIsAround(from: Slot, k: nat)
    ensures Number(from, k) == Around(from, k)
  {
  }

  lemma FreeIsNext(holes: HoleMap, from: Slot)
    requires |holes| < SLOTS
    ensures IsNextFree(holes.Keys, from, Free(holes, from))
  {
    var k: nat :| FirstFree(holes, from, k, Free(holes, from));
    FirstFreeIsNext(holes, from, k, Free(holes, from));
  }

  lemma FirstFreeIsNext(holes: HoleMap, from: Slot, k: nat, id: Slot)
    requires FirstFree(holes, from, k, id)
    ensures IsNextFree(holes.Keys, from, id)
  {
    hide Number, Around;
    NumberIsAround(from, k);
    forall j: nat | j < k
      ensures Around(from, j) in holes.Keys
    {
      NumberIsAround(from, j);
    }
  }

  lemma InTurnMore(before: HoleMap, from: Slot, ids: seq<Slot>, id: Slot)
    requires InTurn(before, from, ids) && IsNextFree(InUse(before, ids), NextAfter(from, ids), id)
    ensures InTurn(before, from, ids + [id])
  {
    hide IsNextFree, InUse, NextAfter;
    var longer := ids + [id];
    assert ids[..|ids|] == ids;
    forall i | 0 <= i < |longer|
      ensures IsNextFree(InUse(before, longer[..i]), NextAfter(from, longer[..i]), longer[i])
    {
      if i < |ids| {
        assert longer[..i] == ids[..i] && longer[i] == ids[i];
      } else {
        assert longer[..i] == ids;
      }
    }
  }

  lemma {:induction false} ExecuteNumbers(s: CoreState, now: nat, actions: seq<Action>, ages: nat -> nat)
    requires MaxHoles(s.pool) <= SLOTS
    ensures
      var e := Execute(s, now, actions, ages);
      && InTurn(s.holes, s.nextId, Spawned(e.effects))
      && e.state.nextId == NextAfter(s.nextId, Spawned(e.effects))
    decreases |actions|
  {
    hide InTurn, IsNextFree, Recorded, InUse, NextAfter, Spawned;
    if actions == [] {
      NothingInTurn(s.holes, s.nextId);
    } else {
      var rest, last := actions[..|actions| - 1], actions[|actions| - 1];
      ExecuteNumbers(s, now, rest, ages);
      ExecuteRecords(s, now, rest, ages);
      var e := Execute(s, now, rest, ages);
      if last.Retire? {
        SpawnedMore(e.effects, Drain(last.id));
      } else if |e.state.holes| < MaxHoles(s.pool) {
        var id := Free(e.state.holes, e.state.nextId);
        SpawnedMore(e.effects, Spawn(id, None));
        RecordedKeys(s.holes, e.state.holes, Spawned(e.effects), now, ages);
        FreeIsNext(e.state.holes, e.state.nextId);
        InTurnMore(s.holes, s.nextId, Spawned(e.effects), id);
        NextAfterMore(s.nextId, Spawned(e.effects), id);
      }
    }
  }

  lemma RecordedKeys(before: HoleMap, after: HoleMap, ids: seq<Slot>, now: nat, ages: nat -> nat)
    requires Recorded(before, after, ids, now, ages)
    ensures after.Keys == InUse(before, ids)
  {
  }

  lemma NextAfterMore(from: Slot, ids: seq<Slot>, id: Slot)
    ensures NextAfter(from, ids + [id]) == Number(id, 1)
  {
  }

  lemma NothingInTurn(before: HoleMap, from: Slot)
    ensures Spawned([]) == [] && InTurn(before, from, []) && NextAfter(from, []) == from
  {
  }

  /** Own holes are numbered in turn, around the 32-bit circle, so that a number is not soon used again. */
  lemma NewHolesAreNumbered(s: CoreState, now: nat, infos: seq<HoleInfo>, ages: nat -> nat)
    requires MaxHoles(s.pool) <= SLOTS
    ensures
      var r := Evaluate(s, now, infos, ages);
      && InTurn(s.holes, s.nextId, Spawned(r.effects))
      && r.state.nextId == NextAfter(s.nextId, Spawned(r.effects))
  {
    if Minus(now, s.started) < START_GRACE {
      NothingInTurn(s.holes, s.nextId);
    } else {
      ExecuteNumbers(s, now, Plan(infos, Minus(now, s.lastOpen), s.pool), ages);
    }
  }

  // ---------------------------------------------------------------- growth over a run

  /** The moments of the evaluations, in order, do not go back. */
  predicate ClockRuns(start: nat, events: seq<Event>)
    decreases |events|
  {
    events != [] ==>
      if events[0].Evaluation? then start <= events[0].now && ClockRuns(events[0].now, events[1..])
      else ClockRuns(start, events[1..])
  }

  /** When holes were opened of the own accord. */
  ghost function Openings(s: CoreState, events: seq<Event>): seq<nat>
    requires MaxHoles(s.pool) <= SLOTS
    decreases |events|
  {
    if events == [] then []
    else
      StepKeepsPool(s, events[0]);
      (if events[0].Evaluation? && Spawned(Step(s, events[0]).effects) != [] then [events[0].now] else [])
      + Openings(Step(s, events[0]).state, events[1..])
  }

  /** The minimum is there, nothing is drained, and yet a hole is opened. */
  ghost predicate Grows(s: CoreState, e: Event)
    requires MaxHoles(s.pool) <= SLOTS
  {
    && e.Evaluation? && |Live(e.infos)| >= s.pool.minActive
    && DrainsOf(Step(s, e).effects) == [] && Spawned(Step(s, e).effects) != []
  }

  lemma StepOpens(s: CoreState, e: Event)
    requires MaxHoles(s.pool) <= SLOTS
    ensures
      Step(s, e).state.lastOpen
      == if e.Evaluation? && Spawned(Step(s, e).effects) != [] then e.now else s.lastOpen
  {
    if e.Evaluation? {
      NewHolesAreRecorded(s, e.now, e.infos, e.ages);
    }
  }

  /** The clock stands at `now`, no earlier than any opening. */
  ghost predicate OpenedBy(s: CoreState, past: seq<nat>, now: nat) {
    s.lastOpen <= now && forall t | t in past :: t <= s.lastOpen
  }

  lemma {:induction false} RunOpens(h: History, events: seq<Event>, past: seq<nat>, now: nat) returns (later: nat)
    requires MaxHoles(h.state.pool) <= SLOTS && ClockRuns(now, events) && OpenedBy(h.state, past, now)
    ensures OpenedBy(Run(h, events).state, past + Openings(h.state, events), later)
    ensures Run(h, events).state.lastOpen >= h.state.lastOpen
    decreases |events|
  {
    hide Step;
    if events == [] {
      later := now;
      assert past + Openings(h.state, events) == past;
    } else {
      var e := events[0];
      StepKeepsPool(h.state, e);
      StepOpens(h.state, e);
      var first := if e.Evaluation? && Spawned(Step(h.state, e).effects) != [] then [e.now] else [];
      later := RunOpens(After(h, e), events[1..], past + first, if e.Evaluation? then e.now else now);
      assert past + first + Openings(Step(h.state, e).state, events[1..]) == past + Openings(h.state, events);
    }
  }

  lemma GrowthNeedsTheInterval(s: CoreState, e: Event)
    requires MaxHoles(s.pool) <= SLOTS && Grows(s, e) && s.lastOpen <= e.now
    ensures e.now >= s.lastOpen + s.pool.addInterval
  {
    hide Plan, Retired, CountOpens, Execute, Spawned, DrainsOf;
    EvaluationDrainsWhatIsPlanned(s, e.now, e.infos, e.ages);
    NothingSpawned();
    ExecuteSpawnsNew(s, e.now, Plan(e.infos, Minus(e.now, s.lastOpen), s.pool), e.ages);
    PlanOpensWithinLimits(e.infos, Minus(e.now, s.lastOpen), s.pool);
  }

  lemma NothingSpawned()
    ensures Spawned([]) == []
  {
  }

  lemma ClockRunsOn(start: nat, events: seq<Event>, e: Event, s: nat)
    requires ClockRuns(start, events + [e]) && e.Evaluation?
    ensures ClockRuns(start, events) && start <= e.now
    decreases |events|
  {
    if events == [] {
      assert (events + [e])[0] == e;
    } else {
      assert (events + [e])[0] == events[0] && (events + [e])[1..] == events[1..] + [e];
      ClockRunsOn(if events[0].Evaluation? then events[0].now else start, events[1..], e, s);
    }
  }

  /**
   Over every run whose clock does not go back: the set grows beyond its minimum only `add_interval` or more after the
   start and after every hole it has opened before. So two such openings are at least that far apart.
   */
  lemma GrowthIsSpaced(pool: PoolPolicy, firstId: Slot, start: nat, events: seq<Event>, e: Event, t: nat)
    requires MaxHoles(pool) <= SLOTS && ClockRuns(start, events + [e])
    requires Grows(Run(History(Fresh(pool, firstId, start), []), events).state, e)
    requires t == start || t in Openings(Fresh(pool, firstId, start), events)
    ensures e.now >= t + pool.addInterval
  {
    hide Grows, Step;
    var h := History(Fresh(pool, firstId, start), []);
    IsEvaluation(Run(h, events).state, e);
    ClockRunsOn(start, events, e, start);
    LastIsBefore(h, events, e, start);
    var later := RunOpens(h, events, [], start);
    assert [] + Openings(h.state, events) == Openings(h.state, events);
    GrowthNeedsTheInterval(Run(h, events).state, e);
  }

  lemma IsEvaluation(s: CoreState, e: Event)
    requires MaxHoles(s.pool) <= SLOTS && Grows(s, e)
    ensures e.Evaluation?
  {
  }

  lemma {:induction false} LastIsBefore(h: History, events: seq<Event>, e: Event, now: nat)
    requires MaxHoles(h.state.pool) <= SLOTS && ClockRuns(now, events + [e]) && e.Evaluation? && h.state.lastOpen <= now
    ensures Run(h, events).state.lastOpen <= e.now
    decreases |events|
  {
    hide Step;
    if events == [] {
      assert (events + [e])[0] == e;
    } else {
      assert (events + [e])[0] == events[0] && (events + [e])[1..] == events[1..] + [e];
      StepKeepsPool(h.state, events[0]);
      StepOpens(h.state, events[0]);
      LastIsBefore(After(h, events[0]), events[1..], e, if events[0].Evaluation? then events[0].now else now);
    }
  }

  // ---------------------------------------------------------------- records of the peer

  /** The answered holes, one for one. */
  ghost predicate AnsweredAre(holes: HoleMap, ids: set<Slot>) {
    forall id: Slot :: id in ids <==> id in holes && holes[id].peerSession.Some?
  }

  /**
   A record of the peer. A hole that is open gets it and remembers the session; a new one is opened under the peer's
   number, unless it was closed in that session before or `max_total` holes are answered already. No other hole, and
   nothing that decides on own openings, changes.
   */
  lemma EveryRecordIsAnswered(s: CoreState, now: nat, session: PeerSession, age: nat, answered: set<Slot>, other: Slot)
    requires AnsweredAre(s.holes, answered)
    ensures
      var r, id := OnPeer(s, now, session, age), session.slot;
      && (other != id ==>
            (other in r.state.holes <==> other in s.holes)
            && (other in s.holes ==> r.state.holes[other] == s.holes[other]))
      && r.state.nextId == s.nextId && r.state.lastOpen == s.lastOpen && r.state.closed == s.closed
      && if id in s.holes then
           && id in r.state.holes && r.effect == Some(Forward(id, session))
           && r.state.holes[id].peerSession == Some(session.sessionId)
           && r.state.holes[id].openedAt == s.holes[id].openedAt && r.state.holes[id].maxAge == s.holes[id].maxAge
         else if (id, session.sessionId) in s.closed || |answered| >= s.pool.maxTotal then
           r.effect == None && id !in r.state.holes
         else
           && id in r.state.holes && r.effect == Some(Spawn(id, Some(session)))
           && r.state.holes[id] == Record(now, age, Some(session.sessionId))
  {
    assert answered == Matched(s.holes);
  }

  /** A hole that ends is forgotten; if the peer had answered it, it is remembered among the last 256. */
  lemma EndedHolesAreRemembered(s: CoreState, id: Slot, other: Slot)
    ensures
      var t := OnEnded(s, id);
      && (other in t.holes <==> other in s.holes && other != id)
      && (other in t.holes ==> t.holes[other] == s.holes[other])
      && t.nextId == s.nextId && t.lastOpen == s.lastOpen
      && if id in s.holes && s.holes[id].peerSession.Some? then
           var all := s.closed + [(id, s.holes[id].peerSession.value)];
           t.closed == if |all| > 256 then all[1..] else all
         else t.closed == s.closed
  {
  }
}
