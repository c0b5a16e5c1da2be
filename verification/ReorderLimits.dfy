/**
 Where the order buffer falls short of what one would expect: a second copy of a held packet can make it give up a gap
 before any held packet has waited as long as it should, and a packet that jumps ahead is counted nowhere.
 */
module ReorderLimits {
  import opened Prelude
  import opened Packets
  import opened HeldRings
  import opened Lateness
  import opened ReorderSpec
  import opened ReorderRuns
  import opened Expiry
  import opened ReorderHistory
  import opened ReorderTheorems

  const KEY: SessionKey := Flow(0)

  function Numbered(number: nat): (p: Incoming)
    ensures Carries(p, KEY, number)
  {
    Incoming(0, [], None, Some(Order(0, number)))
  }

  function Arrival(number: nat, now: nat): Event {
    Arrive(Numbered(number), now, KEY)
  }

  /** After these events there is one session, in this state, and the wait is still the fixed one. */
  ghost predicate Stands(wait: nat, events: seq<Event>, s: SessionState) {
    && LegalRun(Start(FixedPace(wait)), events)
    && var h := Run(Start(FixedPace(wait)), events);
      h.state.pace == FixedPace(wait) && h.state.sessions == map[KEY := s]
  }

  lemma StandsMeans(wait: nat, events: seq<Event>, s: SessionState)
    requires Stands(wait, events, s)
    ensures Inv(Start(FixedPace(wait)).state) && LegalRun(Start(FixedPace(wait)), events)
    ensures
      var h := Run(Start(FixedPace(wait)), events);
      h.state.pace == FixedPace(wait) && h.state.sessions == map[KEY := s]
  {
    StartIsSound(wait);
  }

  lemma StepStands(s: State, number: nat, now: nat, wait: nat, before: SessionState)
    requires s.pace == FixedPace(wait) && s.sessions == map[KEY := before]
    ensures Legal(s, Arrival(number, now))
    ensures
      var t := Push(s, Numbered(number), now, KEY).state;
      && t.pace == FixedPace(wait)
      && t.sessions == map[KEY := SessionPush(before, Numbered(number), number, now, InOrder).session]
  {
    hide SessionPush, Tally;
    assert |s.sessions| == 1;
  }

  lemma OneArrival(wait: nat, events: seq<Event>, before: SessionState, number: nat, now: nat)
    requires Stands(wait, events, before)
    ensures Stands(wait, events + [Arrival(number, now)],
                   SessionPush(before, Numbered(number), number, now, InOrder).session)
  {
    hide SessionPush, Run, LegalRun, Inv, Legal, Push, Start;
    StartIsSound(wait);
    var h := Run(Start(FixedPace(wait)), events);
    StepStands(h.state, number, now, wait, before);
    OneStepRun(h, Arrival(number, now));
    AfterIsStep(h, Arrival(number, now));
    RunOfConcat(Start(FixedPace(wait)), events, [Arrival(number, now)]);
  }

  lemma StartIsSound(wait: nat)
    ensures Inv(Start(FixedPace(wait)).state)
  {
  }

  lemma FirstArrival(wait: nat, number: nat)
    ensures Stands(wait, [Arrival(number, 0)], SessionState(number + 1, EMPTY, 0, map[]))
  {
    hide Tally, Run, LegalRun, Legal;
    var h, e := Start(FixedPace(wait)), Arrival(number, 0);
    assert Legal(h.state, e) by { Unneeded(h.state, e); }
    OneStepRun(h, e);
    AfterIsStep(h, e);
    assert SessionFor(h.state, KEY, number, 0) == SessionState(number, EMPTY, 0, map[]);
  }

  lemma Unneeded(s: State, e: Event)
    requires |s.sessions| < MAX_SESSIONS
    ensures Legal(s, e)
  {
  }

  lemma ExpiryIsLegal(s: State, e: Event)
    requires e.Expire?
    ensures Legal(s, e)
  {
  }

  /** Two packets held behind a gap at 0 and `a`, the first of them overwritten at `a`, then the gap's own packet. */
  function Events(n: nat, a: nat): seq<Event> {
    [Arrival(n, 0)] + [Arrival(n + 2, 0)] + [Arrival(n + 4, a)] + [Arrival(n + 2, a)] + [Arrival(n + 1, a)]
  }

  ghost function Waiting(n: nat, a: nat): SessionState {
    SessionState(n + 3, HeldMap(map[n + 4 := Held(Numbered(n + 4), a)], Some(0)), a, map[])
  }

  lemma HeldAfter(n: nat, a: nat)
    ensures
      var m := EMPTY.Insert(n + 2, Held(Numbered(n + 2), 0)).Insert(n + 4, Held(Numbered(n + 4), a))
               .Insert(n + 2, Held(Numbered(n + 2), a));
      && m == HeldMap(map[n + 2 := Held(Numbered(n + 2), a), n + 4 := Held(Numbered(n + 4), a)], Some(0))
      && Drain(n + 2, m) == Drained(n + 3, Waiting(n, a).held, [Numbered(n + 2)])
  {
    var m := HeldMap(map[n + 2 := Held(Numbered(n + 2), a), n + 4 := Held(Numbered(n + 4), a)], Some(0));
    assert m.at - {n + 2} == map[n + 4 := Held(Numbered(n + 4), a)];
    assert n + 4 in m.at - {n + 2};
    assert Drain(n + 3, m.Remove(n + 2)) == Drained(n + 3, m.Remove(n + 2), []);
  }

  lemma EventsStand(wait: nat, n: nat, a: nat)
    ensures Stands(wait, Events(n, a), Waiting(n, a))
  {
    hide Stands, Drain, HeldMap.Insert;
    var events, s := [Arrival(n, 0)], SessionState(n + 1, EMPTY, 0, map[]);
    FirstArrival(wait, n);
    OneArrival(wait, events, s, n + 2, 0);
    events, s := events + [Arrival(n + 2, 0)], HoldBack(s, Numbered(n + 2), n + 2, 0).session;
    OneArrival(wait, events, s, n + 4, a);
    events, s := events + [Arrival(n + 4, a)], HoldBack(s.(lastSeen := a), Numbered(n + 4), n + 4, a).session;
    OneArrival(wait, events, s, n + 2, a);
    events, s := events + [Arrival(n + 2, a)], HoldBack(s, Numbered(n + 2), n + 2, a).session;
    OneArrival(wait, events, s, n + 1, a);
    HeldAfter(n, a);
  }

  /**
   For every fixed wait, every starting number and every time `wait - a` below the wait there is a reachable state in
   which an expiry gives up a gap although the one held packet, which arrived at `a`, has waited only so long.
   */
  lemma AGapIsGivenUpEarly(wait: nat, n: nat, a: nat)
    requires 1 <= a <= wait
    ensures LegalRun(Start(FixedPace(wait)), Events(n, a))
    ensures LegalRun(Start(FixedPace(wait)), Events(n, a) + [Expire(wait, KEY)])
    ensures
      var s := Run(Start(FixedPace(wait)), Events(n, a)).state;
      var t := Run(Start(FixedPace(wait)), Events(n, a) + [Expire(wait, KEY)]).state;
      && KEY in s.sessions && KEY in t.sessions
      && s.sessions[KEY].next == n + 3 && s.sessions[KEY].held.at == map[n + 4 := Held(Numbered(n + 4), a)]
      && !Overdue(s.sessions[KEY], wait, wait, n + 3)
      && t.sessions[KEY].next == n + 5
  {
    hide Inv, Start, Events, SessionExpire, Tally, Legal, After;
    var start, e := Start(FixedPace(wait)), Expire(wait, KEY);
    EventsStand(wait, n, a);
    StandsMeans(wait, Events(n, a), Waiting(n, a));
    var h := Run(start, Events(n, a));
    ExpiryIsLegal(h.state, e);
    OneStepRun(h, e);
    AfterIsStep(h, e);
    RunOfConcat(start, Events(n, a), [e]);
    SkipsTheGap(wait, n, a);
  }

  lemma SkipsTheGap(wait: nat, n: nat, a: nat)
    requires 1 <= a <= wait
    ensures Waiting(n, a).held.WellFormed() && SessionExpire(Waiting(n, a), wait, wait).0.next == n + 5
    ensures !Overdue(Waiting(n, a), wait, wait, n + 3)
  {
    hide MarkSkipped;
    var s := Waiting(n, a);
    assert n + 4 in s.held.at;
    assert Lowest(s.held.at) == n + 4;
    assert s.held.at - {n + 4} == map[];
    var rest := s.held.Remove(n + 4);
    assert rest == EMPTY;
    assert Drain(n + 5, rest) == Drained(n + 5, rest, []);
    assert Drain(n + 4, s.held) == Drained(n + 5, EMPTY, [Numbered(n + 4)]);
    assert !Due(SkipGap(s).0, wait, wait);
  }

  /**
   In every reachable state: no expiry of a session comes too early if and only if its `oldest` is exact, and that is
   so as long as no copy has overwritten a held packet.
   */
  lemma WithoutCopiesNeverEarly(initial: Pace, events: seq<Event>, key: SessionKey, wait: nat)
    requires initial == FixedPace(initial.wait) || initial == AdaptivePace(initial.wait)
    requires LegalRun(Start(initial), events) && key in Run(Start(initial), events).state.sessions
    ensures
      var h := Run(Start(initial), events);
      var s := h.state.sessions[key];
      && SessionInv(key, s) && (NeverEarly(s, wait) <==> s.held.Exact())
      && (h.overwritten == multiset{} ==> NeverEarly(s, wait))
  {
    hide HeldMap.Exact, NeverEarly;
    EveryRunIsSound(initial, events);
    NeverEarlyExactly(key, Run(Start(initial), events).state.sessions[key], wait);
  }

  // ---------------------------------------------------------------- a packet counted nowhere

  lemma FirstIsLogged(wait: nat, number: nat)
    ensures Inv(Start(FixedPace(wait)).state) && LegalRun(Start(FixedPace(wait)), [Arrival(number, 0)])
    ensures
      var h := Run(Start(FixedPace(wait)), [Arrival(number, 0)]);
      && h.log == [Release(Numbered(number), Started)]
      && h.state.sessions == map[KEY := SessionState(number + 1, EMPTY, 0, map[])]
  {
    hide Tally, Run, LegalRun, Legal;
    var h, e := Start(FixedPace(wait)), Arrival(number, 0);
    StartIsSound(wait);
    assert Legal(h.state, e) by { Unneeded(h.state, e); }
    OneStepRun(h, e);
    assert SessionFor(h.state, KEY, number, 0) == SessionState(number, EMPTY, 0, map[]);
  }

  lemma JumpIsLogged(s: State, before: nat, number: nat, now: nat)
    requires s.sessions == map[KEY := SessionState(before, EMPTY, 0, map[])] && number > before + MAX_GAP
    ensures Legal(s, Arrival(number, now))
    ensures Push(s, Numbered(number), now, KEY).rel == [Release(Numbered(number), Jumped)]
  {
    hide Tally;
    assert |s.sessions| == 1;
  }

  /** A first packet, then one more than 511 numbers ahead of the next: two packets are out and one is counted. */
  lemma AJumpIsNotCounted(wait: nat, first: nat, number: nat, now: nat)
    requires number > first + 1 + MAX_GAP
    ensures Inv(Start(FixedPace(wait)).state)
    ensures
      var events := [Arrival(first, 0)] + [Arrival(number, now)];
      && LegalRun(Start(FixedPace(wait)), events)
      && var h := Run(Start(FixedPace(wait)), events);
        && PacketsOf(h.log) == [Numbered(first), Numbered(number)]
        && Jumps(h.log) == 1 && CountedPackets(h.state.stats) == 1
  {
    hide Inv, Start, Legal, Push, Run, LegalRun, CountsLog, Conserves, Ordered, PaceAfter, WaitsExactly;
    var start, e := Start(FixedPace(wait)), Arrival(number, now);
    FirstIsLogged(wait, first);
    var h := Run(start, [Arrival(first, 0)]);
    JumpIsLogged(h.state, first + 1, number, now);
    OneStepRun(h, e);
    RunOfConcat(start, [Arrival(first, 0)], [e]);
    var log := [Release(Numbered(first), Started), Release(Numbered(number), Jumped)];
    assert Run(start, [Arrival(first, 0)] + [e]).log == log;
    TwoReleases(log[0], log[1]);
    EveryRunIsSound(FixedPace(wait), [Arrival(first, 0)] + [e]);
    CountsAll(Run(start, [Arrival(first, 0)] + [e]));
  }

  lemma TwoReleases(a: Release, b: Release)
    ensures Jumps([a, b]) == (if a.why == Jumped then 1 else 0) + (if b.why == Jumped then 1 else 0)
    ensures PacketsOf([a, b]) == [a.packet, b.packet]
  {
    assert [a, b][..1] == [a] && [a][..0] == [];
    assert Jumps([a]) == if a.why == Jumped then 1 else 0;
  }

  lemma CountsAll(h: History)
    requires CountsLog(h.state.stats, h.log)
    ensures CountedPackets(h.state.stats) + Jumps(h.log) == |h.log|
  {
    TallyCountsAll(h.log);
  }
}
