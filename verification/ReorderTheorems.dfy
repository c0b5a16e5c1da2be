/** The main results about the order buffer, over every legal run from the start. */
module ReorderTheorems {
  import opened Prelude
  import opened Packets
  import opened HeldRings
  import opened Lateness
  import opened ReorderSpec
  import opened ReorderRuns
  import opened ReorderHistory

  /** A state with everything that led to it: what arrived, what was handed on, and what was lost. */
  datatype History = History(state: State, log: seq<Release>, arrived: seq<Incoming>, overwritten: multiset<Incoming>,
                             pruned: multiset<Incoming>, samples: seq<nat>)

  ghost function Start(pace: Pace): History {
    History(State(pace, map[], NO_STATS.(waitMs := pace.wait / 1_000_000)), [], [], multiset{}, multiset{}, [])
  }

  ghost function After(h: History, e: Event): History
    requires Inv(h.state)
  {
    var o := Step(h.state, e);
    History(o.state, h.log + o.rel, h.arrived + Arrival(e), h.overwritten + o.overwritten, h.pruned + o.pruned,
            h.samples + o.samples)
  }

  ghost predicate LegalRun(h: History, events: seq<Event>)
    requires Inv(h.state)
    decreases |events|
  {
    events != [] ==>
      && Legal(h.state, events[0])
      && (StepPreservesInv(h.state, events[0]); LegalRun(After(h, events[0]), events[1..]))
  }

  ghost function Run(h: History, events: seq<Event>): (r: History)
    requires Inv(h.state) && LegalRun(h, events)
    ensures Inv(r.state)
    decreases |events|
  {
    if events == [] then h
    else
      StepPreservesInv(h.state, events[0]);
      Run(After(h, events[0]), events[1..])
  }

  // ---------------------------------------------------------------- the counters

  predicate SameCounts(a: Stats, b: Stats) {
    a.(maxHeld := b.maxHeld, waitMs := b.waitMs) == b
  }

  lemma {:induction false} TallyIsUniform(a: Stats, b: Stats, rel: seq<Release>)
    requires SameCounts(a, b)
    ensures SameCounts(Tally(a, rel), Tally(b, rel))
    decreases |rel|
  {
    if rel != [] {
      TallyIsUniform(a, b, rel[..|rel| - 1]);
    }
  }

  function CountedPackets(st: Stats): nat {
    st.passthrough + st.inOrder + st.reordered + st.timedOut + st.late + st.forced
  }

  function Jumps(log: seq<Release>): nat {
    if log == [] then 0 else Jumps(log[..|log| - 1]) + (if log[|log| - 1].why == Jumped then 1 else 0)
  }

  lemma {:induction false} TallyCountsAll(log: seq<Release>)
    ensures CountedPackets(Tally(NO_STATS, log)) + Jumps(log) == |log|
    decreases |log|
  {
    if log != [] {
      var rest := log[..|log| - 1];
      TallyCountsAll(rest);
      assert Tally(NO_STATS, log) == Count(Tally(NO_STATS, rest), log[|log| - 1].why);
    }
  }

  ghost predicate CountsLog(st: Stats, log: seq<Release>) {
    SameCounts(st, Tally(NO_STATS, log))
  }

  lemma StepCounts(h: History, e: Event)
    requires Inv(h.state) && CountsLog(h.state.stats, h.log)
    ensures CountsLog(After(h, e).state.stats, After(h, e).log)
  {
    var o := Step(h.state, e);
    TallyOfConcat(NO_STATS, h.log, o.rel);
    TallyIsUniform(h.state.stats, Tally(NO_STATS, h.log), o.rel);
    assert SameCounts(o.state.stats, Tally(h.state.stats, o.rel));
  }

  // ---------------------------------------------------------------- exact waiting

  ghost predicate AllExact(m: Sessions) {
    forall k | k in m :: m[k].held.Exact()
  }

  ghost predicate StepExact(p: Pushed) {
    p.overwritten == multiset{} ==> p.session.held.Exact()
  }

  lemma PushKeepsExact(s: SessionState, packet: Incoming, counter: nat, now: nat, first: Why)
    requires s.held.Exact()
    ensures StepExact(SessionPush(s, packet, counter, now, first))
  {
    if counter == s.next {
      DrainKeepsExact(counter + 1, s.held);
    } else if counter > s.next && counter - s.next <= MAX_GAP {
      ExactIsKept(s.held, counter, Held(packet, now));
      if counter in s.held.at {
        assert s.held.at[counter].packet in multiset{s.held.at[counter].packet};
      }
    }
  }

  lemma {:induction false} ExpireKeepsExact(s: SessionState, wait: nat, now: nat)
    requires s.held.WellFormed() && s.held.Exact()
    ensures SessionExpire(s, wait, now).0.held.Exact()
    decreases |s.held.at|
  {
    if Due(s, wait, now) {
      DrainKeepsExact(Lowest(s.held.at), s.held);
      ExpireKeepsExact(SkipGap(s).0, wait, now);
    }
  }

  lemma StepKeepsExact(s: State, e: Event)
    requires Inv(s) && AllExact(s.sessions) && Step(s, e).overwritten == multiset{}
    ensures AllExact(Step(s, e).state.sessions)
  {
    match e
    case Arrive(packet, now, victim) =>
      if Numbered(packet) {
        var session := SessionFor(MakeRoom(s, KeyOf(packet), victim), KeyOf(packet), CounterOf(packet), now);
        PushNumberedIs(s, packet, now, victim);
        PushKeepsExact(session, packet, CounterOf(packet), now,
                       if KeyOf(packet) in s.sessions then InOrder else Started);
        assert StepExact(Met(s, packet, now, victim));
      }
    case Expire(now, key) =>
      if key in s.sessions {
        ExpireKeepsExact(s.sessions[key], s.pace.wait, now);
      }
  }

  // ---------------------------------------------------------------- whole runs

  ghost predicate Conserves(h: History) {
    multiset(h.arrived)
    == multiset(PacketsOf(h.log)) + multiset(HeldIn(h.state.sessions)) + h.overwritten + h.pruned
  }

  ghost predicate WaitsExactly(h: History) {
    h.overwritten == multiset{} ==> AllExact(h.state.sessions)
  }

  /** Everything that holds of the history of a run that began with the wait settings `initial`. */
  ghost predicate Sound(h: History, initial: Pace) {
    && Inv(h.state)
    && Conserves(h)
    && Ordered(h.log, h.state.sessions)
    && PaceAfter(h.state.pace, initial, h.samples)
    && CountsLog(h.state.stats, h.log)
    && WaitsExactly(h)
  }

  lemma StepConserves(h: History, e: Event)
    requires Inv(h.state) && Legal(h.state, e) && Conserves(h)
    ensures Conserves(After(h, e))
  {
    var o := Step(h.state, e);
    StepBalances(h.state, e);
    PacketsOfConcat(h.log, o.rel);
    ChainBalance(multiset(h.arrived), multiset(PacketsOf(h.log)), multiset(HeldIn(h.state.sessions)),
                 h.overwritten, h.pruned,
                 multiset(Arrival(e)), multiset(PacketsOf(o.rel)), multiset(HeldIn(o.state.sessions)),
                 o.overwritten, o.pruned);
  }

  lemma ChainBalance<T>(all: multiset<T>, out: multiset<T>, held: multiset<T>, over: multiset<T>, pruned: multiset<T>,
                        new1: multiset<T>, out1: multiset<T>, held1: multiset<T>, over1: multiset<T>,
                        pruned1: multiset<T>)
    requires all == out + held + over + pruned
    requires held + new1 == out1 + held1 + over1 + pruned1
    ensures all + new1 == (out + out1) + held1 + (over + over1) + (pruned + pruned1)
  {
    assert all + new1 == out + (held + new1) + over + pruned;
  }

  lemma StepFollowsPace(h: History, e: Event, initial: Pace)
    requires Inv(h.state) && PaceAfter(h.state.pace, initial, h.samples)
    ensures PaceAfter(After(h, e).state.pace, initial, After(h, e).samples)
  {
    var o := Step(h.state, e);
    assert o.samples == [] ==> h.samples + o.samples == h.samples;
    if e.Arrive? && Numbered(e.packet) {
      var samples := SampleOf(Met(h.state, e.packet, e.now, e.victim).noticed, e.now);
      if samples != [] {
        PaceFollowsSamples(h.state.pace, initial, h.samples, samples[0]);
      }
    }
  }

  lemma StepStaysSound(h: History, e: Event, initial: Pace)
    requires Sound(h, initial) && Legal(h.state, e)
    ensures Sound(After(h, e), initial)
  {
    StepPreservesInv(h.state, e);
    StepConserves(h, e);
    StepStaysOrdered(h.log, h.state, e);
    StepFollowsPace(h, e, initial);
    StepCounts(h, e);
    if After(h, e).overwritten == multiset{} {
      NothingInSum(h.overwritten, Step(h.state, e).overwritten);
      StepKeepsExact(h.state, e);
    }
  }

  lemma NothingInSum<T>(a: multiset<T>, b: multiset<T>)
    requires a + b == multiset{}
    ensures a == multiset{} && b == multiset{}
  {
    assert |a + b| == |a| + |b|;
  }

  lemma {:induction false} RunStaysSound(h: History, events: seq<Event>, initial: Pace)
    requires Sound(h, initial) && LegalRun(h, events)
    ensures Sound(Run(h, events), initial)
    decreases |events|
  {
    if events != [] {
      StepStaysSound(h, events[0], initial);
      RunStaysSound(After(h, events[0]), events[1..], initial);
    }
  }

  /** Every run from the start is sound. */
  lemma EveryRunIsSound(initial: Pace, events: seq<Event>)
    requires initial == FixedPace(initial.wait) || initial == AdaptivePace(initial.wait)
    requires LegalRun(Start(initial), events)
    ensures Sound(Run(Start(initial), events), initial)
  {
    var h := Start(initial);
    assert HeldIn(h.state.sessions) == {};
    assert PacketsOf(h.log) == [];
    forall key
      ensures InStep(Floor(Some(0), h.log, key), key, h.state.sessions)
    {
    }
    RunStaysSound(h, events, initial);
  }

  /**
   Conservation: every packet that arrived was handed on once, is still held, was overwritten by a
   copy with the same number, or went with a pruned session; and the counters of the buffer together
   with the jumps (which it does not count) add up to the packets handed on.
   */
  lemma EveryPacketIsAccountedFor(initial: Pace, events: seq<Event>)
    requires initial == FixedPace(initial.wait) || initial == AdaptivePace(initial.wait)
    requires LegalRun(Start(initial), events)
    ensures
      var h := Run(Start(initial), events);
      && multiset(h.arrived)
         == multiset(PacketsOf(h.log)) + multiset(HeldIn(h.state.sessions)) + h.overwritten + h.pruned
      && |h.arrived|
         == CountedPackets(h.state.stats) + Jumps(h.log) + |HeldIn(h.state.sessions)| + |h.overwritten| + |h.pruned|
  {
    EveryRunIsSound(initial, events);
    var h := Run(Start(initial), events);
    TallyCountsAll(h.log);
    assert |multiset(h.arrived)| == |h.arrived|;
    assert |multiset(PacketsOf(h.log))| == |h.log|;
  }

  /** Order: within one numbering of a session, packets that are not late come out by increasing number. */
  lemma EveryStreamIncreases(initial: Pace, events: seq<Event>, key: SessionKey, i: nat, j: nat)
    requires initial == FixedPace(initial.wait) || initial == AdaptivePace(initial.wait)
    requires LegalRun(Start(initial), events)
    requires
      var log := Run(Start(initial), events).log;
      i < j < |log| && InStream(log[i], key) && InStream(log[j], key) && OneNumbering(log, key, i, j)
    ensures
      var log := Run(Start(initial), events).log;
      CounterOf(log[i].packet) < CounterOf(log[j].packet)
  {
    EveryRunIsSound(initial, events);
    var h := Run(Start(initial), events);
    StreamIncreases(h.log, h.state.sessions, key, i, j);
  }

  /** The window the ring rests on, and the bounds on what is remembered, hold in every reachable state. */
  lemma EveryStateFitsTheRing(initial: Pace, events: seq<Event>, key: SessionKey)
    requires initial == FixedPace(initial.wait) || initial == AdaptivePace(initial.wait)
    requires LegalRun(Start(initial), events)
    requires key in Run(Start(initial), events).state.sessions
    ensures
      var h := Run(Start(initial), events);
      var s := h.state.sessions[key];
      && |h.state.sessions| <= MAX_SESSIONS
      && (forall c | c in s.held.at :: s.next < c < s.next + RING && Carries(s.held.at[c].packet, key, c))
      && (forall c | c in s.held.at :: s.held.oldest.Some? && s.held.oldest.value <= s.held.at[c].arrived)
      && (h.overwritten == multiset{} ==> s.held.Exact())
      && (forall c | c in s.skipped :: c < s.next)
      && |s.skipped| <= MAX_SKIPPED
  {
    EveryRunIsSound(initial, events);
    var h := Run(Start(initial), events);
    assert SessionInv(key, h.state.sessions[key]);
  }

  /** The samples up to the last multiple of 64, and of these the last 512. */
  function LastWindow(samples: seq<nat>): seq<nat> {
    var m := |samples| - |samples| % 64;
    samples[if m > 512 then m - 512 else 0..m]
  }

  /**
   The adaptive wait in every reachable state: with fewer than 64 samples the initial one, kept between 3 and 30
   milliseconds; from then on it is measured from the last window of samples.
   */
  lemma EveryWaitIsMeasured(initial: nat, events: seq<Event>)
    requires LegalRun(Start(AdaptivePace(initial)), events)
    ensures
      var h := Run(Start(AdaptivePace(initial)), events);
      && 3_000_000 <= h.state.pace.wait <= 30_000_000
      && (|h.samples| < 64 ==>
            h.state.pace.wait
            == if initial < 3_000_000 then 3_000_000 else if initial > 30_000_000 then 30_000_000 else initial)
      && (|h.samples| >= 64 ==> IsMeasured(h.state.pace.wait, LastWindow(h.samples)))
  {
    hide Sound, IsMeasured, Run, WaitFor;
    EveryRunIsSound(AdaptivePace(initial), events);
    var h := Run(Start(AdaptivePace(initial)), events);
    SoundIsPaced(h, AdaptivePace(initial));
    WaitStaysInLimits(h.state.pace, initial, h.samples);
    if |h.samples| >= 64 {
      WindowIsLast(h.samples);
      WaitIsMeasured(LastWindow(h.samples));
    }
  }

  lemma SoundIsPaced(h: History, initial: Pace)
    requires Sound(h, initial)
    ensures PaceAfter(h.state.pace, initial, h.samples)
  {
  }

  lemma WindowIsLast(samples: seq<nat>)
    requires |samples| >= 64
    ensures Counted(samples) != [] && LastOf(Counted(samples), LATENESS_WINDOW) == LastWindow(samples)
    ensures 0 < |LastWindow(samples)| <= 512 && |LastWindow(samples)| % 64 == 0
  {
  }

  /** A fixed wait stays as it was set, whatever arrives, and nothing is measured. */
  lemma EveryFixedWaitStays(wait: nat, events: seq<Event>)
    requires LegalRun(Start(FixedPace(wait)), events)
    ensures
      var h := Run(Start(FixedPace(wait)), events);
      h.state.pace.wait == wait && h.samples == []
  {
    hide Sound, Run;
    EveryRunIsSound(FixedPace(wait), events);
    SoundIsPaced(Run(Start(FixedPace(wait)), events), FixedPace(wait));
  }

  // ---------------------------------------------------------------- `expire_into` as part of a run

  lemma AfterIsStep(h: History, e: Event)
    requires Inv(h.state)
    ensures After(h, e).state == Step(h.state, e).state
  {
  }

  lemma {:induction false} RunOfConcat(h: History, a: seq<Event>, b: seq<Event>)
    requires Inv(h.state) && LegalRun(h, a) && LegalRun(Run(h, a), b)
    ensures LegalRun(h, a + b) && Run(h, a + b) == Run(Run(h, a), b)
    decreases |a|
  {
    hide Inv, Legal, After;
    if a == [] {
      assert a + b == b;
    } else {
      StepPreservesInv(h.state, a[0]);
      AfterIsStep(h, a[0]);
      assert (a + b)[0] == a[0] && (a + b)[1..] == a[1..] + b;
      RunOfConcat(After(h, a[0]), a[1..], b);
    }
  }

  function Expiries(now: nat, order: seq<SessionKey>): (events: seq<Event>)
    ensures |events| == |order|
  {
    seq(|order|, i requires 0 <= i < |order| => Expire(now, order[i]))
  }

  /** A history that stands where `o` stands, after `h` and nothing but expiries. */
  ghost predicate Reaches(h: History, o: Outcome, r: History) {
    r.state == o.state && r.log == h.log + o.rel && r.arrived == h.arrived
  }

  lemma ExpireStepReaches(h: History, before: History, now: nat, key: SessionKey, done: Outcome, all: Outcome)
    requires Reaches(h, done, before) && Inv(before.state)
    requires key in before.state.sessions && AllWellFormed(before.state)
    requires all.state == ExpireOne(before.state, now, key).state
    requires all.rel == done.rel + ExpireOne(before.state, now, key).rel
    ensures Legal(before.state, Expire(now, key)) && Reaches(h, all, After(before, Expire(now, key)))
  {
    hide ExpireOne, Inv;
    var one := ExpireOne(before.state, now, key);
    assert (h.log + done.rel) + one.rel == h.log + (done.rel + one.rel);
  }

  /** One call of `expire_into` is a run of one expiry for every session, in the order it visits them. */
  lemma {:induction false} ExpireAllIsARun(h: History, now: nat, order: seq<SessionKey>)
    requires Inv(h.state) && AllWellFormed(h.state) && forall k | k in order :: k in h.state.sessions
    ensures LegalRun(h, Expiries(now, order))
    ensures Reaches(h, ExpireAll(h.state, now, order), Run(h, Expiries(now, order)))
    decreases |order|
  {
    if order == [] {
      assert h.log + ExpireAll(h.state, now, order).rel == h.log;
    } else {
      var rest, last := order[..|order| - 1], order[|order| - 1];
      assert order == rest + [last];
      ExpireAllIsARun(h, now, rest);
      ExtendRun(h, now, rest, last);
    }
  }

  lemma ExtendRun(h: History, now: nat, rest: seq<SessionKey>, last: SessionKey)
    requires Inv(h.state) && AllWellFormed(h.state)
    requires (forall k | k in rest :: k in h.state.sessions) && last in h.state.sessions
    requires LegalRun(h, Expiries(now, rest)) && Reaches(h, ExpireAll(h.state, now, rest), Run(h, Expiries(now, rest)))
    ensures forall k | k in rest + [last] :: k in h.state.sessions
    ensures LegalRun(h, Expiries(now, rest + [last]))
    ensures Reaches(h, ExpireAll(h.state, now, rest + [last]), Run(h, Expiries(now, rest + [last])))
  {
    hide Inv, AllWellFormed, ExpireAll, LegalRun, Run, After, Legal, ExpireOne;
    var before, e := Run(h, Expiries(now, rest)), Expire(now, last);
    ExpireAllLast(h.state, now, rest, last);
    ExpireStepReaches(h, before, now, last, ExpireAll(h.state, now, rest), ExpireAll(h.state, now, rest + [last]));
    assert Expiries(now, rest + [last]) == Expiries(now, rest) + [e];
    OneStepRun(before, e);
    RunOfConcat(h, Expiries(now, rest), [e]);
  }

  lemma OneStepRun(h: History, e: Event)
    requires Inv(h.state) && Legal(h.state, e)
    ensures LegalRun(h, [e]) && Run(h, [e]) == After(h, e)
  {
    StepPreservesInv(h.state, e);
    assert [e][1..] == [];
    assert LegalRun(After(h, e), []);
  }
}
