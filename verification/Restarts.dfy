/**
 A sender that starts its count anew: from its first packet on, the order buffer restores the order of the new numbers;
 and what the order buffer remembers of a whole run for that purpose and for its statistics.
 */
module Restarts {
  import opened Prelude
  import opened Packets
  import opened HeldRings
  import opened Lateness
  import opened ReorderSpec
  import opened ReorderRuns
  import opened ReorderHistory
  import opened ReorderTheorems
  import opened PushEffects

  // ---------------------------------------------------------------- the new numbers come out in order

  /** What a session hands on, and what becomes of it, when these packets arrive at these moments. */
  ghost function PushAll(s: SessionState, packets: seq<Incoming>, moments: seq<nat>): (SessionState, seq<Incoming>)
    requires |packets| == |moments| && forall p | p in packets :: Numbered(p)
    decreases |packets|
  {
    if packets == [] then (s, [])
    else
      var p := SessionPush(s, packets[0], CounterOf(packets[0]), moments[0], InOrder);
      var (t, more) := PushAll(p.session, packets[1..], moments[1..]);
      (t, PacketsOf(p.rel) + more)
  }

  predicate Positions(order: seq<nat>, n: nat) {
    forall k | 0 <= k < |order| :: order[k] < n
  }

  /** The packets of `stream` in this order of arrival. */
  function Arriving(stream: seq<Incoming>, order: seq<nat>): (packets: seq<Incoming>)
    requires Positions(order, |stream|)
    ensures |packets| == |order|
  {
    seq(|order|, k requires 0 <= k < |order| => stream[order[k]])
  }

  /** The stream carries the numbers from `base` on. */
  ghost predicate CountsFrom(stream: seq<Incoming>, key: SessionKey, base: nat) {
    forall m: nat | m < |stream| :: Carries(stream[m], key, base + m)
  }

  /** Each position at most once, and none before all those more than 511 below it. */
  ghost predicate OnTime(order: seq<nat>, arrived: set<nat>) {
    && Distinct(order)
    && (forall k | 0 <= k < |order| :: order[k] !in arrived)
    && (forall k, m: nat | 0 <= k < |order| && m + 511 < order[k] :: m in arrived || m in order[..k])
  }

  predicate HeldAt(s: SessionState, base: nat, m: nat) {
    base + m in s.held.at
  }

  /** The stream is handed on up to its first missing packet; what arrived beyond is held. */
  ghost predicate InStep(s: SessionState, stream: seq<Incoming>, base: nat, n: nat, arrived: set<nat>) {
    && n <= |stream| && s.next == base + n
    && (forall m: nat | m < n :: m in arrived) && n !in arrived
    && (forall m | m in arrived :: m < |stream|)
    && (forall c | c in s.held.at :: base <= c < base + |stream|)
    && (forall m: nat | m < |stream| :: HeldAt(s, base, m) <==> m > n && m in arrived)
    && (forall m: nat | m < |stream| && HeldAt(s, base, m) :: IsHeldAs(stream[m], s.held.at, base + m))
  }

  lemma NextOfStream(key: SessionKey, s: SessionState, stream: seq<Incoming>, base: nat, n: nat, arrived: set<nat>,
                     now: nat) returns (n': nat)
    requires SessionInv(key, s) && InStep(s, stream, base, n, arrived) && CountsFrom(stream, key, base)
    requires n < |stream|
    ensures
      var p := SessionPush(s, stream[n], base + n, now, InOrder);
      && n < n' <= |stream| && PacketsOf(p.rel) == stream[n..n']
      && InStep(p.session, stream, base, n', arrived + {n})
  {
    hide SessionInv, SessionPush, CountsFrom;
    TheExpected(key, s, stream[n], now, InOrder);
    var p := SessionPush(s, stream[n], base + n, now, InOrder);
    var out := PacketsOf(p.rel);
    n' := n + |out|;
    forall m: nat | n < m < n'
      ensures HeldAt(s, base, m) && m < |stream| && out[m - n] == stream[m]
    {
      assert IsHeldAs(out[1..][m - n - 1], s.held.at, base + n + 1 + (m - n - 1));
      assert out[1..][m - n - 1] == out[m - n];
      assert HeldAt(s, base, m);
    }
    if n' > n + 1 {
      assert HeldAt(s, base, n' - 1);
    }
    forall i | 0 <= i < |out|
      ensures out[i] == stream[n..n'][i]
    {
      if i > 0 {
        assert HeldAt(s, base, n + i);
      }
    }
    assert out == stream[n..n'];
    RunInStep(s, p.session, stream, base, n, n', arrived);
  }

  lemma RunInStep(s: SessionState, t: SessionState, stream: seq<Incoming>, base: nat, n: nat, n': nat,
                  arrived: set<nat>)
    requires InStep(s, stream, base, n, arrived) && n < n' <= |stream| && t.next == base + n'
    requires KeepsOutside(s.held.at, t.held.at, base + n, base + n') && base + n' !in s.held.at
    requires forall m: nat | n < m < n' :: HeldAt(s, base, m)
    ensures InStep(t, stream, base, n', arrived + {n})
  {
    assert n' < |stream| ==> !HeldAt(s, base, n');
    forall m: nat | m < |stream|
      ensures HeldAt(t, base, m) <==> m > n' && m in arrived + {n}
    {
      assert HeldAt(t, base, m) <==> HeldAt(s, base, m) && !(n <= m < n');
    }
    forall m: nat | m < n'
      ensures m in arrived + {n}
    {
      if m > n {
        assert HeldAt(s, base, m);
      }
    }
    forall m: nat | m < |stream| && HeldAt(t, base, m)
      ensures IsHeldAs(stream[m], t.held.at, base + m)
    {
      assert HeldAt(s, base, m);
      assert IsHeldAs(stream[m], s.held.at, base + m);
    }
  }

  lemma AheadInStream(key: SessionKey, s: SessionState, stream: seq<Incoming>, base: nat, n: nat, arrived: set<nat>,
                      m: nat, now: nat)
    requires SessionInv(key, s) && InStep(s, stream, base, n, arrived) && CountsFrom(stream, key, base)
    requires n < m < |stream| && m - n <= 511
    ensures
      var p := SessionPush(s, stream[m], base + m, now, InOrder);
      p.rel == [] && InStep(p.session, stream, base, n, arrived + {m})
  {
    hide SessionInv, SessionPush, CountsFrom;
    AheadOfTheExpected(key, s, stream[m], base + m, now, InOrder);
    var t := SessionPush(s, stream[m], base + m, now, InOrder).session;
    HoldInStep(s, t, stream, base, n, arrived, m, now);
  }

  lemma HoldInStep(s: SessionState, t: SessionState, stream: seq<Incoming>, base: nat, n: nat, arrived: set<nat>,
                   m: nat, now: nat)
    requires InStep(s, stream, base, n, arrived) && n < m < |stream|
    requires t.next == s.next && t.held.at == s.held.at[base + m := Held(stream[m], now)]
    ensures InStep(t, stream, base, n, arrived + {m})
  {
    forall k: nat | k < |stream|
      ensures HeldAt(t, base, k) <==> k > n && k in arrived + {m}
    {
      assert HeldAt(t, base, k) <==> HeldAt(s, base, k) || k == m;
    }
    forall k: nat | k < |stream| && HeldAt(t, base, k)
      ensures IsHeldAs(stream[k], t.held.at, base + k)
    {
      if k != m {
        assert HeldAt(s, base, k);
        assert IsHeldAs(stream[k], s.held.at, base + k);
      }
    }
  }

  lemma OnTimeAfter(order: seq<nat>, arrived: set<nat>)
    requires OnTime(order, arrived) && order != []
    ensures OnTime(order[1..], arrived + {order[0]})
  {
    var rest := order[1..];
    forall k, m: nat | 0 <= k < |rest| && m + 511 < rest[k]
      ensures m in arrived + {order[0]} || m in rest[..k]
    {
      assert rest[k] == order[k + 1] && order[..k + 1] == [order[0]] + rest[..k];
    }
  }

  lemma ArrivingFirst(stream: seq<Incoming>, order: seq<nat>)
    requires order != [] && Positions(order, |stream|)
    ensures Arriving(stream, order)[0] == stream[order[0]]
    ensures Arriving(stream, order)[1..] == Arriving(stream, order[1..])
  {
  }

  lemma {:induction false} StreamComesOut(key: SessionKey, s: SessionState, stream: seq<Incoming>, base: nat, n: nat,
                                          arrived: set<nat>, order: seq<nat>, moments: seq<nat>)
    returns (n': nat)
    requires SessionInv(key, s) && InStep(s, stream, base, n, arrived) && CountsFrom(stream, key, base)
    requires OnTime(order, arrived) && |moments| == |order| && Positions(order, |stream|)
    ensures forall p | p in Arriving(stream, order) :: Numbered(p)
    ensures
      var (t, out) := PushAll(s, Arriving(stream, order), moments);
      && n <= n' <= |stream| && out == stream[n..n'] && InStep(t, stream, base, n', arrived + Set(order))
    decreases |order|
  {
    hide SessionPush, SessionInv, OnTime, InStep;
    forall p | p in Arriving(stream, order)
      ensures Numbered(p)
    {
      var k :| 0 <= k < |order| && Arriving(stream, order)[k] == p;
      assert Carries(stream[order[k]], key, base + order[k]);
    }
    WithinStream(s, stream, base, n, arrived);
    if order == [] {
      n' := n;
      assert arrived + Set(order) == arrived;
      assert stream[n..n] == [];
    } else {
      var m := order[0];
      ArrivingFirst(stream, order);
      assert Carries(stream[m], key, base + m);
      var p := SessionPush(s, stream[m], base + m, moments[0], InOrder);
      PushKeepsSessionInv(key, s, stream[m], base + m, moments[0], InOrder);
      var mid := OneOfStream(key, s, stream, base, n, arrived, order, moments[0]);
      OnTimeAfter(order, arrived);
      assert SessionInv(key, p.session) by { InvOfStep(p, key); }
      n' := StreamComesOut(key, p.session, stream, base, mid, arrived + {m}, order[1..], moments[1..]);
      assert arrived + Set(order) == arrived + {m} + Set(order[1..]) by { SetOfHead(order); }
      assert stream[n..mid] + stream[mid..n'] == stream[n..n'];
    }
  }

  lemma WithinStream(s: SessionState, stream: seq<Incoming>, base: nat, n: nat, arrived: set<nat>)
    requires InStep(s, stream, base, n, arrived)
    ensures n <= |stream|
  {
  }

  lemma NothingBeyond(s: SessionState, stream: seq<Incoming>, base: nat, arrived: set<nat>)
    requires InStep(s, stream, base, |stream|, arrived)
    ensures s.held.at == map[]
  {
    forall c
      ensures c !in s.held.at
    {
      assert c in s.held.at ==> HeldAt(s, base, c - base);
    }
    assert s.held.at.Keys == {};
  }

  lemma InvOfStep(p: Pushed, key: SessionKey)
    requires StepKeepsInv(p, key)
    ensures SessionInv(key, p.session)
  {
  }

  function UpTo(n: nat): set<nat> {
    if n == 0 then {} else UpTo(n - 1) + {n - 1}
  }

  function Set(order: seq<nat>): set<nat> {
    set m | m in order
  }

  lemma SetOfHead(order: seq<nat>)
    requires order != []
    ensures Set(order) == {order[0]} + Set(order[1..])
  {
    assert order == [order[0]] + order[1..];
  }

  lemma OneOfStream(key: SessionKey, s: SessionState, stream: seq<Incoming>, base: nat, n: nat, arrived: set<nat>,
                    order: seq<nat>, now: nat) returns (n': nat)
    requires SessionInv(key, s) && InStep(s, stream, base, n, arrived) && CountsFrom(stream, key, base)
    requires OnTime(order, arrived) && order != [] && order[0] < |stream|
    ensures
      var p := SessionPush(s, stream[order[0]], base + order[0], now, InOrder);
      && n <= n' <= |stream| && PacketsOf(p.rel) == stream[n..n']
      && InStep(p.session, stream, base, n', arrived + {order[0]})
  {
    hide SessionInv, SessionPush;
    var m := order[0];
    assert order[..0] == [];
    if m == n {
      n' := NextOfStream(key, s, stream, base, n, arrived, now);
    } else {
      assert n < m && m - n <= 511;
      AheadInStream(key, s, stream, base, n, arrived, m, now);
      n' := n;
      assert stream[n..n] == [];
    }
  }

  /** A full set of positions: none is missing. */
  lemma {:induction false} AllArrived(order: seq<nat>, n: nat)
    requires Distinct(order) && |order| == n && Positions(order, n)
    ensures forall m: nat | m < n :: m in order
  {
    SizeOfSet(order);
    SizeOfRange(n);
    assert Set(order) <= UpTo(n);
    forall m: nat | m < n
      ensures m in order
    {
      if m !in order {
        SubsetIsSmaller(Set(order), UpTo(n) - {m});
      }
    }
  }

  lemma {:induction false} SizeOfSet(order: seq<nat>)
    requires Distinct(order)
    ensures |Set(order)| == |order|
  {
    if order != [] {
      SetOfHead(order);
      SizeOfSet(order[1..]);
      assert order[0] !in order[1..];
    }
  }

  lemma {:induction false} SizeOfRange(n: nat)
    ensures |UpTo(n)| == n && forall m: nat :: m in UpTo(n) <==> m < n
  {
    if n > 0 {
      SizeOfRange(n - 1);
    }
  }

  /**
   The sender restarts: a packet comes more than 511 numbers behind the expected one, or behind it after three seconds
   of silence. It follows everything that was held; and from then on the new numbers come out in their order, each once
   and all of them, whatever order they arrive in as long as none is more than 511 places early.
   */
  lemma ARestartIsFollowed(key: SessionKey, s: SessionState, first: Incoming, now: nat, stream: seq<Incoming>,
                           order: seq<nat>, moments: seq<nat>)
    requires SessionInv(key, s) && Numbered(first) && Carries(first, key, CounterOf(first))
    requires CounterOf(first) + 511 < s.next || (CounterOf(first) < s.next && now - s.lastSeen >= 3_000_000_000)
    requires CountsFrom(stream, key, CounterOf(first) + 1)
    requires OnTime(order, {}) && |order| == |stream| == |moments| && Positions(order, |stream|)
    ensures forall p | p in Arriving(stream, order) :: Numbered(p)
    ensures
      var p := SessionPush(s, first, CounterOf(first), now, InOrder);
      var (t, out) := PushAll(p.session, Arriving(stream, order), moments);
      && AllAndThen(PacketsOf(p.rel), s.held.at, first)
      && out == stream
      && t.next == CounterOf(first) + 1 + |stream| && t.held.at == map[]
  {
    hide SessionPush, SessionInv, OnTime;
    var c, base := CounterOf(first), CounterOf(first) + 1;
    var p := SessionPush(s, first, c, now, InOrder);
    BehindTheExpected(key, s, first, c, now, InOrder);
    PushKeepsSessionInv(key, s, first, c, now, InOrder);
    InvOfStep(p, key);
    assert InStep(p.session, stream, base, 0, {});
    var n := StreamComesOut(key, p.session, stream, base, 0, {}, order, moments);
    OnTimeIsDistinct(order);
    AllArrived(order, |stream|);
    assert {} + Set(order) == Set(order);
    var (t, out) := PushAll(p.session, Arriving(stream, order), moments);
    assert n == |stream|;
    assert stream[0..n] == stream;
    NothingBeyond(t, stream, base, {} + Set(order));
  }

  lemma OnTimeIsDistinct(order: seq<nat>)
    requires OnTime(order, {})
    ensures Distinct(order)
  {
  }

  // ---------------------------------------------------------------- the last arrival of a session

  /** When a packet of this session came last. */
  function LastArrival(events: seq<Event>, key: SessionKey): Option<nat>
    decreases |events|
  {
    if events == [] then None
    else
      var e := events[|events| - 1];
      if e.Arrive? && Numbered(e.packet) && KeyOf(e.packet) == key then Some(e.now)
      else LastArrival(events[..|events| - 1], key)
  }

  lemma LastArrivalExtended(events: seq<Event>, e: Event, key: SessionKey)
    ensures LastArrival(events + [e], key)
            == if e.Arrive? && Numbered(e.packet) && KeyOf(e.packet) == key then Some(e.now)
               else LastArrival(events, key)
  {
    assert (events + [e])[..|events|] == events;
  }

  ghost predicate SeenLast(m: Sessions, events: seq<Event>) {
    forall key | key in m :: LastArrival(events, key) == Some(m[key].lastSeen)
  }

  lemma PushSees(s: SessionState, packet: Incoming, counter: nat, now: nat, first: Why)
    ensures SessionPush(s, packet, counter, now, first).session.lastSeen == now
  {
    hide Drain, Flushed;
  }

  lemma {:induction false} ExpireSeesNothing(s: SessionState, wait: nat, now: nat)
    requires s.held.WellFormed()
    ensures SessionExpire(s, wait, now).0.lastSeen == s.lastSeen
    decreases |s.held.at|
  {
    if Due(s, wait, now) {
      ExpireSeesNothing(SkipGap(s).0, wait, now);
    }
  }

  lemma StepSees(s: State, events: seq<Event>, e: Event)
    requires Inv(s) && Legal(s, e) && SeenLast(s.sessions, events)
    ensures SeenLast(Step(s, e).state.sessions, events + [e])
  {
    hide SessionPush, SessionExpire, SessionInv, Tally, LastArrival;
    forall key | key in Step(s, e).state.sessions
      ensures LastArrival(events + [e], key) == Some(Step(s, e).state.sessions[key].lastSeen)
    {
      LastArrivalExtended(events, e, key);
      match e
      case Arrive(packet, now, victim) =>
        if Numbered(packet) {
          PushNumberedIs(s, packet, now, victim);
          PushSees(SessionFor(MakeRoom(s, KeyOf(packet), victim), KeyOf(packet), CounterOf(packet), now), packet,
                   CounterOf(packet), now, if KeyOf(packet) in s.sessions then InOrder else Started);
        }
      case Expire(now, k) =>
        if k in s.sessions {
          assert SessionInv(k, s.sessions[k]);
          ExpireKeepsSessionInv(k, s.sessions[k], s.pace.wait, now);
          HeldIsWellFormed(k, s.sessions[k]);
          ExpireSeesNothing(s.sessions[k], s.pace.wait, now);
        }
    }
  }

  lemma HeldIsWellFormed(key: SessionKey, s: SessionState)
    requires SessionInv(key, s)
    ensures s.held.WellFormed()
  {
  }

  lemma {:induction false} RunSees(h: History, past: seq<Event>, events: seq<Event>)
    requires Inv(h.state) && LegalRun(h, events) && SeenLast(h.state.sessions, past)
    ensures SeenLast(Run(h, events).state.sessions, past + events)
    decreases |events|
  {
    hide Inv, Legal, SeenLast, Step;
    if events == [] {
      assert past + events == past;
    } else {
      StepPreservesInv(h.state, events[0]);
      StepSees(h.state, past, events[0]);
      AfterIsStep(h, events[0]);
      RunSees(After(h, events[0]), past + [events[0]], events[1..]);
      assert past + [events[0]] + events[1..] == past + events;
    }
  }

  /** In every reachable state a session remembers when its last packet came, whatever was expired since. */
  lemma EverySessionSawItsLast(initial: Pace, events: seq<Event>, key: SessionKey)
    requires LegalRun(Start(initial), events) && key in Run(Start(initial), events).state.sessions
    ensures LastArrival(events, key) == Some(Run(Start(initial), events).state.sessions[key].lastSeen)
  {
    RunSees(Start(initial), [], events);
    assert [] + events == events;
  }

  // ---------------------------------------------------------------- the most ever held, and the wait shown

  ghost predicate HoldsAtMost(s: State, n: nat) {
    forall k | k in s.sessions :: |s.sessions[k].held.at| <= n
  }

  ghost predicate HoldsExactly(s: State, n: nat) {
    exists k :: k in s.sessions && |s.sessions[k].held.at| == n
  }

  ghost predicate ShownRight(s: State) {
    HoldsAtMost(s, s.stats.maxHeld) && s.stats.waitMs == s.pace.wait / 1_000_000
  }

  lemma {:induction false} DrainHoldsLess(next: nat, held: HeldMap)
    ensures |Drain(next, held).held.at| <= |held.at|
    decreases |held.at|
  {
    if next in held.at {
      CardinalityOfRemove(held.at, next);
      DrainHoldsLess(next + 1, held.Remove(next));
    }
  }

  lemma {:induction false} ExpireHoldsLess(s: SessionState, wait: nat, now: nat)
    requires s.held.WellFormed()
    ensures |SessionExpire(s, wait, now).0.held.at| <= |s.held.at|
    decreases |s.held.at|
  {
    if Due(s, wait, now) {
      ExpireHoldsLess(SkipGap(s).0, wait, now);
    }
  }

  lemma PushHoldsLess(s: SessionState, packet: Incoming, counter: nat, now: nat, first: Why)
    ensures
      var p := SessionPush(s, packet, counter, now, first);
      p.rel != [] ==> |p.session.held.at| <= |s.held.at|
  {
    hide Drain, Flushed;
    DrainHoldsLess(counter + 1, s.held);
  }

  lemma {:induction false} TallyKeepsShown(st: Stats, rel: seq<Release>)
    ensures Tally(st, rel).maxHeld == st.maxHeld && Tally(st, rel).waitMs == st.waitMs
    decreases |rel|
  {
    if rel != [] {
      TallyKeepsShown(st, rel[..|rel| - 1]);
    }
  }

  lemma ArrivalIsShown(s: State, packet: Incoming, now: nat, victim: SessionKey)
    requires Inv(s) && Numbered(packet) && ShownRight(s)
    ensures
      var t := PushNumbered(s, packet, now, victim).state;
      && ShownRight(t)
      && t.stats.maxHeld >= s.stats.maxHeld
      && (t.stats.maxHeld != s.stats.maxHeld ==> HoldsExactly(t, t.stats.maxHeld))
  {
    hide SessionPush, Tally, Inv, RecordLateness;
    var room := MakeRoom(s, KeyOf(packet), victim);
    var session := SessionFor(room, KeyOf(packet), CounterOf(packet), now);
    var first := if KeyOf(packet) in s.sessions then InOrder else Started;
    var p := SessionPush(session, packet, CounterOf(packet), now, first);
    PushHoldsLess(session, packet, CounterOf(packet), now, first);
    TallyKeepsShown(s.stats, p.rel);
    var t := PushNumbered(s, packet, now, victim).state;
    assert t.sessions[KeyOf(packet)] == p.session;
    assert |session.held.at| <= s.stats.maxHeld;
  }

  lemma StepIsShown(s: State, e: Event)
    requires Inv(s) && ShownRight(s)
    ensures
      var t := Step(s, e).state;
      && ShownRight(t)
      && t.stats.maxHeld >= s.stats.maxHeld
      && (t.stats.maxHeld != s.stats.maxHeld ==> HoldsExactly(t, t.stats.maxHeld))
  {
    hide SessionExpire, Tally, PushNumbered, SessionInv;
    match e
    case Arrive(packet, now, victim) =>
      if Numbered(packet) {
        ArrivalIsShown(s, packet, now, victim);
      } else {
        TallyKeepsShown(s.stats, [Release(packet, Plain)]);
      }
    case Expire(now, key) =>
      if key in s.sessions {
        assert SessionInv(key, s.sessions[key]);
        HeldIsWellFormed(key, s.sessions[key]);
        ExpireHoldsLess(s.sessions[key], s.pace.wait, now);
        TallyKeepsShown(s.stats, Tag(SessionExpire(s.sessions[key], s.pace.wait, now).1, TimedOut));
      }
  }

  /** The states between the events of a run. */
  lemma {:induction false} RunSplits(h: History, events: seq<Event>, i: nat)
    requires Inv(h.state) && LegalRun(h, events) && i <= |events|
    ensures LegalRun(h, events[..i]) && LegalRun(Run(h, events[..i]), events[i..])
    ensures Run(Run(h, events[..i]), events[i..]) == Run(h, events)
    decreases i
  {
    hide Inv, Legal, After;
    if i == 0 {
      assert events[..0] == [] && events[0..] == events;
    } else {
      StepPreservesInv(h.state, events[0]);
      AfterIsStep(h, events[0]);
      RunSplits(After(h, events[0]), events[1..], i - 1);
      assert events[..i][0] == events[0] && events[..i][1..] == events[1..][..i - 1];
      assert events[1..][i - 1..] == events[i..];
    }
  }

  lemma StartsWell(initial: Pace)
    ensures Inv(Start(initial).state)
  {
  }

  /** After the first `i` events. */
  ghost function StateAfter(initial: Pace, events: seq<Event>, i: nat): State
    requires LegalRun(Start(initial), events) && i <= |events|
  {
    RunSplits(Start(initial), events, i);
    Run(Start(initial), events[..i]).state
  }

  lemma OneMoreEvent(initial: Pace, events: seq<Event>, i: nat)
    requires LegalRun(Start(initial), events) && i < |events|
    ensures
      var s := StateAfter(initial, events, i);
      Inv(s) && Legal(s, events[i]) && StateAfter(initial, events, i + 1) == Step(s, events[i]).state
  {
    hide Inv, Legal, After;
    var h := Start(initial);
    StartsWell(initial);
    RunSplits(h, events, i);
    var mid := Run(h, events[..i]);
    assert events[i..][0] == events[i];
    StepPreservesInv(mid.state, events[i]);
    AfterIsStep(mid, events[i]);
    OneStepRun(mid, events[i]);
    RunOfConcat(h, events[..i], [events[i]]);
    assert events[..i + 1] == events[..i] + [events[i]];
  }

  /** Up to event `i` no session ever held more than `n` packets at once, and some held `n`, unless `n` is 0. */
  ghost predicate MostHeld(initial: Pace, events: seq<Event>, i: nat, n: nat)
    requires LegalRun(Start(initial), events) && i <= |events|
  {
    && (forall j: nat | j <= i :: HoldsAtMost(StateAfter(initial, events, j), n))
    && (n > 0 ==> exists j: nat :: j <= i && HoldsExactly(StateAfter(initial, events, j), n))
  }

  lemma MoreHeld(initial: Pace, events: seq<Event>, i: nat, n: nat, m: nat)
    requires LegalRun(Start(initial), events) && i < |events| && MostHeld(initial, events, i, n)
    requires n <= m && HoldsAtMost(StateAfter(initial, events, i + 1), m)
    requires m != n ==> HoldsExactly(StateAfter(initial, events, i + 1), m)
    ensures MostHeld(initial, events, i + 1, m)
  {
    hide LegalRun, StateAfter, HoldsExactly;
    forall j: nat | j <= i + 1
      ensures HoldsAtMost(StateAfter(initial, events, j), m)
    {
      if j <= i {
        AtMostMore(StateAfter(initial, events, j), n, m);
      }
    }
  }

  lemma AtMostMore(s: State, n: nat, m: nat)
    requires HoldsAtMost(s, n) && n <= m
    ensures HoldsAtMost(s, m)
  {
  }

  lemma {:induction false} ShownUpTo(initial: Pace, events: seq<Event>, i: nat)
    requires LegalRun(Start(initial), events) && i <= |events|
    ensures
      var s := StateAfter(initial, events, i);
      ShownRight(s) && MostHeld(initial, events, i, s.stats.maxHeld)
    decreases i
  {
    hide Run, Step, LegalRun, StateAfter, HoldsExactly, Inv;
    if i == 0 {
      NothingShown(initial, events);
    } else {
      ShownUpTo(initial, events, i - 1);
      OneMoreEvent(initial, events, i - 1);
      var s := StateAfter(initial, events, i - 1);
      StepIsShown(s, events[i - 1]);
      hide MostHeld, HoldsAtMost;
      MoreHeld(initial, events, i - 1, s.stats.maxHeld, StateAfter(initial, events, i).stats.maxHeld);
    }
  }

  lemma NothingShown(initial: Pace, events: seq<Event>)
    requires LegalRun(Start(initial), events)
    ensures ShownRight(StateAfter(initial, events, 0)) && StateAfter(initial, events, 0).stats.maxHeld == 0
  {
    assert events[..0] == [];
  }

  /**
   The figures shown: `maxHeld` is the largest number of packets any session ever held at once, and `waitMs` the wait in
   whole milliseconds, in every reachable state.
   */
  lemma EveryStateShowsItsFigures(initial: Pace, events: seq<Event>)
    requires LegalRun(Start(initial), events)
    ensures
      var s := Run(Start(initial), events).state;
      && s.stats.waitMs == s.pace.wait / 1_000_000
      && MostHeld(initial, events, |events|, s.stats.maxHeld)
  {
    ShownUpTo(initial, events, |events|);
    assert events[..|events|] == events;
  }
}
