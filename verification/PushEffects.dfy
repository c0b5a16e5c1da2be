/**
 What one arriving packet does to the order buffer, told by numbers and moments: what is handed on and in which order,
 what is held afterwards, what is counted and which lateness is measured.
 */
module PushEffects {
  import opened Prelude
  import opened Packets
  import opened HeldRings
  import opened Lateness
  import opened ReorderSpec
  import opened ReorderRuns
  import opened ReorderHistory

  // ---------------------------------------------------------------- one session

  /** `packets` is everything held, once each, by ascending number. */
  ghost predicate AllInOrder(packets: seq<Incoming>, at: map<nat, Held>) {
    && |packets| == |at|
    && (forall i | 0 <= i < |packets| :: Numbered(packets[i]) && IsHeldAs(packets[i], at, CounterOf(packets[i])))
    && (forall i, j | 0 <= i < j < |packets| :: CounterOf(packets[i]) < CounterOf(packets[j]))
  }

  ghost predicate IsHeldAs(packet: Incoming, at: map<nat, Held>, c: nat) {
    c in at && at[c].packet == packet
  }

  lemma LowestFirst(at: map<nat, Held>, key: SessionKey, c: nat, rest: seq<Incoming>)
    requires AllCarry(at, key) && IsLowest(at, c) && AllInOrder(rest, at - {c}) && |at - {c}| == |at| - 1
    ensures AllInOrder([at[c].packet] + rest, at)
  {
    assert Carries(at[c].packet, key, c);
    forall i | 0 <= i < |rest|
      ensures IsHeldAs(rest[i], at, CounterOf(rest[i])) && c < CounterOf(rest[i])
    {
      assert IsHeldAs(rest[i], at - {c}, CounterOf(rest[i]));
    }
  }

  lemma {:induction false} FlushedInOrder(at: map<nat, Held>, key: SessionKey)
    requires AllCarry(at, key)
    ensures AllInOrder(Flushed(at), at)
    decreases |at|
  {
    hide AllInOrder;
    if at == map[] {
      NothingInOrder();
    } else {
      var c := Lowest(at);
      CardinalityOfRemove(at, c);
      FlushedInOrder(at - {c}, key);
      LowestFirst(at, key, c, Flushed(at - {c}));
    }
  }

  lemma NothingInOrder()
    ensures AllInOrder(Flushed(map[]), map[])
  {
  }

  /** Everything held, in order, and then `packet`. */
  ghost predicate AllAndThen(packets: seq<Incoming>, at: map<nat, Held>, packet: Incoming) {
    && |packets| == |at| + 1
    && AllInOrder(packets[..|at|], at)
    && packets[|at|] == packet
  }

  lemma FlushedAndThen(s: SessionState, key: SessionKey, packet: Incoming, why: Why)
    requires AllCarry(s.held.at, key)
    ensures AllAndThen(PacketsOf(Tag(Flushed(s.held.at), Forced) + [Release(packet, why)]), s.held.at, packet)
  {
    var flushed := Flushed(s.held.at);
    FlushedInOrder(s.held.at, key);
    var packets := PacketsOf(Tag(flushed, Forced) + [Release(packet, why)]);
    assert packets[..|s.held.at|] == flushed;
  }

  /**
   A packet whose number lies behind the expected one. At most 511 behind and less than three seconds after the
   session's last packet, it is late: it goes on alone, and neither the expected number nor what is held changes. Any
   other shows that the sender began anew: it follows everything held, and the session goes on from it.
   */
  lemma BehindTheExpected(key: SessionKey, s: SessionState, packet: Incoming, counter: nat, now: nat, first: Why)
    requires SessionInv(key, s) && counter < s.next
    ensures
      var p := SessionPush(s, packet, counter, now, first);
      && p.session.lastSeen == now
      && if s.next - counter <= 511 && now - s.lastSeen < 3_000_000_000 then
           && PacketsOf(p.rel) == [packet]
           && p.session.next == s.next && p.session.held == s.held && p.session.skipped == s.skipped - {counter}
           && p.noticed == (if counter in s.skipped then Some(s.skipped[counter]) else None)
         else
           && AllAndThen(PacketsOf(p.rel), s.held.at, packet)
           && p.session.next == counter + 1 && p.session.held == EMPTY && p.session.skipped == map[]
           && p.noticed == None
  {
    assert PacketsOf([Release(packet, Late)]) == [packet];
    FlushedAndThen(s.(lastSeen := now), key, packet, Renumbered);
  }

  /** `packets` are the held ones under the numbers from `from` on, up to the first number that is not held. */
  ghost predicate IsRun(packets: seq<Incoming>, at: map<nat, Held>, from: nat) {
    && from + |packets| !in at
    && forall i: nat | i < |packets| :: IsHeldAs(packets[i], at, from + i)
  }

  /** Exactly the numbers outside `[from, to)` are still held, as before. */
  ghost predicate KeepsOutside(before: map<nat, Held>, after: map<nat, Held>, from: nat, to: nat) {
    && (forall c :: c in after <==> c in before && !(from <= c < to))
    && (forall c | c in after :: after[c] == before[c])
  }

  lemma DrainIsRun(from: nat, held: HeldMap)
    ensures
      var d := Drain(from, held);
      && IsRun(d.packets, held.at, from)
      && KeepsOutside(held.at, d.held.at, from, from + |d.packets|)
  {
    var d := Drain(from, held);
    DrainLeavesTheRest(from, held);
    forall i: nat | i < |d.packets|
      ensures IsHeldAs(d.packets[i], held.at, from + i)
    {
      DrainTakesTheRun(from, held, from + i);
    }
  }

  /**
   The expected packet goes on at once, followed by the held ones of the next numbers up to the first one missing. If
   any were held, its lateness is measured from the recorded earliest arrival.
   */
  lemma TheExpected(key: SessionKey, s: SessionState, packet: Incoming, now: nat, first: Why)
    requires SessionInv(key, s)
    ensures
      var p := SessionPush(s, packet, s.next, now, first);
      var out := PacketsOf(p.rel);
      && out != [] && out[0] == packet && IsRun(out[1..], s.held.at, s.next + 1)
      && p.session.next == s.next + |out|
      && KeepsOutside(s.held.at, p.session.held.at, s.next, s.next + |out|)
      && p.session.lastSeen == now && p.session.skipped == s.skipped && p.noticed == s.held.oldest
  {
    hide Drain;
    var d := Drain(s.next + 1, s.held);
    DrainIsRun(s.next + 1, s.held);
    PacketsOfTag(d.packets, Reordered);
    PacketsOfConcat([Release(packet, first)], Tag(d.packets, Reordered));
    var p := SessionPush(s, packet, s.next, now, first);
    assert PacketsOf(p.rel) == [packet] + d.packets;
    assert PacketsOf(p.rel)[1..] == d.packets;
    assert s.next !in s.held.at;
  }

  /**
   A packet ahead of the expected one. At most 511 ahead it is held, with the moment it came, in place of an earlier
   copy if there is one. Any other is not waited for: it follows everything held, and the session goes on from it,
   which forgets nothing of what was skipped.
   */
  lemma AheadOfTheExpected(key: SessionKey, s: SessionState, packet: Incoming, counter: nat, now: nat, first: Why)
    requires SessionInv(key, s) && counter > s.next
    ensures
      var p := SessionPush(s, packet, counter, now, first);
      && p.session.lastSeen == now && p.session.skipped == s.skipped && p.noticed == None
      && if counter - s.next <= 511 then
           && p.rel == [] && p.session.next == s.next
           && p.session.held.at == s.held.at[counter := Held(packet, now)]
           && p.session.held.oldest
              == (if s.held.oldest.Some? && s.held.oldest.value <= now then s.held.oldest else Some(now))
           && p.overwritten == (if counter in s.held.at then multiset{s.held.at[counter].packet} else multiset{})
         else
           && AllAndThen(PacketsOf(p.rel), s.held.at, packet)
           && p.session.next == counter + 1 && p.session.held == EMPTY
  {
    FlushedAndThen(s.(lastSeen := now), key, packet, Jumped);
  }

  // ---------------------------------------------------------------- all sessions

  /** Two packets belong to one session exactly if they have the same flow and the same client, or both none. */
  lemma OneSession(p: Incoming, q: Incoming)
    requires Numbered(p) && Numbered(q)
    ensures
      KeyOf(p) == KeyOf(q)
      <==> && p.order.value.flow == q.order.value.flow
           && (p.wrapped.None? <==> q.wrapped.None?)
           && (p.wrapped.Some? && q.wrapped.Some? ==> p.wrapped.value.clientId == q.wrapped.value.clientId)
  {
  }

  /** A packet without a number goes on at once; nothing but one counter changes. */
  lemma PassesThrough(s: State, packet: Incoming, now: nat, victim: SessionKey)
    requires packet.order.None?
    ensures
      var o := Push(s, packet, now, victim);
      && PacketsOf(o.rel) == [packet] && o.overwritten == multiset{} && o.pruned == multiset{} && o.samples == []
      && o.state == s.(stats := s.stats.(passthrough := s.stats.passthrough + 1))
  {
    TallyOfOne(s.stats, packet, Plain);
    assert PacketsOf([Release(packet, Plain)]) == [packet];
  }

  /**
   The first packet of a session goes on at once and is followed by the next number, wherever the count begins. With 16
   sessions open the one silent longest is dropped for it; no other session changes.
   */
  lemma OpensASession(s: State, packet: Incoming, now: nat, victim: SessionKey)
    requires Inv(s) && Legal(s, Arrive(packet, now, victim)) && Numbered(packet) && KeyOf(packet) !in s.sessions
    ensures
      var o := Push(s, packet, now, victim);
      && PacketsOf(o.rel) == [packet] && o.samples == []
      && o.state.sessions
         == (if |s.sessions| >= 16 then s.sessions - {victim} else s.sessions)
            [KeyOf(packet) := SessionState(CounterOf(packet) + 1, EMPTY, now, map[])]
      && o.state.pace == s.pace && o.state.stats == s.stats.(inOrder := s.stats.inOrder + 1)
      && (|s.sessions| >= 16 ==> forall k | k in s.sessions :: s.sessions[victim].lastSeen <= s.sessions[k].lastSeen)
  {
    var c := CounterOf(packet);
    var p := SessionPush(SessionState(c, EMPTY, now, map[]), packet, c, now, Started);
    assert Drain(c + 1, EMPTY) == Drained(c + 1, EMPTY, []);
    assert p.rel == [Release(packet, Started)];
    assert PacketsOf([Release(packet, Started)]) == [packet];
    TallyOfOne(s.stats, packet, Started);
  }

  /** A packet of an open session changes that session, as above, and no other. */
  lemma MeetsItsSession(s: State, packet: Incoming, now: nat, victim: SessionKey)
    requires Numbered(packet) && KeyOf(packet) in s.sessions
    ensures
      var o := Push(s, packet, now, victim);
      var p := SessionPush(s.sessions[KeyOf(packet)], packet, CounterOf(packet), now, InOrder);
      && o.rel == p.rel && o.overwritten == p.overwritten && o.pruned == multiset{}
      && o.state.sessions == s.sessions[KeyOf(packet) := p.session]
      && o.samples == (if s.pace.adaptive && p.noticed.Some? then [Minus(now, p.noticed.value)] else [])
      && o.state.pace == (if p.noticed.Some? then RecordLateness(s.pace, Minus(now, p.noticed.value)) else s.pace)
  {
  }

  /** The counters a packet raises, by how its number lies to the expected one; all others stay. */
  ghost predicate Counts(a: Stats, b: Stats, s: SessionState, counter: nat, now: nat, out: nat) {
    && b.passthrough == a.passthrough && b.timedOut == a.timedOut
    && if counter < s.next then
         if s.next - counter <= 511 && now - s.lastSeen < 3_000_000_000 then
           && b.late == a.late + 1
           && b.inOrder == a.inOrder && b.reordered == a.reordered && b.forced == a.forced
         else
           && b.inOrder == a.inOrder + 1 && b.forced == a.forced + |s.held.at|
           && b.late == a.late && b.reordered == a.reordered
       else if counter == s.next then
         && b.inOrder == a.inOrder + 1 && b.reordered == a.reordered + out - 1
         && b.late == a.late && b.forced == a.forced
       else
         && b.forced == a.forced + (if counter - s.next > 511 then |s.held.at| else 0)
         && b.inOrder == a.inOrder && b.reordered == a.reordered && b.late == a.late
  }

  lemma FlushIsCounted(st: Stats, at: map<nat, Held>, packet: Incoming, why: Why)
    requires why == Renumbered || why == Jumped
    ensures
      Tally(st, Tag(Flushed(at), Forced) + [Release(packet, why)])
      == st.(forced := st.forced + |at|, inOrder := st.inOrder + (if why == Renumbered then 1 else 0))
  {
    hide Tally, Flushed;
    var flushed := Tag(Flushed(at), Forced);
    TallyOfTag(st, Flushed(at), Forced);
    TallyOfConcat(st, flushed, [Release(packet, why)]);
    TallyOfOne(Tally(st, flushed), packet, why);
  }

  lemma RunIsCounted(st: Stats, packet: Incoming, run: seq<Incoming>)
    ensures
      Tally(st, [Release(packet, InOrder)] + Tag(run, Reordered))
      == st.(inOrder := st.inOrder + 1, reordered := st.reordered + |run|)
  {
    hide Tally;
    TallyOfConcat(st, [Release(packet, InOrder)], Tag(run, Reordered));
    TallyOfOne(st, packet, InOrder);
    TallyOfTag(Count(st, InOrder), run, Reordered);
  }

  lemma SessionPushIsCounted(st: Stats, s: SessionState, packet: Incoming, counter: nat, now: nat)
    ensures
      var p := SessionPush(s, packet, counter, now, InOrder);
      && Counts(st, Tally(st, p.rel), s, counter, now, |p.rel|)
      && Tally(st, p.rel).maxHeld == st.maxHeld
      && (p.rel == [] <==> s.next < counter <= s.next + 511)
  {
    hide Tally, Flushed, Drain, Tag;
    FlushIsCounted(st, s.held.at, packet, Renumbered);
    FlushIsCounted(st, s.held.at, packet, Jumped);
    TallyOfOne(st, packet, Late);
    RunIsCounted(st, packet, Drain(counter + 1, s.held).packets);
    NothingIsCounted(st);
  }

  lemma NothingIsCounted(st: Stats)
    ensures Tally(st, []) == st
  {
  }

  /** The counters after a packet of an open session; the most ever held is raised when a packet is held back. */
  lemma EveryPacketIsCounted(s: State, packet: Incoming, now: nat, victim: SessionKey)
    requires Numbered(packet) && KeyOf(packet) in s.sessions
    ensures
      var o, session := Push(s, packet, now, victim), s.sessions[KeyOf(packet)];
      && Counts(s.stats, o.state.stats, session, CounterOf(packet), now, |o.rel|)
      && o.state.stats.maxHeld
         == if session.next < CounterOf(packet) <= session.next + 511
            then Max(s.stats.maxHeld, |o.state.sessions[KeyOf(packet)].held.at|) else s.stats.maxHeld
  {
    hide Tally, SessionPush, RecordLateness, Counts;
    SessionPushIsCounted(s.stats, s.sessions[KeyOf(packet)], packet, CounterOf(packet), now);
    CountsIgnoresTheWait(s, packet, now, victim);
  }

  lemma CountsIgnoresTheWait(s: State, packet: Incoming, now: nat, victim: SessionKey)
    requires Numbered(packet) && KeyOf(packet) in s.sessions
    ensures
      var o, session := Push(s, packet, now, victim), s.sessions[KeyOf(packet)];
      var p := SessionPush(session, packet, CounterOf(packet), now, InOrder);
      && (Counts(s.stats, Tally(s.stats, p.rel), session, CounterOf(packet), now, |p.rel|) ==>
            Counts(s.stats, o.state.stats, session, CounterOf(packet), now, |o.rel|))
      && o.state.sessions[KeyOf(packet)] == p.session
      && o.state.stats.maxHeld
         == (if p.rel == [] then Max(Tally(s.stats, p.rel).maxHeld, |p.session.held.at|)
             else Tally(s.stats, p.rel).maxHeld)
  {
    hide Tally, SessionPush, RecordLateness;
  }

  /** An expiry counts exactly what it hands on. */
  lemma ExpiryIsCounted(s: State, now: nat, key: SessionKey)
    requires AllWellFormed(s) && key in s.sessions
    ensures
      var o := ExpireOne(s, now, key);
      o.state.stats == s.stats.(timedOut := s.stats.timedOut + |o.rel|)
  {
    hide Tally, SessionExpire;
    TallyOfTag(s.stats, SessionExpire(s.sessions[key], s.pace.wait, now).1, TimedOut);
  }
}
