/**
 Properties of the order buffer over every sequence of arrivals and expiries: the window invariant
 the ring rests on, conservation of packets, the order of what is handed on, and the wait.
 */
module ReorderRuns {
  import opened Prelude
  import opened Packets
  import opened HeldRings
  import opened ReorderSpec

  // ---------------------------------------------------------------- the session invariant

  ghost predicate AllCarry(at: map<nat, Held>, key: SessionKey) {
    forall c | c in at :: Carries(at[c].packet, key, c)
  }

  /** The part of the invariant that speaks of the held packets. */
  ghost predicate HeldInv(key: SessionKey, next: nat, held: HeldMap) {
    && (forall c | c in held.at :: next < c < next + RING)
    && AllCarry(held.at, key)
    && held.WellFormed()
  }

  ghost predicate SkippedInv(next: nat, skipped: map<nat, nat>) {
    (forall c | c in skipped :: c < next) && |skipped| <= MAX_SKIPPED
  }

  /** Held counters lie strictly between `next` and `next + RING`; at most 1024 skipped numbers lie below `next`. */
  ghost predicate SessionInv(key: SessionKey, s: SessionState) {
    HeldInv(key, s.next, s.held) && SkippedInv(s.next, s.skipped)
  }

  lemma DrainKeepsHeldInv(key: SessionKey, next: nat, held: HeldMap, from: nat)
    requires HeldInv(key, next, held) && next <= from
    requires forall c | c in held.at :: from <= c
    ensures from <= Drain(from, held).next
    ensures HeldInv(key, Drain(from, held).next, Drain(from, held).held)
  {
    DrainLeavesTheRest(from, held);
    DrainKeepsWellFormed(from, held);
  }

  lemma FewerSkipped(next: nat, skipped: map<nat, nat>, c: nat)
    requires SkippedInv(next, skipped)
    ensures SkippedInv(next, skipped - {c})
  {
    assert (skipped - {c}).Keys <= skipped.Keys;
    SubsetIsSmaller((skipped - {c}).Keys, skipped.Keys);
  }

  lemma InsertKeepsHeldInv(key: SessionKey, next: nat, held: HeldMap, counter: nat, h: Held)
    requires HeldInv(key, next, held) && Carries(h.packet, key, counter) && next < counter < next + RING
    ensures HeldInv(key, next, held.Insert(counter, h))
  {
    WellFormedIsKept(held, counter, h);
  }

  ghost predicate StepKeepsInv(p: Pushed, key: SessionKey) {
    SessionInv(key, p.session)
  }

  lemma HeldStartsBeyond(key: SessionKey, next: nat, held: HeldMap)
    requires HeldInv(key, next, held)
    ensures forall c | c in held.at :: next + 1 <= c
  {
  }

  lemma PassInOrderKeepsInv(key: SessionKey, s: SessionState, packet: Incoming, first: Why)
    requires SessionInv(key, s)
    ensures StepKeepsInv(PassInOrder(s, packet, s.next, first), key)
  {
    hide Tag, Drain, AllCarry, HeldMap.WellFormed;
    HeldStartsBeyond(key, s.next, s.held);
    DrainKeepsHeldInv(key, s.next, s.held, s.next + 1);
    var d := Drain(s.next + 1, s.held);
    assert SkippedInv(d.next, s.skipped);
  }

  lemma ResetKeepsInv(key: SessionKey, s: SessionState, packet: Incoming, counter: nat)
    requires SessionInv(key, s)
    ensures StepKeepsInv(Renumber(s, packet, counter), key)
    ensures s.next <= counter ==> StepKeepsInv(JumpTo(s, packet, counter), key)
  {
  }

  lemma PassLateKeepsInv(key: SessionKey, s: SessionState, packet: Incoming, counter: nat)
    requires SessionInv(key, s)
    ensures StepKeepsInv(PassLate(s, packet, counter), key)
  {
    FewerSkipped(s.next, s.skipped, counter);
  }

  lemma HoldBackKeepsInv(key: SessionKey, s: SessionState, packet: Incoming, counter: nat, now: nat)
    requires SessionInv(key, s) && Carries(packet, key, counter) && s.next < counter < s.next + RING
    ensures StepKeepsInv(HoldBack(s, packet, counter, now), key)
  {
    InsertKeepsHeldInv(key, s.next, s.held, counter, Held(packet, now));
  }

  lemma SeenKeepsInv(key: SessionKey, s: SessionState, now: nat)
    requires SessionInv(key, s)
    ensures SessionInv(key, s.(lastSeen := now)) && AllCarry(s.held.at, key)
  {
  }

  lemma PushKeepsSessionInv(key: SessionKey, s: SessionState, packet: Incoming, counter: nat, now: nat, first: Why)
    requires SessionInv(key, s) && Carries(packet, key, counter)
    ensures StepKeepsInv(SessionPush(s, packet, counter, now, first), key)
  {
    hide SessionInv, StepKeepsInv, Renumber, JumpTo, PassLate, PassInOrder, HoldBack;
    var t := s.(lastSeen := now);
    SeenKeepsInv(key, s, now);
    ResetKeepsInv(key, t, packet, counter);
    if counter < s.next {
      PassLateKeepsInv(key, t, packet, counter);
    } else if counter == s.next {
      PassInOrderKeepsInv(key, t, packet, first);
    } else if counter - s.next <= MAX_GAP {
      HoldBackKeepsInv(key, t, packet, counter, now);
    }
  }

  lemma MarkSkippedFacts(s: SessionState, lowest: nat, noticed: nat)
    ensures
      var m := MarkSkipped(s, lowest, noticed);
      && (forall c | c in m :: c in s.skipped || c < lowest)
      && (forall c | c in m :: m[c] == noticed || (c in s.skipped && m[c] == s.skipped[c]))
      && (lowest < s.next + RING && |s.skipped| <= MAX_SKIPPED ==> |m| <= MAX_SKIPPED)
  {
    var kept := if |s.skipped| + Minus(lowest, s.next) > MAX_SKIPPED then map[] else s.skipped;
    MarkedHoldsTheGap(kept, s.next, Min(lowest, s.next + MAX_SKIPPED), noticed);
  }

  lemma SkipGapKeepsInv(key: SessionKey, s: SessionState)
    requires SessionInv(key, s) && s.held.oldest.Some?
    ensures SessionInv(key, SkipGap(s).0)
    ensures s.next < SkipGap(s).0.next
  {
    var lowest := Lowest(s.held.at);
    DrainKeepsHeldInv(key, s.next, s.held, lowest);
    assert s.next < lowest < s.next + RING;
    MarkSkippedFacts(s, lowest, s.held.oldest.value);
    assert SkippedInv(lowest, MarkSkipped(s, lowest, s.held.oldest.value));
  }

  lemma {:induction false} ExpireKeepsSessionInv(key: SessionKey, s: SessionState, wait: nat, now: nat)
    requires SessionInv(key, s)
    ensures SessionInv(key, SessionExpire(s, wait, now).0)
    decreases |s.held.at|
  {
    if Due(s, wait, now) {
      SkipGapKeepsInv(key, s);
      ExpireKeepsSessionInv(key, SkipGap(s).0, wait, now);
    }
  }

  /**
   Expiry leaves nothing overdue, moves on only if the recorded `oldest` is overdue, and a number newly remembered as
   skipped belongs to a gap that was noticed at least `wait` ago.
   */
  lemma {:induction false} ExpireLeavesNothingDue(s: SessionState, wait: nat, now: nat)
    requires s.held.WellFormed()
    ensures
      var t := SessionExpire(s, wait, now).0;
      && !Due(t, wait, now)
      && (t != s ==> Due(s, wait, now))
      && (forall c | c in t.skipped ::
            (c in s.skipped && t.skipped[c] == s.skipped[c]) || t.skipped[c] + wait <= now)
    decreases |s.held.at|
  {
    if Due(s, wait, now) {
      MarkSkippedFacts(s, Lowest(s.held.at), s.held.oldest.value);
      ExpireLeavesNothingDue(SkipGap(s).0, wait, now);
    }
  }

  // ---------------------------------------------------------------- conservation in one session

  lemma TakeOne(at: map<nat, Held>, key: SessionKey, c: nat)
    requires AllCarry(at, key) && c in at
    ensures AllCarry(at - {c}, key)
    ensures multiset(HeldPackets(at)) == multiset(HeldPackets(at - {c})) + multiset{at[c].packet}
  {
    var p := at[c].packet;
    assert p !in HeldPackets(at - {c});
    forall q | q in HeldPackets(at)
      ensures q in HeldPackets(at - {c}) + {p}
    {
      var d :| d in at && at[d].packet == q;
      if d != c {
        assert d in at - {c};
      }
    }
    assert HeldPackets(at) == HeldPackets(at - {c}) + {p};
  }

  lemma PutOne(at: map<nat, Held>, key: SessionKey, c: nat, h: Held)
    requires AllCarry(at, key) && Carries(h.packet, key, c)
    ensures
      multiset(HeldPackets(at)) + multiset{h.packet}
      == multiset(HeldPackets(at[c := h])) + (if c in at then multiset{at[c].packet} else multiset{})
  {
    TakeOne(at[c := h], key, c);
    assert at[c := h] - {c} == at - {c};
    if c in at {
      TakeOne(at, key, c);
    } else {
      assert at - {c} == at;
    }
  }

  lemma {:induction false} FlushConserves(at: map<nat, Held>, key: SessionKey)
    requires AllCarry(at, key)
    ensures multiset(Flushed(at)) == multiset(HeldPackets(at))
    decreases |at|
  {
    if at == map[] {
      assert HeldPackets(at) == {};
    } else {
      var c := Lowest(at);
      CardinalityOfRemove(at, c);
      TakeOne(at, key, c);
      FlushConserves(at - {c}, key);
    }
  }

  lemma {:induction false} DrainConserves(next: nat, held: HeldMap, key: SessionKey)
    requires AllCarry(held.at, key)
    ensures
      var d := Drain(next, held);
      && AllCarry(d.held.at, key)
      && multiset(HeldPackets(held.at)) == multiset(d.packets) + multiset(HeldPackets(d.held.at))
    decreases |held.at|
  {
    if next in held.at {
      CardinalityOfRemove(held.at, next);
      TakeOne(held.at, key, next);
      DrainConserves(next + 1, held.Remove(next), key);
    }
  }

  lemma PacketsOfTag(packets: seq<Incoming>, why: Why)
    ensures PacketsOf(Tag(packets, why)) == packets
  {
  }

  lemma PacketsOfConcat(a: seq<Release>, b: seq<Release>)
    ensures PacketsOf(a + b) == PacketsOf(a) + PacketsOf(b)
  {
  }

  lemma FlushAndPass(s: SessionState, key: SessionKey, packet: Incoming, why: Why)
    requires AllCarry(s.held.at, key)
    ensures
      multiset(PacketsOf(Tag(Flushed(s.held.at), Forced) + [Release(packet, why)]))
      == multiset(HeldPackets(s.held.at)) + multiset{packet}
  {
    FlushConserves(s.held.at, key);
    PacketsOfTag(Flushed(s.held.at), Forced);
    PacketsOfConcat(Tag(Flushed(s.held.at), Forced), [Release(packet, why)]);
    assert PacketsOf([Release(packet, why)]) == [packet];
  }

  lemma PassAndDrain(s: SessionState, key: SessionKey, packet: Incoming, from: nat, first: Why)
    requires AllCarry(s.held.at, key)
    ensures
      var d := Drain(from, s.held);
      multiset(HeldPackets(s.held.at)) + multiset{packet}
      == multiset(PacketsOf([Release(packet, first)] + Tag(d.packets, Reordered))) + multiset(HeldPackets(d.held.at))
  {
    var d := Drain(from, s.held);
    DrainConserves(from, s.held, key);
    PacketsOfTag(d.packets, Reordered);
    PacketsOfConcat([Release(packet, first)], Tag(d.packets, Reordered));
    assert PacketsOf([Release(packet, first)]) == [packet];
  }

  /** What comes in, and was held, goes out, stays held or is overwritten. */
  ghost predicate Conserved(before: SessionState, packet: Incoming, p: Pushed) {
    multiset(HeldPackets(before.held.at)) + multiset{packet}
    == multiset(PacketsOf(p.rel)) + multiset(HeldPackets(p.session.held.at)) + p.overwritten
  }

  lemma HoldBackConserves(key: SessionKey, s: SessionState, packet: Incoming, counter: nat, now: nat)
    requires AllCarry(s.held.at, key) && Carries(packet, key, counter)
    ensures Conserved(s, packet, HoldBack(s, packet, counter, now))
  {
    PutOne(s.held.at, key, counter, Held(packet, now));
    var p := HoldBack(s, packet, counter, now);
    assert p.session.held.at == s.held.at[counter := Held(packet, now)];
    assert multiset(PacketsOf(p.rel)) == multiset{};
  }

  lemma PassLateConserves(s: SessionState, packet: Incoming, counter: nat)
    ensures Conserved(s, packet, PassLate(s, packet, counter))
  {
    assert PacketsOf([Release(packet, Late)]) == [packet];
  }

  lemma ResetConserves(key: SessionKey, s: SessionState, packet: Incoming, counter: nat)
    requires AllCarry(s.held.at, key)
    ensures Conserved(s, packet, Renumber(s, packet, counter)) && Conserved(s, packet, JumpTo(s, packet, counter))
  {
    assert HeldPackets(EMPTY.at) == {};
    FlushAndPass(s, key, packet, Renumbered);
    FlushAndPass(s, key, packet, Jumped);
  }

  lemma PassInOrderConserves(key: SessionKey, s: SessionState, packet: Incoming, counter: nat, first: Why)
    requires AllCarry(s.held.at, key)
    ensures Conserved(s, packet, PassInOrder(s, packet, counter, first))
  {
    PassAndDrain(s, key, packet, counter + 1, first);
  }

  lemma PushConserves(key: SessionKey, s: SessionState, packet: Incoming, counter: nat, now: nat, first: Why)
    requires AllCarry(s.held.at, key) && Carries(packet, key, counter)
    ensures Conserved(s, packet, SessionPush(s, packet, counter, now, first))
  {
    var t := s.(lastSeen := now);
    HoldBackConserves(key, t, packet, counter, now);
    PassLateConserves(t, packet, counter);
    ResetConserves(key, t, packet, counter);
    PassInOrderConserves(key, t, packet, counter, first);
  }

  lemma {:induction false} ExpireConserves(key: SessionKey, s: SessionState, wait: nat, now: nat)
    requires SessionInv(key, s)
    ensures
      var (t, packets) := SessionExpire(s, wait, now);
      multiset(HeldPackets(s.held.at)) == multiset(packets) + multiset(HeldPackets(t.held.at))
    decreases |s.held.at|
  {
    if Due(s, wait, now) {
      var (s1, packets) := SkipGap(s);
      DrainConserves(Lowest(s.held.at), s.held, key);
      SkipGapKeepsInv(key, s);
      ExpireConserves(key, s1, wait, now);
      assert SessionExpire(s, wait, now).1 == packets + SessionExpire(s1, wait, now).1;
    }
  }

  // ---------------------------------------------------------------- order in one session

  /** The packet is of session `key` and not late. */
  predicate InStream(r: Release, key: SessionKey) {
    Numbered(r.packet) && KeyOf(r.packet) == key && r.why != Late
  }

  predicate StartsNumbering(r: Release) {
    r.why == Started || r.why == Renumbered
  }

  /**
   Reads a log of handed-on packets and keeps the least counter the next packet of the stream of
   `key` may have; `None` once a packet came out of order.
   */
  function FloorAfter(floor: Option<nat>, r: Release, key: SessionKey): Option<nat> {
    if floor.None? || !InStream(r, key) then floor
    else if StartsNumbering(r) || floor.value <= CounterOf(r.packet) then Some(CounterOf(r.packet) + 1)
    else None
  }

  function Floor(floor: Option<nat>, log: seq<Release>, key: SessionKey): Option<nat>
    decreases |log|
  {
    if log == [] then floor else Floor(FloorAfter(floor, log[0], key), log[1..], key)
  }

  lemma {:induction false} FloorOfConcat(floor: Option<nat>, a: seq<Release>, b: seq<Release>, key: SessionKey)
    ensures Floor(floor, a + b, key) == Floor(Floor(floor, a, key), b, key)
    decreases |a|
  {
    if a == [] {
      assert a + b == b;
    } else {
      assert (a + b)[1..] == a[1..] + b;
      FloorOfConcat(FloorAfter(floor, a[0], key), a[1..], b, key);
    }
  }

  lemma {:induction false} FloorOfOthers(floor: Option<nat>, rel: seq<Release>, key: SessionKey)
    requires forall i | 0 <= i < |rel| :: !InStream(rel[i], key)
    ensures Floor(floor, rel, key) == floor
    decreases |rel|
  {
    if rel != [] {
      FloorOfOthers(floor, rel[1..], key);
    }
  }

  lemma {:induction false} FloorOfDrain(floor: nat, next: nat, held: HeldMap, key: SessionKey, why: Why)
    requires AllCarry(held.at, key) && floor <= next && why != Late && why != Started && why != Renumbered
    ensures
      var d := Drain(next, held);
      Floor(Some(floor), Tag(d.packets, why), key) == Some(if d.packets == [] then floor else d.next)
    decreases |held.at|
  {
    hide Floor, Tag;
    if next in held.at {
      CardinalityOfRemove(held.at, next);
      var p, rest := held.at[next].packet, Drain(next + 1, held.Remove(next)).packets;
      FloorOfDrain(next + 1, next + 1, held.Remove(next), key, why);
      FloorOfNext(floor, p, next, Tag(rest, why), key, why);
      TagWithHead(p, rest, why);
    } else {
      FloorOfNothing(floor, key, why);
    }
  }

  /** What a step hands on continues the stream: the floor never passes the session's `next`. */
  ghost predicate Continues(rel: seq<Release>, key: SessionKey, from: nat, to: nat) {
    forall floor: nat | floor <= from :: FloorWithin(floor, rel, key, to)
  }

  ghost predicate StepContinues(p: Pushed, key: SessionKey, from: nat) {
    Continues(p.rel, key, from, p.session.next)
  }

  ghost predicate FloorWithin(floor: nat, rel: seq<Release>, key: SessionKey, to: nat) {
    var f := Floor(Some(floor), rel, key);
    f.Some? && f.value <= to
  }

  lemma FloorOfNext(floor: nat, p: Incoming, counter: nat, rest: seq<Release>, key: SessionKey, why: Why)
    requires Carries(p, key, counter) && floor <= counter && why != Late
    ensures Floor(Some(floor), [Release(p, why)] + rest, key) == Floor(Some(counter + 1), rest, key)
  {
    assert ([Release(p, why)] + rest)[1..] == rest;
  }

  lemma FloorOfNothing(floor: nat, key: SessionKey, why: Why)
    ensures Floor(Some(floor), Tag([], why), key) == Some(floor)
  {
  }

  lemma TagWithHead(p: Incoming, rest: seq<Incoming>, why: Why)
    ensures Tag([p] + rest, why) == [Release(p, why)] + Tag(rest, why)
  {
  }

  /** A flush hands on counters from `floor` upwards, all below `bound`. */
  lemma {:induction false} FloorOfFlush(floor: nat, at: map<nat, Held>, key: SessionKey, bound: nat)
    requires AllCarry(at, key) && floor <= bound
    requires forall c | c in at :: floor <= c < bound
    ensures FloorWithin(floor, Tag(Flushed(at), Forced), key, bound)
    decreases |at|
  {
    hide Floor, Tag;
    if at == map[] {
      FloorOfNothing(floor, key, Forced);
    } else {
      var c := Lowest(at);
      CardinalityOfRemove(at, c);
      FloorOfFlush(c + 1, at - {c}, key, bound);
      var rest := Flushed(at - {c});
      TagWithHead(at[c].packet, rest, Forced);
      FloorOfNext(floor, at[c].packet, c, Tag(rest, Forced), key, Forced);
    }
  }

  lemma FloorOfFlushAndPass(floor: nat, at: map<nat, Held>, key: SessionKey, packet: Incoming,
                            counter: nat, why: Why, bound: nat)
    requires AllCarry(at, key) && floor <= bound && Carries(packet, key, counter)
    requires forall c | c in at :: floor <= c < bound
    requires why == Renumbered || (why == Jumped && bound <= counter)
    ensures FloorWithin(floor, Tag(Flushed(at), Forced) + [Release(packet, why)], key, counter + 1)
  {
    FloorOfConcat(Some(floor), Tag(Flushed(at), Forced), [Release(packet, why)], key);
    FloorOfFlush(floor, at, key, bound);
  }

  lemma RenumberContinues(key: SessionKey, s: SessionState, packet: Incoming, counter: nat)
    requires SessionInv(key, s) && Carries(packet, key, counter)
    ensures StepContinues(Renumber(s, packet, counter), key, s.next)
  {
    var p := Renumber(s, packet, counter);
    forall floor: nat | floor <= s.next
      ensures FloorWithin(floor, p.rel, key, p.session.next)
    {
      FloorOfFlushAndPass(floor, s.held.at, key, packet, counter, Renumbered, s.next + RING);
    }
  }

  lemma JumpContinues(key: SessionKey, s: SessionState, packet: Incoming, counter: nat)
    requires SessionInv(key, s) && Carries(packet, key, counter) && counter - s.next > MAX_GAP
    ensures StepContinues(JumpTo(s, packet, counter), key, s.next)
  {
    var p := JumpTo(s, packet, counter);
    forall floor: nat | floor <= s.next
      ensures FloorWithin(floor, p.rel, key, p.session.next)
    {
      FloorOfFlushAndPass(floor, s.held.at, key, packet, counter, Jumped, counter);
    }
  }

  lemma PassContinues(key: SessionKey, packet: Incoming, counter: nat, first: Why, rest: seq<Release>, to: nat)
    requires Carries(packet, key, counter) && first != Late
    requires FloorWithin(counter + 1, rest, key, to)
    ensures Continues([Release(packet, first)] + rest, key, counter, to)
  {
    forall floor: nat | floor <= counter
      ensures FloorWithin(floor, [Release(packet, first)] + rest, key, to)
    {
      FloorOfNext(floor, packet, counter, rest, key, first);
    }
  }

  lemma DrainNext(next: nat, held: HeldMap)
    ensures Drain(next, held).next >= next
  {
  }

  lemma InOrderContinues(key: SessionKey, s: SessionState, packet: Incoming, first: Why)
    requires AllCarry(s.held.at, key) && Carries(packet, key, s.next)
    requires first == InOrder || first == Started
    ensures StepContinues(PassInOrder(s, packet, s.next, first), key, s.next)
  {
    hide Drain, Floor, Tag, AllCarry, Continues;
    var d := Drain(s.next + 1, s.held);
    DrainNext(s.next + 1, s.held);
    FloorOfDrain(s.next + 1, s.next + 1, s.held, key, Reordered);
    PassContinues(key, packet, s.next, first, Tag(d.packets, Reordered), d.next);
  }

  lemma PushContinues(key: SessionKey, s: SessionState, packet: Incoming, counter: nat, now: nat, first: Why)
    requires SessionInv(key, s) && Carries(packet, key, counter)
    requires first == InOrder || first == Started
    ensures StepContinues(SessionPush(s, packet, counter, now, first), key, s.next)
  {
    hide SessionInv, StepContinues, AllCarry, Renumber, JumpTo, PassLate, PassInOrder, HoldBack;
    var t := s.(lastSeen := now);
    SeenKeepsInv(key, s, now);
    if counter < s.next {
      RenumberContinues(key, t, packet, counter);
      LateContinues(key, t, packet, counter);
    } else if counter == s.next {
      InOrderContinues(key, t, packet, first);
    } else if counter - s.next > MAX_GAP {
      JumpContinues(key, t, packet, counter);
    } else {
      HoldBackContinues(key, t, packet, counter, now);
    }
  }

  lemma LateContinues(key: SessionKey, s: SessionState, packet: Incoming, counter: nat)
    ensures StepContinues(PassLate(s, packet, counter), key, s.next)
  {
    var rel := PassLate(s, packet, counter).rel;
    forall floor: nat | floor <= s.next
      ensures FloorWithin(floor, rel, key, s.next)
    {
      FloorOfOthers(Some(floor), rel, key);
    }
  }

  lemma HoldBackContinues(key: SessionKey, s: SessionState, packet: Incoming, counter: nat, now: nat)
    ensures StepContinues(HoldBack(s, packet, counter, now), key, s.next)
  {
    NothingContinues(key, HoldBack(s, packet, counter, now).rel, s.next);
  }

  lemma NothingContinues(key: SessionKey, rel: seq<Release>, next: nat)
    requires rel == []
    ensures Continues(rel, key, next, next)
  {
  }

  lemma SkipGapContinues(key: SessionKey, s: SessionState)
    requires SessionInv(key, s) && s.held.oldest.Some?
    ensures Continues(Tag(SkipGap(s).1, TimedOut), key, s.next, SkipGap(s).0.next)
  {
    var lowest := Lowest(s.held.at);
    var rel, to := Tag(SkipGap(s).1, TimedOut), SkipGap(s).0.next;
    assert s.next < lowest && AllCarry(s.held.at, key);
    forall floor: nat | floor <= s.next
      ensures FloorWithin(floor, rel, key, to)
    {
      FloorOfDrain(floor, lowest, s.held, key, TimedOut);
    }
  }

  lemma ContinuesTransitively(key: SessionKey, a: seq<Release>, b: seq<Release>, from: nat, mid: nat, to: nat)
    requires Continues(a, key, from, mid) && Continues(b, key, mid, to)
    ensures Continues(a + b, key, from, to)
  {
    forall floor: nat | floor <= from
      ensures FloorWithin(floor, a + b, key, to)
    {
      FloorOfConcat(Some(floor), a, b, key);
      assert FloorWithin(floor, a, key, mid);
      assert FloorWithin(Floor(Some(floor), a, key).value, b, key, to);
    }
  }

  lemma TagOfConcat(a: seq<Incoming>, b: seq<Incoming>, why: Why)
    ensures Tag(a + b, why) == Tag(a, why) + Tag(b, why)
  {
  }

  lemma {:induction false} ExpireContinues(key: SessionKey, s: SessionState, wait: nat, now: nat)
    requires SessionInv(key, s)
    ensures Continues(Tag(SessionExpire(s, wait, now).1, TimedOut), key, s.next, SessionExpire(s, wait, now).0.next)
    decreases |s.held.at|
  {
    if Due(s, wait, now) {
      var r := SkipGap(s);
      SkipGapKeepsInv(key, s);
      SkipGapContinues(key, s);
      ExpireContinues(key, r.0, wait, now);
      var e := SessionExpire(r.0, wait, now);
      assert SessionExpire(s, wait, now) == (e.0, r.1 + e.1);
      TagOfConcat(r.1, e.1, TimedOut);
      ContinuesTransitively(key, Tag(r.1, TimedOut), Tag(e.1, TimedOut), s.next, r.0.next, e.0.next);
    } else {
      NothingContinues(key, Tag([], TimedOut), s.next);
    }
  }
}
