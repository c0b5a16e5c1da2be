/**
 What `reorder::Resequencer` does, as functions on values: one session first, then all sessions
 together with their counters and the adaptive wait. Times are in nanoseconds. Every packet handed
 on carries the reason, so that statements about whole runs can tell in-order packets from late ones.
 */
module ReorderSpec {
  import opened Prelude
  import opened Packets
  import opened HeldRings
  import opened Lateness

  const MAX_GAP: nat := RING - 1
  const MAX_SESSIONS: nat := 16
  const IDLE_RESET: nat := 3_000_000_000
  const MAX_SKIPPED: nat := 1024

  /** Why a packet was handed on. `Started` and `Renumbered` open a new numbering of their session. */
  datatype Why = Plain | Started | InOrder | Reordered | TimedOut | Late | Forced | Jumped | Renumbered

  datatype Release = Release(packet: Incoming, why: Why)

  function Tag(packets: seq<Incoming>, why: Why): (rel: seq<Release>)
    ensures |rel| == |packets|
    ensures forall i | 0 <= i < |rel| :: rel[i] == Release(packets[i], why)
  {
    seq(|packets|, i requires 0 <= i < |packets| => Release(packets[i], why))
  }

  function PacketsOf(rel: seq<Release>): (packets: seq<Incoming>)
    ensures |packets| == |rel|
    ensures forall i | 0 <= i < |rel| :: packets[i] == rel[i].packet
  {
    seq(|rel|, i requires 0 <= i < |rel| => rel[i].packet)
  }

  // ---------------------------------------------------------------- one session

  datatype SessionState = SessionState(next: nat, held: HeldMap, lastSeen: nat, skipped: map<nat, nat>)

  /** The held packets that follow on from `next` without a gap, and what is left. */
  datatype Drained = Drained(next: nat, held: HeldMap, packets: seq<Incoming>)

  ghost function Drain(next: nat, held: HeldMap): (d: Drained)
    ensures d.next == next + |d.packets|
    decreases |held.at|
  {
    if next in held.at then
      CardinalityOfRemove(held.at, next);
      var d := Drain(next + 1, held.Remove(next));
      Drained(d.next, d.held, [held.at[next].packet] + d.packets)
    else
      Drained(next, held, [])
  }

  /** Exactly the counters from `next` up to the first one not held leave. */
  lemma {:induction false} DrainLeavesTheRest(next: nat, held: HeldMap)
    ensures
      var d := Drain(next, held);
      && d.next !in d.held.at
      && (forall c :: c in d.held.at <==> c in held.at && !(next <= c < d.next))
      && (forall c | c in d.held.at :: d.held.at[c] == held.at[c])
    decreases |held.at|
  {
    if next in held.at {
      CardinalityOfRemove(held.at, next);
      DrainLeavesTheRest(next + 1, held.Remove(next));
    }
  }

  /** They leave in ascending order. */
  lemma {:induction false} DrainTakesTheRun(next: nat, held: HeldMap, c: nat)
    requires next <= c < Drain(next, held).next
    ensures c in held.at && Drain(next, held).packets[c - next] == held.at[c].packet
    decreases |held.at|
  {
    hide Drain, HeldMap.Remove;
    DrainUnfolds(next, held);
    if c > next {
      DrainTakesTheRun(next + 1, held.Remove(next), c);
    }
  }

  lemma DrainUnfolds(next: nat, held: HeldMap)
    requires Drain(next, held).next > next
    ensures next in held.at && |held.Remove(next).at| < |held.at|
    ensures
      var rest := Drain(next + 1, held.Remove(next));
      Drain(next, held).packets == [held.at[next].packet] + rest.packets && Drain(next, held).next == rest.next
    ensures forall c | c in held.Remove(next).at :: c in held.at && held.Remove(next).at[c] == held.at[c]
  {
    CardinalityOfRemove(held.at, next);
  }

  lemma {:induction false} DrainKeepsWellFormed(next: nat, held: HeldMap)
    requires held.WellFormed()
    ensures Drain(next, held).held.WellFormed()
    decreases |held.at|
  {
    if next in held.at {
      CardinalityOfRemove(held.at, next);
      WellFormedIsKept(held, next, held.at[next]);
      DrainKeepsWellFormed(next + 1, held.Remove(next));
    }
  }

  lemma {:induction false} DrainKeepsExact(next: nat, held: HeldMap)
    requires held.Exact()
    ensures Drain(next, held).held.Exact()
    decreases |held.at|
  {
    if next in held.at {
      CardinalityOfRemove(held.at, next);
      ExactIsKept(held, next, held.at[next]);
      DrainKeepsExact(next + 1, held.Remove(next));
    }
  }

  /** Draining repairs nothing either: an `oldest` that is too early stays as it is until nothing is held. */
  lemma {:induction false} DrainKeepsTooEarly(next: nat, held: HeldMap)
    requires held.WellFormed() && held.TooEarly()
    ensures
      var d := Drain(next, held);
      d.held.at == map[] || (d.held.TooEarly() && d.held.oldest == held.oldest)
    decreases |held.at|
  {
    if next in held.at {
      var rest := held.Remove(next);
      CardinalityOfRemove(held.at, next);
      WellFormedIsKept(held, next, held.at[next]);
      ExactAfterRemove(held, next);
      InexactIsTooEarly(held);
      InexactIsTooEarly(rest);
      if rest.at == map[] {
        assert Drain(next + 1, rest) == Drained(next + 1, rest, []);
      } else {
        DrainKeepsTooEarly(next + 1, rest);
      }
    }
  }

  /** The held packets by ascending counter. */
  ghost function Flushed(at: map<nat, Held>): (packets: seq<Incoming>)
    ensures |packets| == |at|
    decreases |at|
  {
    if at == map[] then []
    else
      var c := Lowest(at);
      CardinalityOfRemove(at, c);
      [at[c].packet] + Flushed(at - {c})
  }

  datatype Pushed = Pushed(session: SessionState, rel: seq<Release>, noticed: Option<nat>,
                           overwritten: multiset<Incoming>)

  /** The number went back beyond the window or after a silence: the sender started numbering anew. */
  predicate IsRenumbering(s: SessionState, counter: nat, now: nat) {
    counter < s.next && (s.next - counter > MAX_GAP || Minus(now, s.lastSeen) >= IDLE_RESET)
  }

  ghost function Renumber(s: SessionState, packet: Incoming, counter: nat): Pushed {
    Pushed(s.(next := counter + 1, held := EMPTY, skipped := map[]),
           Tag(Flushed(s.held.at), Forced) + [Release(packet, Renumbered)], None, multiset{})
  }

  ghost function PassLate(s: SessionState, packet: Incoming, counter: nat): Pushed {
    Pushed(s.(skipped := s.skipped - {counter}), [Release(packet, Late)],
           if counter in s.skipped then Some(s.skipped[counter]) else None, multiset{})
  }

  ghost function PassInOrder(s: SessionState, packet: Incoming, counter: nat, first: Why): Pushed {
    var d := Drain(counter + 1, s.held);
    Pushed(s.(next := d.next, held := d.held),
           [Release(packet, first)] + Tag(d.packets, Reordered), s.held.oldest, multiset{})
  }

  ghost function JumpTo(s: SessionState, packet: Incoming, counter: nat): Pushed {
    Pushed(s.(next := counter + 1, held := EMPTY),
           Tag(Flushed(s.held.at), Forced) + [Release(packet, Jumped)], None, multiset{})
  }

  ghost function HoldBack(s: SessionState, packet: Incoming, counter: nat, now: nat): Pushed {
    Pushed(s.(held := s.held.Insert(counter, Held(packet, now))), [], None,
           if counter in s.held.at then multiset{s.held.at[counter].packet} else multiset{})
  }

  ghost function SessionPush(s0: SessionState, packet: Incoming, counter: nat, now: nat, first: Why): Pushed {
    var s := s0.(lastSeen := now);
    if IsRenumbering(s0, counter, now) then Renumber(s, packet, counter)
    else if counter < s.next then PassLate(s, packet, counter)
    else if counter == s.next then PassInOrder(s, packet, counter, first)
    else if counter - s.next > MAX_GAP then JumpTo(s, packet, counter)
    else HoldBack(s, packet, counter, now)
  }

  ghost predicate Due(s: SessionState, wait: nat, now: nat) {
    s.held.oldest.Some? && s.held.oldest.value + wait <= now
  }

  function Marked(skipped: map<nat, nat>, from: nat, to: nat, noticed: nat): (m: map<nat, nat>)
    decreases Minus(to, from)
  {
    if from >= to then skipped else Marked(skipped[from := noticed], from + 1, to, noticed)
  }

  lemma {:induction false} MarkedHoldsTheGap(skipped: map<nat, nat>, from: nat, to: nat, noticed: nat)
    ensures
      var m := Marked(skipped, from, to, noticed);
      && (forall c :: c in m <==> c in skipped || from <= c < to)
      && (forall c | c in m :: m[c] == if from <= c < to then noticed else skipped[c])
      && |m| <= |skipped| + Minus(to, from)
    decreases Minus(to, from)
  {
    MarkedSize(skipped, from, to, noticed);
    if from < to {
      MarkedHoldsTheGap(skipped[from := noticed], from + 1, to, noticed);
    }
  }

  lemma {:induction false} MarkedSize(skipped: map<nat, nat>, from: nat, to: nat, noticed: nat)
    ensures |Marked(skipped, from, to, noticed)| <= |skipped| + Minus(to, from)
    decreases Minus(to, from)
  {
    hide Minus;
    MinusSteps(to, from);
    if from < to {
      var more := skipped[from := noticed];
      assert more.Keys == skipped.Keys + {from};
      assert |more| == |more.Keys| <= |skipped.Keys| + 1;
      MarkedSize(more, from + 1, to, noticed);
    }
  }

  lemma MinusSteps(a: nat, b: nat)
    ensures b < a ==> Minus(a, b) == 1 + Minus(a, b + 1)
  {
  }

  /** The numbers of the gap are remembered as skipped, with the moment the gap was noticed. */
  ghost function MarkSkipped(s: SessionState, lowest: nat, noticed: nat): map<nat, nat> {
    var kept := if |s.skipped| + Minus(lowest, s.next) > MAX_SKIPPED then map[] else s.skipped;
    Marked(kept, s.next, Min(lowest, s.next + MAX_SKIPPED), noticed)
  }

  /** Gives up on the gap in front of the lowest held packet. */
  ghost function SkipGap(s: SessionState): (r: (SessionState, seq<Incoming>))
    requires s.held.WellFormed() && s.held.oldest.Some?
    ensures |r.0.held.at| < |s.held.at| && r.0.held.WellFormed()
  {
    var lowest := Lowest(s.held.at);
    var d := Drain(lowest, s.held);
    DrainLeavesTheRest(lowest, s.held);
    DrainKeepsWellFormed(lowest, s.held);
    assert d.packets != [];
    assert lowest in s.held.at && lowest !in d.held.at;
    assert d.held.at.Keys <= s.held.at.Keys - {lowest};
    SubsetIsSmaller(d.held.at.Keys, s.held.at.Keys - {lowest});
    (s.(next := d.next, held := d.held, skipped := MarkSkipped(s, lowest, s.held.oldest.value)), d.packets)
  }

  ghost function SessionExpire(s: SessionState, wait: nat, now: nat): (SessionState, seq<Incoming>)
    requires s.held.WellFormed()
    decreases |s.held.at|
  {
    if Due(s, wait, now) then
      var (s1, packets) := SkipGap(s);
      var (s2, more) := SessionExpire(s1, wait, now);
      (s2, packets + more)
    else (s, [])
  }

  // ---------------------------------------------------------------- all sessions

  datatype Stats = Stats(passthrough: nat, inOrder: nat, reordered: nat, timedOut: nat, late: nat, forced: nat,
                         maxHeld: nat, waitMs: nat)

  const NO_STATS := Stats(0, 0, 0, 0, 0, 0, 0, 0)

  /** How one handed-on packet is counted. The packet that jumps ahead is counted nowhere. */
  function Count(st: Stats, why: Why): Stats {
    match why
    case Plain => st.(passthrough := st.passthrough + 1)
    case Started => st.(inOrder := st.inOrder + 1)
    case InOrder => st.(inOrder := st.inOrder + 1)
    case Renumbered => st.(inOrder := st.inOrder + 1)
    case Reordered => st.(reordered := st.reordered + 1)
    case TimedOut => st.(timedOut := st.timedOut + 1)
    case Late => st.(late := st.late + 1)
    case Forced => st.(forced := st.forced + 1)
    case Jumped => st
  }

  function Tally(st: Stats, rel: seq<Release>): Stats {
    if rel == [] then st else Count(Tally(st, rel[..|rel| - 1]), rel[|rel| - 1].why)
  }

  lemma {:induction false} TallyOfConcat(st: Stats, a: seq<Release>, b: seq<Release>)
    ensures Tally(st, a + b) == Tally(Tally(st, a), b)
    decreases |b|
  {
    if b == [] {
      assert a + b == a;
    } else {
      assert (a + b)[..|a + b| - 1] == a + b[..|b| - 1];
      TallyOfConcat(st, a, b[..|b| - 1]);
    }
  }

  /** A group of packets handed on for one reason raises one counter by their number. */
  lemma {:induction false} TallyOfTag(st: Stats, packets: seq<Incoming>, why: Why)
    ensures why == Forced ==> Tally(st, Tag(packets, why)) == st.(forced := st.forced + |packets|)
    ensures why == Reordered ==> Tally(st, Tag(packets, why)) == st.(reordered := st.reordered + |packets|)
    ensures why == TimedOut ==> Tally(st, Tag(packets, why)) == st.(timedOut := st.timedOut + |packets|)
    decreases |packets|
  {
    if packets != [] {
      var rest := packets[..|packets| - 1];
      assert Tag(packets, why)[..|packets| - 1] == Tag(rest, why);
      TallyOfTag(st, rest, why);
    }
  }

  lemma TallyOfOne(st: Stats, packet: Incoming, why: Why)
    ensures Tally(st, [Release(packet, why)]) == Count(st, why)
  {
    assert [Release(packet, why)][..0] == [];
  }

  datatype State = State(pace: Pace, sessions: map<SessionKey, SessionState>, stats: Stats)

  /** What one step hands on, and what it loses: overwritten duplicates and pruned sessions. */
  datatype Outcome = Outcome(state: State, rel: seq<Release>, overwritten: multiset<Incoming>,
                             pruned: multiset<Incoming>, samples: seq<nat>)

  ghost function HeldPackets(at: map<nat, Held>): set<Incoming> {
    set c | c in at :: at[c].packet
  }

  /** At most 16 sessions: a packet of a 17th displaces `victim`. */
  ghost function MakeRoom(s: State, key: SessionKey, victim: SessionKey): State {
    if |s.sessions| >= MAX_SESSIONS && key !in s.sessions then s.(sessions := s.sessions - {victim}) else s
  }

  ghost function PrunedBy(s: State, key: SessionKey, victim: SessionKey): multiset<Incoming> {
    if |s.sessions| >= MAX_SESSIONS && key !in s.sessions && victim in s.sessions
    then multiset(HeldPackets(s.sessions[victim].held.at)) else multiset{}
  }

  ghost function SessionFor(s: State, key: SessionKey, counter: nat, now: nat): SessionState {
    if key in s.sessions then s.sessions[key] else SessionState(counter, EMPTY, now, map[])
  }

  ghost function SampleOf(noticed: Option<nat>, now: nat): seq<nat> {
    if noticed.Some? then [Minus(now, noticed.value)] else []
  }

  ghost function PushNumbered(s: State, packet: Incoming, now: nat, victim: SessionKey): Outcome
    requires Numbered(packet)
  {
    var key, counter := KeyOf(packet), CounterOf(packet);
    var room := MakeRoom(s, key, victim);
    var p := SessionPush(SessionFor(room, key, counter, now), packet, counter, now,
                         if key in s.sessions then InOrder else Started);
    var samples := SampleOf(p.noticed, now);
    var pace := if samples == [] then s.pace else RecordLateness(s.pace, samples[0]);
    var counted := Tally(s.stats, p.rel);
    var stats := counted.(maxHeld := if p.rel == [] then Max(counted.maxHeld, |p.session.held.at|) else counted.maxHeld,
                          waitMs := if pace.wait != s.pace.wait then pace.wait / 1_000_000 else counted.waitMs);
    Outcome(State(pace, room.sessions[key := p.session], stats), p.rel, p.overwritten,
            PrunedBy(s, key, victim), if s.pace.adaptive then samples else [])
  }

  ghost function Push(s: State, packet: Incoming, now: nat, victim: SessionKey): Outcome {
    if Numbered(packet) then PushNumbered(s, packet, now, victim)
    else
      var rel := [Release(packet, Plain)];
      Outcome(s.(stats := Tally(s.stats, rel)), rel, multiset{}, multiset{}, [])
  }

  ghost predicate AllWellFormed(s: State) {
    forall k | k in s.sessions :: s.sessions[k].held.WellFormed()
  }

  /** One session gives up on the gaps that have waited long enough. */
  ghost function ExpireOne(s: State, now: nat, key: SessionKey): Outcome
    requires AllWellFormed(s) && key in s.sessions
  {
    var (session, packets) := SessionExpire(s.sessions[key], s.pace.wait, now);
    var rel := Tag(packets, TimedOut);
    Outcome(s.(sessions := s.sessions[key := session], stats := Tally(s.stats, rel)), rel, multiset{}, multiset{}, [])
  }

  /** The sessions of `order` give up on their overdue gaps, one after another. */
  ghost function ExpireAll(s: State, now: nat, order: seq<SessionKey>): Outcome
    requires AllWellFormed(s) && forall k | k in order :: k in s.sessions
    ensures AllWellFormed(ExpireAll(s, now, order).state)
    ensures ExpireAll(s, now, order).state.sessions.Keys == s.sessions.Keys
    decreases |order|
  {
    if order == [] then Outcome(s, [], multiset{}, multiset{}, [])
    else
      var before := ExpireAll(s, now, order[..|order| - 1]);
      var o := ExpireOne(before.state, now, order[|order| - 1]);
      ExpireOneKeepsWellFormed(before.state, now, order[|order| - 1]);
      o.(rel := before.rel + o.rel)
  }

  lemma ExpireOneKeepsWellFormed(s: State, now: nat, key: SessionKey)
    requires AllWellFormed(s) && key in s.sessions
    ensures AllWellFormed(ExpireOne(s, now, key).state)
  {
    SessionExpireKeepsWellFormed(s.sessions[key], s.pace.wait, now);
  }

  lemma {:induction false} SessionExpireKeepsWellFormed(s: SessionState, wait: nat, now: nat)
    requires s.held.WellFormed()
    ensures SessionExpire(s, wait, now).0.held.WellFormed()
    decreases |s.held.at|
  {
    if Due(s, wait, now) {
      SessionExpireKeepsWellFormed(SkipGap(s).0, wait, now);
    }
  }

  lemma ExpireAllLast(s: State, now: nat, rest: seq<SessionKey>, last: SessionKey)
    requires AllWellFormed(s) && (forall k | k in rest :: k in s.sessions) && last in s.sessions
    ensures forall k | k in rest + [last] :: k in s.sessions
    ensures
      var before := ExpireAll(s, now, rest);
      && AllWellFormed(before.state) && last in before.state.sessions
      && ExpireAll(s, now, rest + [last]).state == ExpireOne(before.state, now, last).state
      && ExpireAll(s, now, rest + [last]).rel == before.rel + ExpireOne(before.state, now, last).rel
  {
    hide ExpireOne, AllWellFormed;
    assert (rest + [last])[..|rest + [last]| - 1] == rest;
  }

  /** Each session of `order` ends as it would alone, whatever the order; the others do not change. */
  lemma {:induction false} ExpireAllIsPerSession(s: State, now: nat, order: seq<SessionKey>, key: SessionKey)
    requires AllWellFormed(s) && (forall k | k in order :: k in s.sessions) && Distinct(order) && key in s.sessions
    ensures ExpireAll(s, now, order).state.pace == s.pace
    ensures
      ExpireAll(s, now, order).state.sessions[key]
      == if key in order then SessionExpire(s.sessions[key], s.pace.wait, now).0 else s.sessions[key]
    decreases |order|
  {
    hide SessionExpire, Tally, Tag;
    if order != [] {
      var rest, last := order[..|order| - 1], order[|order| - 1];
      assert order == rest + [last];
      assert last !in rest;
      ExpireAllIsPerSession(s, now, rest, key);
    }
  }

  /** The earliest moment at which `expire_into` would hand something on. */
  ghost predicate IsNextDeadline(s: State, deadline: Option<nat>) {
    match deadline
    case None => forall k | k in s.sessions :: s.sessions[k].held.oldest.None?
    case Some(t) =>
      && (exists k | k in s.sessions :: Due(s.sessions[k], s.pace.wait, t))
      && (forall k, now: nat | k in s.sessions && now < t :: !Due(s.sessions[k], s.pace.wait, now))
  }
}
