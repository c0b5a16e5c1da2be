/**
 From the sender's numbering to the receiver's order buffer: if the holes only permute the packets, and
 no packet overtakes a missing one by more than the window, every flow bucket comes out exactly as it was read.
 */
module EndToEnd {
  import opened Packets
  import opened HeldRings
  import opened Lateness
  import opened ReorderSpec
  import opened ReorderRuns
  import opened ReorderHistory
  import opened ReorderTheorems
  import opened Sequencers

  /**
   `p` is the first packet of its bucket, or comes after it, and everything more than 511 numbers
   before it is there.
   */
  ghost predicate OnTime(before: seq<Incoming>, p: Incoming, sent: seq<Incoming>) {
    Numbered(p) && KeyOf(p).Flow? ==>
      var stream := Stream(sent, KeyOf(p).flow);
      forall m | 0 <= m < |stream| && (m + MAX_GAP < CounterOf(p) || m == 0 < CounterOf(p)) :: stream[m] in before
  }

  /** The holes deliver every packet once, in any order in which each packet is on time. */
  ghost predicate Permuted(arrivals: seq<Incoming>, sent: seq<Incoming>) {
    && multiset(arrivals) == multiset(sent)
    && forall i | 0 <= i < |arrivals| :: OnTime(arrivals[..i], arrivals[i], sent)
  }

  ghost function Arrivals(events: seq<Event>): seq<Incoming>
    decreases |events|
  {
    if events == [] then [] else Arrival(events[0]) + Arrivals(events[1..])
  }

  ghost predicate NotDue(s: State, e: Event) {
    e.Expire? && e.key in s.sessions ==> !Due(s.sessions[e.key], s.pace.wait, e.now)
  }

  /** The timer never has to give up on a gap. */
  ghost predicate NoneGivenUp(h: History, events: seq<Event>)
    requires Inv(h.state) && LegalRun(h, events)
    decreases |events|
  {
    events != [] ==>
      && NotDue(h.state, events[0])
      && (StepPreservesInv(h.state, events[0]); NoneGivenUp(After(h, events[0]), events[1..]))
  }

  // ---------------------------------------------------------------- what was sent

  /** `sent` is numbered bucket by bucket from zero. */
  ghost predicate WellNumbered(sent: seq<Incoming>) {
    && (forall p | p in sent && Numbered(p) :: KeyOf(p).Flow? && KeyOf(p).flow < FLOW_BUCKETS)
    && (forall b | 0 <= b < FLOW_BUCKETS :: Consecutive(Stream(sent, b), b, 0))
  }

  lemma SentIsWellNumbered(inputs: seq<Datagram>)
    ensures WellNumbered(Sent(FROM_ZERO, inputs))
  {
    SentIsInBuckets(FROM_ZERO, inputs);
    forall b | 0 <= b < FLOW_BUCKETS
      ensures Consecutive(Stream(Sent(FROM_ZERO, inputs), b), b, 0)
    {
      assert FROM_ZERO[b] == 0;
      StreamIsConsecutive(FROM_ZERO, inputs, b);
    }
  }

  /** A numbered packet is the packet of its number in its bucket. */
  lemma SentByNumber(sent: seq<Incoming>, p: Incoming, b: nat)
    requires WellNumbered(sent) && p in sent && InBucket(p, b)
    ensures b < FLOW_BUCKETS && CounterOf(p) < |Stream(sent, b)| && Stream(sent, b)[CounterOf(p)] == p
  {
    StreamIsOfBucket(sent, b);
    var c :| 0 <= c < |Stream(sent, b)| && Stream(sent, b)[c] == p;
    assert Consecutive(Stream(sent, b), b, 0);
  }

  lemma {:induction false} CountInStream(packets: seq<Incoming>, p: Incoming, b: nat)
    requires InBucket(p, b)
    ensures multiset(packets)[p] == multiset(Stream(packets, b))[p]
    decreases |packets|
  {
    if packets != [] {
      CountInStream(packets[1..], p, b);
      assert packets == [packets[0]] + packets[1..];
    }
  }

  lemma {:induction false} ConsecutiveIsDistinct(s: seq<Incoming>, b: nat, p: Incoming)
    requires Consecutive(s, b, 0)
    ensures multiset(s)[p] <= 1
    decreases |s|
  {
    if s != [] {
      var last := |s| - 1;
      forall c | 0 <= c < last
        ensures s[..last][c] != s[last]
      {
        assert Carries(s[c], Flow(b), c) && Carries(s[last], Flow(b), last);
      }
      assert s[last] !in multiset(s[..last]);
      ConsecutiveIsDistinct(s[..last], b, p);
      assert s == s[..last] + [s[last]];
    }
  }

  /** No numbered packet arrives twice. */
  lemma ArrivesOnce(arrivals: seq<Incoming>, sent: seq<Incoming>, i: nat)
    requires WellNumbered(sent) && multiset(arrivals) == multiset(sent) && i < |arrivals| && Numbered(arrivals[i])
    ensures arrivals[i] !in arrivals[..i]
  {
    var p := arrivals[i];
    assert p in multiset(arrivals) && p in multiset(sent);
    var b := KeyOf(p).flow;
    CountInStream(sent, p, b);
    ConsecutiveIsDistinct(Stream(sent, b), b, p);
    OnceMeansFirst(arrivals, i);
  }

  lemma OnceMeansFirst<T>(s: seq<T>, i: nat)
    requires i < |s| && multiset(s)[s[i]] <= 1
    ensures s[i] !in s[..i]
  {
    var p := s[i];
    assert s == s[..i + 1] + s[i + 1..] && s[..i + 1] == s[..i] + [p];
    assert multiset(s)[p] == multiset(s[..i])[p] + 1 + multiset(s[i + 1..])[p];
  }

  // ---------------------------------------------------------------- the invariant

  /** The session of a bucket: handed on is exactly the stream up to `next`, held is what arrived beyond it. */
  ghost predicate BucketInStep(s: SessionState, stream: seq<Incoming>, arrived: seq<Incoming>, out: seq<Incoming>) {
    && s.next <= |stream| && out == stream[..s.next]
    && (forall c | 0 <= c < s.next :: stream[c] in arrived)
    && (s.next < |stream| ==> stream[s.next] !in arrived)
    && (forall c :: c in s.held.at <==> s.next < c < |stream| && stream[c] in arrived)
    && (forall c | c in s.held.at && c < |stream| :: s.held.at[c].packet == stream[c])
  }

  ghost predicate BucketUntouched(stream: seq<Incoming>, arrived: seq<Incoming>, out: seq<Incoming>) {
    out == [] && forall c | 0 <= c < |stream| :: stream[c] !in arrived
  }

  ghost predicate BucketLinked(h: History, sent: seq<Incoming>, b: nat) {
    var stream, out := Stream(sent, b), Stream(PacketsOf(h.log), b);
    if Flow(b) in h.state.sessions then BucketInStep(h.state.sessions[Flow(b)], stream, h.arrived, out)
    else BucketUntouched(stream, h.arrived, out)
  }

  ghost predicate Linked(h: History, sent: seq<Incoming>) {
    && (forall k | k in h.state.sessions :: k.Flow? && k.flow < FLOW_BUCKETS)
    && (forall b | 0 <= b < FLOW_BUCKETS :: BucketLinked(h, sent, b))
    && h.overwritten == multiset{} && h.pruned == multiset{}
  }

  /** At most 16 buckets, at most 16 sessions: no session is ever displaced. */
  lemma RoomForAll(m: Sessions, key: SessionKey)
    requires forall k | k in m :: k.Flow? && k.flow < FLOW_BUCKETS
    requires key.Flow? && key.flow < FLOW_BUCKETS && key !in m
    ensures |m| < MAX_SESSIONS
  {
    FewFlows(m.Keys + {key}, FLOW_BUCKETS);
    assert |m.Keys + {key}| == |m| + 1;
  }

  lemma {:induction false} FewFlows(keys: set<SessionKey>, n: nat)
    requires forall k | k in keys :: k.Flow? && k.flow < n
    ensures |keys| <= n
    decreases n
  {
    if n == 0 {
      assert keys == {};
    } else {
      FewFlows(keys - {Flow(n - 1)}, n - 1);
    }
  }

  /** The first packet of a bucket opens its session and goes on. */
  lemma FirstArrives(stream: seq<Incoming>, arrived: seq<Incoming>, p: Incoming, b: nat, now: nat)
    requires Consecutive(stream, b, 0) && stream != [] && stream[0] == p
    requires BucketUntouched(stream, arrived, [])
    ensures
      var r := SessionPush(SessionState(0, EMPTY, now, map[]), p, 0, now, Started);
      && r.overwritten == multiset{}
      && PacketsOf(r.rel) == [p]
      && BucketInStep(r.session, stream, arrived + [p], [p])
  {
    assert Carries(p, Flow(b), 0);
    FirstPacketStarts(p, now);
    assert PacketsOf([Release(p, Started)]) == [p];
    forall c | 0 < c < |stream|
      ensures stream[c] !in arrived + [p]
    {
      assert Carries(stream[c], Flow(b), c);
    }
  }

  /** What a drain hands on is a stretch of the stream. */
  lemma DrainIsStretch(s: SessionState, stream: seq<Incoming>, arrived: seq<Incoming>)
    requires s.next < |stream| && BucketInStep(s, stream, arrived, stream[..s.next])
    ensures
      var d := Drain(s.next + 1, s.held);
      && d.next <= |stream| && d.packets == stream[s.next + 1..d.next]
      && (forall c | s.next + 1 <= c < d.next :: c in s.held.at)
  {
    var n, d := s.next, Drain(s.next + 1, s.held);
    forall c | n + 1 <= c < d.next
      ensures c in s.held.at && d.packets[c - (n + 1)] == stream[c]
    {
      DrainTakesTheRun(n + 1, s.held, c);
    }
    if d.next > n + 1 {
      assert d.next - 1 in s.held.at;
    }
    forall i | 0 <= i < |d.packets|
      ensures d.packets[i] == stream[n + 1..d.next][i]
    {
      assert d.packets[(n + 1 + i) - (n + 1)] == stream[n + 1 + i];
    }
  }

  /** The expected packet goes on with everything held that follows it. */
  lemma NextArrives(s: SessionState, stream: seq<Incoming>, arrived: seq<Incoming>, p: Incoming, b: nat, now: nat)
    requires Consecutive(stream, b, 0) && s.next < |stream| && stream[s.next] == p
    requires BucketInStep(s, stream, arrived, stream[..s.next])
    ensures
      var r := PassInOrder(s.(lastSeen := now), p, s.next, InOrder);
      && s.next <= r.session.next <= |stream|
      && PacketsOf(r.rel) == stream[s.next..r.session.next]
      && BucketInStep(r.session, stream, arrived + [p], stream[..r.session.next])
  {
    hide BucketInStep, Consecutive;
    var d := Drain(s.next + 1, s.held);
    DrainLeavesTheRest(s.next + 1, s.held);
    DrainIsStretch(s, stream, arrived);
    PacketsOfTag(d.packets, Reordered);
    PacketsOfConcat([Release(p, InOrder)], Tag(d.packets, Reordered));
    assert PacketsOf([Release(p, InOrder)]) == [p];
    assert [p] + stream[s.next + 1..d.next] == stream[s.next..d.next];
    DrainedInStep(s, stream, arrived, p, b, PassInOrder(s.(lastSeen := now), p, s.next, InOrder).session);
  }

  lemma DrainedInStep(s: SessionState, stream: seq<Incoming>, arrived: seq<Incoming>, p: Incoming,
                     b: nat, t: SessionState)
    requires Consecutive(stream, b, 0) && s.next <= |stream| && BucketInStep(s, stream, arrived, stream[..s.next])
    requires s.next < |stream| && stream[s.next] == p && s.next < t.next <= |stream|
    requires t.next !in t.held.at && (forall c :: c in t.held.at <==> c in s.held.at && !(s.next + 1 <= c < t.next))
    requires forall c | c in t.held.at :: t.held.at[c] == s.held.at[c]
    requires forall c | s.next + 1 <= c < t.next :: c in s.held.at
    ensures BucketInStep(t, stream, arrived + [p], stream[..t.next])
  {
    forall c | 0 <= c < |stream|
      ensures stream[c] in arrived + [p] <==> stream[c] in arrived || c == s.next
    {
      assert Carries(stream[c], Flow(b), c) && Carries(p, Flow(b), s.next);
    }
  }

  /** A packet ahead of a missing one is held back, and nothing held is overwritten. */
  lemma EarlyArrives(s: SessionState, stream: seq<Incoming>, arrived: seq<Incoming>, p: Incoming,
                    c: nat, b: nat, now: nat)
    requires Consecutive(stream, b, 0) && s.next <= |stream| && BucketInStep(s, stream, arrived, stream[..s.next])
    requires s.next < c < |stream| && stream[c] == p && p !in arrived
    ensures
      var r := HoldBack(s.(lastSeen := now), p, c, now);
      && r.overwritten == multiset{} && PacketsOf(r.rel) == []
      && BucketInStep(r.session, stream, arrived + [p], stream[..s.next])
  {
    forall e | 0 <= e < |stream|
      ensures stream[e] in arrived + [p] <==> stream[e] in arrived || e == c
    {
      assert Carries(stream[e], Flow(b), e) && Carries(p, Flow(b), c);
    }
  }

  /** What a numbered arrival does to the session of its bucket. */
  ghost predicate Advances(s: State, stream: seq<Incoming>, arrived: seq<Incoming>, out: seq<Incoming>, p: Incoming,
                           r: Pushed)
  {
    && r.overwritten == multiset{}
    && BucketInStep(r.session, stream, arrived + [p], out + PacketsOf(r.rel))
  }

  /** On time means in order or less than a window ahead of the expected packet. */
  lemma FallsInWindow(s: SessionState, stream: seq<Incoming>, arrived: seq<Incoming>, out: seq<Incoming>, p: Incoming,
                      c: nat, now: nat)
    requires c < |stream| && stream[c] == p && p !in arrived
    requires forall m | 0 <= m < |stream| && m + MAX_GAP < c :: stream[m] in arrived
    requires BucketInStep(s, stream, arrived, out)
    ensures s.next <= c && s.next < |stream| && out == stream[..s.next]
    ensures
      SessionPush(s, p, c, now, InOrder)
      == if c == s.next then PassInOrder(s.(lastSeen := now), p, c, InOrder)
         else HoldBack(s.(lastSeen := now), p, c, now)
  {
    hide PassInOrder, HoldBack, JumpTo, PassLate, Renumber;
    assert s.next <= c <= s.next + MAX_GAP;
  }

  lemma KnownBucketAdvances(s: State, stream: seq<Incoming>, arrived: seq<Incoming>, out: seq<Incoming>, p: Incoming,
                            b: nat, now: nat)
    requires Consecutive(stream, b, 0) && InBucket(p, b)
    requires CounterOf(p) < |stream| && stream[CounterOf(p)] == p && p !in arrived
    requires forall m | 0 <= m < |stream| && m + MAX_GAP < CounterOf(p) :: stream[m] in arrived
    requires Flow(b) in s.sessions && BucketInStep(s.sessions[Flow(b)], stream, arrived, out)
    ensures Advances(s, stream, arrived, out, p, SessionPush(s.sessions[Flow(b)], p, CounterOf(p), now, InOrder))
  {
    hide Consecutive, BucketInStep, SessionPush, Drain, PacketsOf, Tag;
    var session, c := s.sessions[Flow(b)], CounterOf(p);
    var r := SessionPush(session, p, c, now, InOrder);
    FallsInWindow(session, stream, arrived, out, p, c, now);
    if c == session.next {
      NextArrives(session, stream, arrived, p, b, now);
      assert stream[..session.next] + stream[session.next..r.session.next] == stream[..r.session.next];
    } else {
      EarlyArrives(session, stream, arrived, p, c, b, now);
      assert out + PacketsOf(r.rel) == out;
    }
  }

  lemma NewBucketAdvances(s: State, stream: seq<Incoming>, arrived: seq<Incoming>, p: Incoming, b: nat, now: nat)
    requires Consecutive(stream, b, 0) && InBucket(p, b)
    requires CounterOf(p) < |stream| && stream[CounterOf(p)] == p
    requires CounterOf(p) > 0 ==> stream[0] in arrived
    requires BucketUntouched(stream, arrived, [])
    ensures CounterOf(p) == 0
    ensures Advances(s, stream, arrived, [], p, SessionPush(SessionState(0, EMPTY, now, map[]), p, 0, now, Started))
  {
    hide Consecutive;
    FirstArrives(stream, arrived, p, b, now);
    var r := SessionPush(SessionState(0, EMPTY, now, map[]), p, 0, now, Started);
    assert [] + PacketsOf(r.rel) == [p];
  }

  ghost predicate FewBuckets(m: Sessions) {
    forall k | k in m :: k.Flow? && k.flow < FLOW_BUCKETS
  }

  lemma NothingPruned(s: State, b: nat, victim: SessionKey)
    requires FewBuckets(s.sessions) && b < FLOW_BUCKETS
    ensures MakeRoom(s, Flow(b), victim) == s && PrunedBy(s, Flow(b), victim) == multiset{}
  {
    if Flow(b) !in s.sessions {
      RoomForAll(s.sessions, Flow(b));
    }
  }

  lemma BucketAdvances(h: History, sent: seq<Incoming>, p: Incoming, b: nat, now: nat, victim: SessionKey)
    requires Inv(h.state) && WellNumbered(sent) && Linked(h, sent)
    requires p in sent && InBucket(p, b) && p !in h.arrived && OnTime(h.arrived, p, sent)
    ensures b < FLOW_BUCKETS
    ensures
      var o := PushNumbered(h.state, p, now, victim);
      var r := Met(h.state, p, now, victim);
      && o.overwritten == multiset{} && o.pruned == multiset{} && o.rel == r.rel
      && o.state.sessions == h.state.sessions[Flow(b) := r.session]
      && BucketInStep(r.session, Stream(sent, b), h.arrived + [p], Stream(PacketsOf(h.log), b) + PacketsOf(o.rel))
  {
    hide SessionPush, BucketInStep, BucketUntouched, Consecutive, PushNumbered, MakeRoom, PrunedBy, Inv;
    SentByNumber(sent, p, b);
    NothingPruned(h.state, b, victim);
    PushNumberedIs(h.state, p, now, victim);
    var stream, out := Stream(sent, b), Stream(PacketsOf(h.log), b);
    assert Consecutive(stream, b, 0);
    assert BucketLinked(h, sent, b);
    if Flow(b) in h.state.sessions {
      KnownBucketAdvances(h.state, stream, h.arrived, out, p, b, now);
    } else {
      assert out == [] by {
        UntouchedIsEmpty(stream, h.arrived, out);
      }
      NewBucketAdvances(h.state, stream, h.arrived, p, b, now);
    }
  }

  lemma UntouchedIsEmpty(stream: seq<Incoming>, arrived: seq<Incoming>, out: seq<Incoming>)
    requires BucketUntouched(stream, arrived, out)
    ensures out == []
  {
  }

  lemma {:induction false} StreamOfOwn(packets: seq<Incoming>, b: nat, other: nat)
    requires forall p | p in packets :: InBucket(p, b)
    ensures Stream(packets, b) == packets
    ensures other != b ==> Stream(packets, other) == []
    decreases |packets|
  {
    if packets != [] {
      StreamOfOwn(packets[1..], b, other);
      assert packets == [packets[0]] + packets[1..];
    }
  }

  /** A bucket other than the packet's is not affected. */
  lemma OtherBucketStays(h: History, g: History, sent: seq<Incoming>, p: Incoming, b: nat, other: nat)
    requires InBucket(p, b) && other != b && BucketLinked(h, sent, other)
    requires g.arrived == h.arrived + [p]
    requires Stream(PacketsOf(g.log), other) == Stream(PacketsOf(h.log), other)
    requires Flow(other) in g.state.sessions <==> Flow(other) in h.state.sessions
    requires Flow(other) in h.state.sessions ==> g.state.sessions[Flow(other)] == h.state.sessions[Flow(other)]
    ensures BucketLinked(g, sent, other)
  {
    var stream := Stream(sent, other);
    StreamIsOfBucket(sent, other);
    forall c | 0 <= c < |stream|
      ensures stream[c] in g.arrived <==> stream[c] in h.arrived
    {
      assert stream[c] in stream && InBucket(stream[c], other);
    }
  }

  lemma NumberedStaysLinked(h: History, sent: seq<Incoming>, p: Incoming, b: nat, now: nat, victim: SessionKey)
    requires Inv(h.state) && WellNumbered(sent) && Linked(h, sent) && Legal(h.state, Arrive(p, now, victim))
    requires p in sent && InBucket(p, b) && p !in h.arrived && OnTime(h.arrived, p, sent)
    ensures Linked(After(h, Arrive(p, now, victim)), sent)
  {
    hide BucketInStep, BucketUntouched, SessionPush, PushNumbered, Inv, Legal, OnTime, WellNumbered;
    var g, o := After(h, Arrive(p, now, victim)), PushNumbered(h.state, p, now, victim);
    BucketAdvances(h, sent, p, b, now, victim);
    MetIsOwn(h.state, p, now, victim);
    PacketsOfConcat(h.log, o.rel);
    forall other | 0 <= other < FLOW_BUCKETS
      ensures BucketLinked(g, sent, other)
    {
      StreamOfConcat(PacketsOf(h.log), PacketsOf(o.rel), other);
      StreamOfOwn(PacketsOf(o.rel), b, other);
      assert BucketLinked(h, sent, other);
      if other != b {
        assert Stream(PacketsOf(g.log), other) == Stream(PacketsOf(h.log), other);
        OtherBucketStays(h, g, sent, p, b, other);
      }
    }
  }

  /** A packet without a number goes on at once and affects no bucket. */
  lemma PlainStaysLinked(h: History, sent: seq<Incoming>, p: Incoming, now: nat, victim: SessionKey)
    requires Inv(h.state) && Linked(h, sent) && !Numbered(p)
    ensures Linked(After(h, Arrive(p, now, victim)), sent)
  {
    var g := After(h, Arrive(p, now, victim));
    PacketsOfConcat(h.log, [Release(p, Why.Plain)]);
    assert PacketsOf([Release(p, Why.Plain)]) == [p];
    forall b | 0 <= b < FLOW_BUCKETS
      ensures BucketLinked(g, sent, b)
    {
      StreamOfConcat(PacketsOf(h.log), [p], b);
      assert Stream([p], b) == [];
      assert BucketLinked(h, sent, b);
      PlainInBucket(h, g, sent, p, b);
    }
  }

  lemma PlainInBucket(h: History, g: History, sent: seq<Incoming>, p: Incoming, b: nat)
    requires !Numbered(p) && BucketLinked(h, sent, b) && g.arrived == h.arrived + [p]
    requires Stream(PacketsOf(g.log), b) == Stream(PacketsOf(h.log), b) && g.state.sessions == h.state.sessions
    ensures BucketLinked(g, sent, b)
  {
    var stream := Stream(sent, b);
    StreamIsOfBucket(sent, b);
    forall c | 0 <= c < |stream|
      ensures stream[c] in g.arrived <==> stream[c] in h.arrived
    {
      assert stream[c] in stream && InBucket(stream[c], b);
    }
  }

  /** An expiry that is not due does nothing. */
  lemma IdleStaysLinked(h: History, sent: seq<Incoming>, e: Event)
    requires Inv(h.state) && Linked(h, sent) && e.Expire? && NotDue(h.state, e)
    ensures Linked(After(h, e), sent)
  {
    var g := After(h, e);
    assert Step(h.state, e).rel == [];
    assert g.log == h.log && g.arrived == h.arrived;
    assert g.state.sessions == h.state.sessions;
    forall b | 0 <= b < FLOW_BUCKETS
      ensures BucketLinked(g, sent, b)
    {
      assert BucketLinked(h, sent, b);
    }
  }

  // ---------------------------------------------------------------- whole runs

  lemma StepStaysLinked(h: History, sent: seq<Incoming>, e: Event)
    requires Inv(h.state) && WellNumbered(sent) && Linked(h, sent) && Legal(h.state, e) && NotDue(h.state, e)
    requires e.Arrive? ==> e.packet in sent && OnTime(h.arrived, e.packet, sent)
    requires e.Arrive? && Numbered(e.packet) ==> e.packet !in h.arrived
    ensures Linked(After(h, e), sent)
  {
    hide Inv, Linked, Legal, OnTime;
    match e
    case Arrive(p, now, victim) =>
      if Numbered(p) {
        NumberedStaysLinked(h, sent, p, KeyOf(p).flow, now, victim);
      } else {
        PlainStaysLinked(h, sent, p, now, victim);
      }
    case Expire(now, key) =>
      IdleStaysLinked(h, sent, e);
  }

  /** The next packet of a permuted stream is one that was sent, is new, and is on time. */
  lemma NextIsNew(arrived: seq<Incoming>, p: Incoming, rest: seq<Incoming>, sent: seq<Incoming>)
    requires WellNumbered(sent) && Permuted(arrived + [p] + rest, sent)
    ensures p in sent && OnTime(arrived, p, sent) && (Numbered(p) ==> p !in arrived)
  {
    hide WellNumbered, OnTime;
    var arrivals, i := arrived + [p] + rest, |arrived|;
    assert arrivals[i] == p && arrivals[..i] == arrived;
    assert p in multiset(arrivals) && p in multiset(sent);
    if Numbered(p) {
      ArrivesOnce(arrivals, sent, i);
    }
  }

  lemma {:induction false} RunStaysLinked(h: History, events: seq<Event>, sent: seq<Incoming>)
    requires Inv(h.state) && LegalRun(h, events) && NoneGivenUp(h, events)
    requires WellNumbered(sent) && Permuted(h.arrived + Arrivals(events), sent)
    requires Linked(h, sent)
    ensures Linked(Run(h, events), sent) && Run(h, events).arrived == h.arrived + Arrivals(events)
    decreases |events|
  {
    hide Inv, Linked, WellNumbered, Legal, OnTime, NotDue, Step, After, Permuted;
    if events == [] {
      assert h.arrived + Arrivals(events) == h.arrived;
    } else {
      var e, rest := events[0], Arrivals(events[1..]);
      assert h.arrived + (Arrival(e) + rest) == (h.arrived + Arrival(e)) + rest;
      if e.Arrive? {
        NextIsNew(h.arrived, e.packet, rest, sent);
      }
      StepStaysLinked(h, sent, e);
      StepPreservesInv(h.state, e);
      AfterArrives(h, e);
      RunStaysLinked(After(h, e), events[1..], sent);
    }
  }

  lemma AfterArrives(h: History, e: Event)
    requires Inv(h.state)
    ensures After(h, e).arrived == h.arrived + Arrival(e) && After(h, e).state == Step(h.state, e).state
  {
  }

  lemma StartIsLinked(pace: Pace, sent: seq<Incoming>)
    ensures Linked(Start(pace), sent)
  {
    var h := Start(pace);
    forall b | 0 <= b < FLOW_BUCKETS
      ensures BucketLinked(h, sent, b)
    {
      assert PacketsOf(h.log) == [];
    }
  }

  lemma NotUntouched(stream: seq<Incoming>, arrived: seq<Incoming>, out: seq<Incoming>)
    requires stream != [] && stream[0] in arrived
    ensures !BucketUntouched(stream, arrived, out)
  {
  }

  /** When everything has arrived, every bucket has come out completely and nothing is held. */
  lemma AllArrived(h: History, sent: seq<Incoming>, b: nat)
    requires Linked(h, sent) && multiset(h.arrived) == multiset(sent) && b < FLOW_BUCKETS
    ensures Stream(PacketsOf(h.log), b) == Stream(sent, b)
    ensures Flow(b) in h.state.sessions ==> h.state.sessions[Flow(b)].held.at == map[]
  {
    var stream := Stream(sent, b);
    StreamIsOfBucket(sent, b);
    forall c | 0 <= c < |stream|
      ensures stream[c] in h.arrived
    {
      assert stream[c] in stream && stream[c] in multiset(sent);
    }
    if stream != [] {
      NotUntouched(stream, h.arrived, Stream(PacketsOf(h.log), b));
    }
    assert BucketLinked(h, sent, b);
    if Flow(b) in h.state.sessions {
      var s := h.state.sessions[Flow(b)];
      assert s.next == |stream|;
      assert forall c :: c !in s.held.at;
      assert stream[..s.next] == stream;
    }
  }

  lemma NothingHeld(h: History, sent: seq<Incoming>)
    requires Linked(h, sent) && multiset(h.arrived) == multiset(sent)
    ensures HeldIn(h.state.sessions) == {}
  {
    forall k | k in h.state.sessions
      ensures h.state.sessions[k].held.at == map[]
    {
      AllArrived(h, sent, k.flow);
    }
  }

  /**
   End to end: the packets of every bucket come out exactly in the order the sender read them, with
   the payloads it read; nothing stays held, nothing is lost, nothing is handed on twice.
   */
  lemma EveryBucketComesOutInOrder(pace: Pace, inputs: seq<Datagram>, events: seq<Event>)
    requires pace == FixedPace(pace.wait) || pace == AdaptivePace(pace.wait)
    requires LegalRun(Start(pace), events) && NoneGivenUp(Start(pace), events)
    requires Permuted(Arrivals(events), Sent(FROM_ZERO, inputs))
    ensures
      var h, sent := Run(Start(pace), events), Sent(FROM_ZERO, inputs);
      && HeldIn(h.state.sessions) == {}
      && multiset(PacketsOf(h.log)) == multiset(sent)
      && (forall b | 0 <= b < FLOW_BUCKETS ::
            Stream(PacketsOf(h.log), b) == Stream(sent, b)
            && Payloads(Stream(PacketsOf(h.log), b)) == TcpPayloads(inputs, b))
  {
    hide Permuted, Linked, OnTime, WellNumbered, LegalRun, NoneGivenUp, Run, Sound, Start, Stream,
         PacketsOf, TcpPayloads, Payloads, Sent;
    StartIsEmpty(pace);
    var h, sent, arrivals := Run(Start(pace), events), Sent(FROM_ZERO, inputs), Arrivals(events);
    SentIsWellNumbered(inputs);
    StartIsLinked(pace, sent);
    assert Start(pace).arrived + arrivals == arrivals;
    RunStaysLinked(Start(pace), events, sent);
    PermutedIsAll(arrivals, sent);
    NothingHeld(h, sent);
    NothingLost(h, sent);
    EveryRunIsSound(pace, events);
    SoundConserves(h, pace);
    forall b | 0 <= b < FLOW_BUCKETS
      ensures Stream(PacketsOf(h.log), b) == Stream(sent, b)
      ensures Payloads(Stream(PacketsOf(h.log), b)) == TcpPayloads(inputs, b)
    {
      AllArrived(h, sent, b);
      StreamCarriesPayloads(FROM_ZERO, inputs, b);
    }
  }

  lemma StartIsEmpty(pace: Pace)
    ensures Start(pace).arrived == [] && Inv(Start(pace).state)
  {
  }

  lemma SoundConserves(h: History, initial: Pace)
    requires Sound(h, initial) && h.overwritten == multiset{} && h.pruned == multiset{}
    requires HeldIn(h.state.sessions) == {}
    ensures multiset(PacketsOf(h.log)) == multiset(h.arrived)
  {
    assert Conserves(h);
  }

  lemma PermutedIsAll(arrivals: seq<Incoming>, sent: seq<Incoming>)
    requires Permuted(arrivals, sent)
    ensures multiset(arrivals) == multiset(sent)
  {
  }

  lemma NothingLost(h: History, sent: seq<Incoming>)
    requires Linked(h, sent)
    ensures h.overwritten == multiset{} && h.pruned == multiset{}
  {
  }
}
