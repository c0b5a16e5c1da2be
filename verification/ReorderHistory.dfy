/**
 Whole runs of the order buffer: any sequence of arrivals and expiries, with a history of everything
 that arrived and everything handed on.
 */
module ReorderHistory {
  import opened Prelude
  import opened Packets
  import opened HeldRings
  import opened ReorderSpec
  import opened ReorderRuns

  /** `Expire` lets one session give up on its overdue gaps; `expire_into` does this for every session. */
  datatype Event = Arrive(packet: Incoming, now: nat, victim: SessionKey) | Expire(now: nat, key: SessionKey)

  type Sessions = map<SessionKey, SessionState>

  ghost predicate SessionsInv(m: Sessions) {
    forall k | k in m :: SessionInv(k, m[k])
  }

  /** The invariant of every reachable state. */
  ghost predicate Inv(s: State) {
    SessionsInv(s.sessions) && |s.sessions| <= MAX_SESSIONS
  }

  ghost predicate LeastRecent(m: Sessions, victim: SessionKey) {
    victim in m && forall k | k in m :: m[victim].lastSeen <= m[k].lastSeen
  }

  /** A session is displaced only when needed, and then one that has been silent longest. */
  ghost predicate Legal(s: State, e: Event) {
    e.Arrive? && Numbered(e.packet) && |s.sessions| >= MAX_SESSIONS && KeyOf(e.packet) !in s.sessions ==>
      LeastRecent(s.sessions, e.victim)
  }

  ghost function Step(s: State, e: Event): Outcome
    requires SessionsInv(s.sessions)
  {
    match e
    case Arrive(packet, now, victim) => Push(s, packet, now, victim)
    case Expire(now, key) =>
      if key in s.sessions then ExpireOne(s, now, key)
      else Outcome(s, [], multiset{}, multiset{}, [])
  }

  // ---------------------------------------------------------------- the invariant

  lemma RoomKeepsInv(s: State, key: SessionKey, victim: SessionKey)
    requires Inv(s)
    requires |s.sessions| >= MAX_SESSIONS && key !in s.sessions ==> LeastRecent(s.sessions, victim)
    ensures
      var room := MakeRoom(s, key, victim).sessions;
      && SessionsInv(room)
      && (key in room <==> key in s.sessions)
      && (key in room ==> room[key] == s.sessions[key])
      && |room| + (if key in room then 0 else 1) <= MAX_SESSIONS
  {
    var room := MakeRoom(s, key, victim).sessions;
    if |s.sessions| >= MAX_SESSIONS && key !in s.sessions {
      assert room.Keys == s.sessions.Keys - {victim};
      assert |room.Keys| == |s.sessions.Keys| - 1;
    }
  }

  /** The session a numbered packet meets: an existing one, or a fresh one that expects this packet. */
  ghost function Met(s: State, packet: Incoming, now: nat, victim: SessionKey): (p: Pushed)
    requires Numbered(packet)
  {
    SessionPush(SessionFor(MakeRoom(s, KeyOf(packet), victim), KeyOf(packet), CounterOf(packet), now),
                packet, CounterOf(packet), now, if KeyOf(packet) in s.sessions then InOrder else Started)
  }

  lemma MetKeepsInv(s: State, packet: Incoming, now: nat, victim: SessionKey)
    requires Inv(s) && Numbered(packet) && Legal(s, Arrive(packet, now, victim))
    ensures StepKeepsInv(Met(s, packet, now, victim), KeyOf(packet))
  {
    var key, counter := KeyOf(packet), CounterOf(packet);
    RoomKeepsInv(s, key, victim);
    PushKeepsSessionInv(key, SessionFor(MakeRoom(s, key, victim), key, counter, now), packet, counter, now,
                        if key in s.sessions then InOrder else Started);
  }

  lemma PushNumberedIs(s: State, packet: Incoming, now: nat, victim: SessionKey)
    requires Numbered(packet)
    ensures
      var o, p := PushNumbered(s, packet, now, victim), Met(s, packet, now, victim);
      && o.state.sessions == MakeRoom(s, KeyOf(packet), victim).sessions[KeyOf(packet) := p.session]
      && o.rel == p.rel && o.overwritten == p.overwritten
      && o.pruned == PrunedBy(s, KeyOf(packet), victim)
  {
  }

  lemma PushPreservesInv(s: State, packet: Incoming, now: nat, victim: SessionKey)
    requires Inv(s) && Numbered(packet) && Legal(s, Arrive(packet, now, victim))
    ensures Inv(PushNumbered(s, packet, now, victim).state)
  {
    hide SessionPush, Tally, SessionInv, MakeRoom, SessionFor, PushNumbered;
    var key := KeyOf(packet);
    RoomKeepsInv(s, key, victim);
    MetKeepsInv(s, packet, now, victim);
    PushNumberedIs(s, packet, now, victim);
    var room := MakeRoom(s, key, victim).sessions;
    assert room[key := Met(s, packet, now, victim).session].Keys == room.Keys + {key};
  }

  lemma ExpirePreservesInv(s: State, now: nat, key: SessionKey)
    requires Inv(s) && key in s.sessions
    ensures Inv(ExpireOne(s, now, key).state)
  {
    ExpireKeepsSessionInv(key, s.sessions[key], s.pace.wait, now);
    var after := ExpireOne(s, now, key).state.sessions;
    assert after.Keys == s.sessions.Keys;
    assert |after.Keys| == |s.sessions.Keys|;
  }

  lemma StepPreservesInv(s: State, e: Event)
    requires Inv(s) && Legal(s, e)
    ensures Inv(Step(s, e).state)
  {
    match e
    case Arrive(packet, now, victim) =>
      if Numbered(packet) {
        PushPreservesInv(s, packet, now, victim);
      }
    case Expire(now, key) =>
      if key in s.sessions {
        ExpirePreservesInv(s, now, key);
      }
  }

  // ---------------------------------------------------------------- conservation

  ghost function HeldIn(m: Sessions): set<Incoming> {
    set k, c | k in m && c in m[k].held.at :: m[k].held.at[c].packet
  }

  lemma HeldInSplits(m: Sessions, k: SessionKey)
    requires SessionsInv(m) && k in m
    ensures multiset(HeldIn(m)) == multiset(HeldIn(m - {k})) + multiset(HeldPackets(m[k].held.at))
  {
    hide SessionsInv, HeldIn, HeldPackets;
    HeldInCovers(m, k);
    HeldInIsApart(m, k);
    MultisetOfSum(HeldIn(m - {k}), HeldPackets(m[k].held.at));
  }

  lemma HeldInCovers(m: Sessions, k: SessionKey)
    requires k in m
    ensures HeldIn(m) == HeldIn(m - {k}) + HeldPackets(m[k].held.at)
  {
    forall p | p in HeldIn(m)
      ensures p in HeldIn(m - {k}) + HeldPackets(m[k].held.at)
    {
      var j, c :| j in m && c in m[j].held.at && m[j].held.at[c].packet == p;
      if j != k {
        assert j in m - {k} && c in (m - {k})[j].held.at;
      }
    }
  }

  lemma HeldInIsApart(m: Sessions, k: SessionKey)
    requires SessionsInv(m) && k in m
    ensures HeldIn(m - {k}) !! HeldPackets(m[k].held.at)
  {
    hide SkippedInv, HeldMap.WellFormed;
    forall p | p in HeldIn(m - {k})
      ensures p !in HeldPackets(m[k].held.at)
    {
      var j, c :| j in m - {k} && c in (m - {k})[j].held.at && m[j].held.at[c].packet == p;
      assert SessionInv(j, m[j]) && SessionInv(k, m[k]);
      assert Carries(p, j, c);
    }
  }

  lemma MultisetOfSum<T>(a: set<T>, b: set<T>)
    requires a !! b
    ensures multiset(a + b) == multiset(a) + multiset(b)
  {
  }

  lemma HeldInSplitsIfAny(m: Sessions, k: SessionKey)
    requires SessionsInv(m)
    ensures
      multiset(HeldIn(m)) == multiset(HeldIn(m - {k}))
      + (if k in m then multiset(HeldPackets(m[k].held.at)) else multiset{})
  {
    if k in m {
      HeldInSplits(m, k);
    } else {
      assert m - {k} == m;
    }
  }

  lemma HeldInUpdated(m: Sessions, k: SessionKey, x: SessionState)
    requires SessionsInv(m) && SessionInv(k, x)
    ensures multiset(HeldIn(m[k := x])) == multiset(HeldIn(m - {k})) + multiset(HeldPackets(x.held.at))
  {
    HeldInSplits(m[k := x], k);
    assert m[k := x] - {k} == m - {k};
  }

  /** What arrives and what was held goes out, stays held, is overwritten by a copy, or goes with a pruned session. */
  ghost predicate Balanced(before: Sessions, arrived: multiset<Incoming>, o: Outcome) {
    multiset(HeldIn(before)) + arrived
    == multiset(PacketsOf(o.rel)) + multiset(HeldIn(o.state.sessions)) + o.overwritten + o.pruned
  }

  lemma AddUp<T>(all: multiset<T>, room: multiset<T>, pruned: multiset<T>, others: multiset<T>, mine: multiset<T>,
                 packet: multiset<T>, out: multiset<T>, kept: multiset<T>, overwritten: multiset<T>, after: multiset<T>)
    requires all == room + pruned && room == others + mine && after == others + kept
    requires mine + packet == out + kept + overwritten
    ensures all + packet == out + after + overwritten + pruned
  {
    assert all + packet == others + (mine + packet) + pruned;
  }

  lemma RoomBalances(s: State, key: SessionKey, victim: SessionKey)
    requires Inv(s)
    requires |s.sessions| >= MAX_SESSIONS && key !in s.sessions ==> LeastRecent(s.sessions, victim)
    ensures
      multiset(HeldIn(s.sessions))
      == multiset(HeldIn(MakeRoom(s, key, victim).sessions)) + PrunedBy(s, key, victim)
  {
    if |s.sessions| >= MAX_SESSIONS && key !in s.sessions {
      HeldInSplits(s.sessions, victim);
    }
  }

  lemma PushBalances(s: State, packet: Incoming, now: nat, victim: SessionKey)
    requires Inv(s) && Numbered(packet) && Legal(s, Arrive(packet, now, victim))
    ensures Balanced(s.sessions, multiset{packet}, PushNumbered(s, packet, now, victim))
  {
    var key, counter := KeyOf(packet), CounterOf(packet);
    var room, p := MakeRoom(s, key, victim), Met(s, packet, now, victim);
    var session := SessionFor(room, key, counter, now);
    RoomKeepsInv(s, key, victim);
    RoomBalances(s, key, victim);
    MetKeepsInv(s, packet, now, victim);
    PushConserves(key, session, packet, counter, now, if key in s.sessions then InOrder else Started);
    HeldInSplitsIfAny(room.sessions, key);
    HeldInUpdated(room.sessions, key, p.session);
    PushNumberedIs(s, packet, now, victim);
    assert HeldPackets(EMPTY.at) == {};
    AddUp(multiset(HeldIn(s.sessions)), multiset(HeldIn(room.sessions)), PrunedBy(s, key, victim),
          multiset(HeldIn(room.sessions - {key})), multiset(HeldPackets(session.held.at)), multiset{packet},
          multiset(PacketsOf(p.rel)), multiset(HeldPackets(p.session.held.at)), p.overwritten,
          multiset(HeldIn(room.sessions[key := p.session])));
  }

  lemma ExpireBalances(s: State, now: nat, key: SessionKey)
    requires Inv(s) && key in s.sessions
    ensures Balanced(s.sessions, multiset{}, ExpireOne(s, now, key))
  {
    var session := s.sessions[key];
    var r := SessionExpire(session, s.pace.wait, now);
    ExpireKeepsSessionInv(key, session, s.pace.wait, now);
    ExpireConserves(key, session, s.pace.wait, now);
    HeldInSplits(s.sessions, key);
    HeldInUpdated(s.sessions, key, r.0);
    PacketsOfTag(r.1, TimedOut);
    AddUp(multiset(HeldIn(s.sessions)), multiset(HeldIn(s.sessions)), multiset{},
          multiset(HeldIn(s.sessions - {key})), multiset(HeldPackets(session.held.at)), multiset{},
          multiset(r.1), multiset(HeldPackets(r.0.held.at)), multiset{}, multiset(HeldIn(s.sessions[key := r.0])));
  }

  ghost function Arrival(e: Event): seq<Incoming> {
    if e.Arrive? then [e.packet] else []
  }

  lemma StepBalances(s: State, e: Event)
    requires Inv(s) && Legal(s, e)
    ensures Balanced(s.sessions, multiset(Arrival(e)), Step(s, e))
  {
    match e
    case Arrive(packet, now, victim) =>
      if Numbered(packet) {
        PushBalances(s, packet, now, victim);
      } else {
        assert PacketsOf([Release(packet, Plain)]) == [packet];
      }
    case Expire(now, key) =>
      if key in s.sessions {
        ExpireBalances(s, now, key);
      } else {
        assert PacketsOf(Step(s, e).rel) == [];
      }
  }

  // ---------------------------------------------------------------- order

  /** No session's stream has broken its order so far, and none has passed the number it expects. */
  ghost predicate Ordered(log: seq<Release>, m: Sessions) {
    forall key :: InStep(Floor(Some(0), log, key), key, m)
  }

  ghost predicate InStep(floor: Option<nat>, key: SessionKey, m: Sessions) {
    floor.Some? && (key in m ==> floor.value <= m[key].next)
  }

  /** Everything a session hands on is its own. */
  lemma OwnPackets(at: map<nat, Held>, rest: multiset<Incoming>, extra: multiset<Incoming>,
                  rel: seq<Release>, key: SessionKey)
    requires AllCarry(at, key) && forall p | p in extra :: Numbered(p) && KeyOf(p) == key
    requires multiset(HeldPackets(at)) + extra == multiset(PacketsOf(rel)) + rest
    ensures forall i | 0 <= i < |rel| :: Numbered(rel[i].packet) && KeyOf(rel[i].packet) == key
  {
    forall i | 0 <= i < |rel|
      ensures Numbered(rel[i].packet) && KeyOf(rel[i].packet) == key
    {
      var p := PacketsOf(rel)[i];
      assert p in multiset(PacketsOf(rel));
      assert p in multiset(HeldPackets(at)) + extra;
    }
  }

  lemma MetIsOwn(s: State, packet: Incoming, now: nat, victim: SessionKey)
    requires Inv(s) && Numbered(packet) && Legal(s, Arrive(packet, now, victim))
    ensures
      var rel := Met(s, packet, now, victim).rel;
      forall i | 0 <= i < |rel| :: Numbered(rel[i].packet) && KeyOf(rel[i].packet) == KeyOf(packet)
  {
    var key, counter := KeyOf(packet), CounterOf(packet);
    var session := SessionFor(MakeRoom(s, key, victim), key, counter, now);
    var first := if key in s.sessions then InOrder else Started;
    RoomKeepsInv(s, key, victim);
    PushConserves(key, session, packet, counter, now, first);
    var p := SessionPush(session, packet, counter, now, first);
    OwnPackets(session.held.at, multiset(HeldPackets(p.session.held.at)) + p.overwritten, multiset{packet}, p.rel, key);
  }

  /** A fresh session hands its first packet on at once. */
  lemma FirstPacketStarts(packet: Incoming, now: nat)
    requires Numbered(packet)
    ensures
      var p := SessionPush(SessionState(CounterOf(packet), EMPTY, now, map[]), packet, CounterOf(packet), now, Started);
      && p.rel == [Release(packet, Started)]
      && p.session.next == CounterOf(packet) + 1 && p.session.held == EMPTY
      && p.noticed == None && p.overwritten == multiset{}
  {
  }

  lemma MetContinues(s: State, packet: Incoming, now: nat, victim: SessionKey, floor: Option<nat>)
    requires Inv(s) && Numbered(packet) && Legal(s, Arrive(packet, now, victim))
    requires InStep(floor, KeyOf(packet), s.sessions)
    ensures
      var f, p := Floor(floor, Met(s, packet, now, victim).rel, KeyOf(packet)), Met(s, packet, now, victim);
      f.Some? && f.value <= p.session.next
  {
    var key, counter := KeyOf(packet), CounterOf(packet);
    RoomKeepsInv(s, key, victim);
    if key in s.sessions {
      PushContinues(key, s.sessions[key], packet, counter, now, InOrder);
      assert FloorWithin(floor.value, Met(s, packet, now, victim).rel, key, Met(s, packet, now, victim).session.next);
    } else {
      FirstPacketStarts(packet, now);
      assert Floor(floor, [Release(packet, Started)], key) == Some(counter + 1);
    }
  }

  lemma PushStaysOrdered(log: seq<Release>, s: State, packet: Incoming, now: nat, victim: SessionKey)
    requires Inv(s) && Numbered(packet) && Legal(s, Arrive(packet, now, victim)) && Ordered(log, s.sessions)
    ensures
      var o := PushNumbered(s, packet, now, victim);
      Ordered(log + o.rel, o.state.sessions)
  {
    var o := PushNumbered(s, packet, now, victim);
    PushNumberedIs(s, packet, now, victim);
    MetIsOwn(s, packet, now, victim);
    forall key
      ensures InStep(Floor(Some(0), log + o.rel, key), key, o.state.sessions)
    {
      FloorOfConcat(Some(0), log, o.rel, key);
      assert InStep(Floor(Some(0), log, key), key, s.sessions);
      if key == KeyOf(packet) {
        MetContinues(s, packet, now, victim, Floor(Some(0), log, key));
      } else {
        FloorOfOthers(Floor(Some(0), log, key), o.rel, key);
      }
    }
  }

  lemma ExpireStaysOrdered(log: seq<Release>, s: State, now: nat, k: SessionKey)
    requires Inv(s) && k in s.sessions && Ordered(log, s.sessions)
    ensures
      var o := ExpireOne(s, now, k);
      Ordered(log + o.rel, o.state.sessions)
  {
    var o, session := ExpireOne(s, now, k), s.sessions[k];
    var r := SessionExpire(session, s.pace.wait, now);
    ExpireConserves(k, session, s.pace.wait, now);
    PacketsOfTag(r.1, TimedOut);
    OwnPackets(session.held.at, multiset(HeldPackets(r.0.held.at)), multiset{}, o.rel, k);
    ExpireContinues(k, session, s.pace.wait, now);
    forall key
      ensures InStep(Floor(Some(0), log + o.rel, key), key, o.state.sessions)
    {
      FloorOfConcat(Some(0), log, o.rel, key);
      assert InStep(Floor(Some(0), log, key), key, s.sessions);
      if key == k {
        assert FloorWithin(Floor(Some(0), log, key).value, o.rel, k, r.0.next);
      } else {
        FloorOfOthers(Floor(Some(0), log, key), o.rel, key);
      }
    }
  }

  lemma StepStaysOrdered(log: seq<Release>, s: State, e: Event)
    requires Inv(s) && Legal(s, e) && Ordered(log, s.sessions)
    ensures Ordered(log + Step(s, e).rel, Step(s, e).state.sessions)
  {
    match e
    case Arrive(packet, now, victim) =>
      if Numbered(packet) {
        PushStaysOrdered(log, s, packet, now, victim);
      } else {
        forall key
          ensures InStep(Floor(Some(0), log + [Release(packet, Plain)], key), key, s.sessions)
        {
          FloorOfConcat(Some(0), log, [Release(packet, Plain)], key);
          FloorOfOthers(Floor(Some(0), log, key), [Release(packet, Plain)], key);
          assert InStep(Floor(Some(0), log, key), key, s.sessions);
        }
      }
    case Expire(now, key) =>
      if key in s.sessions {
        ExpireStaysOrdered(log, s, now, key);
      } else {
        assert log + Step(s, e).rel == log;
      }
  }

  /** No packet of session `key` opens a new numbering at the positions after `i` up to `j`. */
  ghost predicate OneNumbering(log: seq<Release>, key: SessionKey, i: int, j: int) {
    forall m | 0 <= m < |log| && i < m <= j :: InStream(log[m], key) ==> !StartsNumbering(log[m])
  }

  /** A floor that is still there at the end bounds every packet of the last numbering. */
  lemma {:induction false} FloorBoundsStream(floor: nat, log: seq<Release>, key: SessionKey, i: nat)
    requires Floor(Some(floor), log, key).Some?
    requires i < |log| && InStream(log[i], key) && OneNumbering(log, key, i, |log| - 1)
    ensures CounterOf(log[i].packet) < Floor(Some(floor), log, key).value
    decreases |log|
  {
    var last := |log| - 1;
    assert log == log[..last] + [log[last]];
    FloorOfConcat(Some(floor), log[..last], [log[last]], key);
    if i < last {
      forall m | 0 <= m < last && i < m <= last - 1
        ensures InStream(log[..last][m], key) ==> !StartsNumbering(log[..last][m])
      {
        assert log[..last][m] == log[m];
      }
      FloorBoundsStream(floor, log[..last], key, i);
    }
  }

  /**
   Within one numbering of a session the packets handed on, other than late ones, have strictly
   increasing numbers.
   */
  lemma StreamIncreases(log: seq<Release>, m: Sessions, key: SessionKey, i: nat, j: nat)
    requires Ordered(log, m)
    requires i < j < |log| && InStream(log[i], key) && InStream(log[j], key) && OneNumbering(log, key, i, j)
    ensures CounterOf(log[i].packet) < CounterOf(log[j].packet)
  {
    assert InStep(Floor(Some(0), log, key), key, m);
    assert log == log[..j] + log[j..] && log[j..] == [log[j]] + log[j + 1..];
    FloorOfConcat(Some(0), log[..j], log[j..], key);
    FloorOfConcat(Floor(Some(0), log[..j], key), [log[j]], log[j + 1..], key);
    FloorOfNone(log[j..], key);
    FloorOfNone(log[j + 1..], key);
    forall n | 0 <= n < j && i < n <= j - 1
      ensures InStream(log[..j][n], key) ==> !StartsNumbering(log[..j][n])
    {
      assert log[..j][n] == log[n];
    }
    FloorBoundsStream(0, log[..j], key, i);
  }

  lemma {:induction false} FloorOfNone(rel: seq<Release>, key: SessionKey)
    ensures Floor(None, rel, key) == None
    decreases |rel|
  {
    if rel != [] {
      FloorOfNone(rel[1..], key);
    }
  }
}
