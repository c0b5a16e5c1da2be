/** `reorder::Session` and `reorder::Resequencer`, updated in place, against their specification. */
module Resequencers {
  import opened Prelude
  import opened Packets
  import opened HeldRings
  import opened Lateness
  import opened ReorderSpec
  import opened ReorderRuns
  import opened ReorderHistory

  /** A drain that has handed on `done` already. */
  ghost function Rest(d: Drained, done: seq<Incoming>): Drained {
    d.(packets := done + d.packets)
  }

  /** One turn of the release loop: it ends, or hands on one packet and leaves the same rest to do. */
  lemma DrainStep(next: nat, held: HeldMap, done: seq<Incoming>)
    ensures next !in held.at ==> Drain(next, held) == Drained(next, held, [])
    ensures next in held.at ==>
              && |held.Remove(next).at| < |held.at|
              && Rest(Drain(next, held), done)
                 == Rest(Drain(next + 1, held.Remove(next)), done + [held.at[next].packet])
  {
    if next in held.at {
      CardinalityOfRemove(held.at, next);
      var p, rest := held.at[next].packet, Drain(next + 1, held.Remove(next)).packets;
      assert done + ([p] + rest) == (done + [p]) + rest;
    }
  }

  /** How one step of a session changes the counters. */
  ghost function StatsAfter(st: Stats, p: Pushed): Stats {
    var counted := Tally(st, p.rel);
    counted.(maxHeld := if p.rel == [] then Max(counted.maxHeld, |p.session.held.at|) else counted.maxHeld)
  }

  /** `all` and `stats` are what a step leaves when it started with `out` and `counters`. */
  ghost predicate Hands(p: Pushed, out: seq<Incoming>, counters: Stats, all: seq<Incoming>, stats: Stats) {
    all == out + PacketsOf(p.rel) && stats == StatsAfter(counters, p)
  }

  lemma FlushHands(s: SessionState, packet: Incoming, counter: nat, out: seq<Incoming>, st: Stats)
    ensures
      var forced := st.(forced := st.forced + |Flushed(s.held.at)|);
      var all := (out + Flushed(s.held.at)) + [packet];
      && Hands(JumpTo(s, packet, counter), out, st, all, forced)
      && Hands(Renumber(s, packet, counter), out, st, all, forced.(inOrder := st.inOrder + 1))
  {
    var flushed := Tag(Flushed(s.held.at), Forced);
    PacketsOfTag(Flushed(s.held.at), Forced);
    TallyOfTag(st, Flushed(s.held.at), Forced);
    LastHands(flushed, packet, Jumped, st);
    LastHands(flushed, packet, Renumbered, st);
  }

  lemma LastHands(rel: seq<Release>, packet: Incoming, why: Why, st: Stats)
    ensures PacketsOf(rel + [Release(packet, why)]) == PacketsOf(rel) + [packet]
    ensures Tally(st, rel + [Release(packet, why)]) == Count(Tally(st, rel), why)
  {
    hide Tally, Count;
    TallyOfConcat(st, rel, [Release(packet, why)]);
    TallyOfOne(Tally(st, rel), packet, why);
    PacketsOfConcat(rel, [Release(packet, why)]);
  }

  lemma PassInOrderHands(s: SessionState, packet: Incoming, counter: nat, first: Why, out: seq<Incoming>, st: Stats)
    requires first == InOrder || first == Started
    ensures
      var packets := Drain(counter + 1, s.held).packets;
      Hands(PassInOrder(s, packet, counter, first), out, st, (out + [packet]) + packets,
            st.(inOrder := st.inOrder + 1, reordered := st.reordered + |packets|))
  {
    var packets := Drain(counter + 1, s.held).packets;
    PacketsOfTag(packets, Reordered);
    PacketsOfConcat([Release(packet, first)], Tag(packets, Reordered));
    TallyOfConcat(st, [Release(packet, first)], Tag(packets, Reordered));
    TallyOfOne(st, packet, first);
    TallyOfTag(Count(st, first), packets, Reordered);
    assert PacketsOf([Release(packet, first)]) == [packet];
  }

  lemma PassLateHands(s: SessionState, packet: Incoming, counter: nat, out: seq<Incoming>, st: Stats)
    ensures Hands(PassLate(s, packet, counter), out, st, out + [packet], st.(late := st.late + 1))
  {
    TallyOfOne(st, packet, Late);
    assert PacketsOf([Release(packet, Late)]) == [packet];
  }

  lemma HoldBackHands(s: SessionState, packet: Incoming, counter: nat, now: nat, out: seq<Incoming>, st: Stats)
    ensures Hands(HoldBack(s, packet, counter, now), out, st, out,
                  st.(maxHeld := Max(st.maxHeld, |s.held.Insert(counter, Held(packet, now)).at|)))
  {
    assert PacketsOf(HoldBack(s, packet, counter, now).rel) == [];
  }

  class Session {
    var next: nat
    const held: HeldRing
    var lastSeen: nat
    var skipped: map<nat, nat>

    ghost var repr: set<object>
    ghost var value: SessionState

    ghost predicate Intact()
      reads this, repr
    {
      this in repr && held in repr && repr == {this, held, held.slots} && held.Valid()
    }

    ghost function Current(): SessionState
      reads this, held
    {
      SessionState(next, held.model, lastSeen, skipped)
    }

    /** Between calls `value` is what the session holds. */
    ghost predicate Valid()
      reads this, repr
      ensures Valid() ==> this in repr && value.lastSeen == lastSeen && value.held.oldest == held.oldest
    {
      Intact() && value == Current()
    }

    constructor (counter: nat, now: nat)
      ensures Valid() && fresh(repr)
      ensures value == SessionState(counter, EMPTY, now, map[])
    {
      next, lastSeen, skipped := counter, now, map[];
      held := new HeldRing();
      value := SessionState(counter, EMPTY, now, map[]);
      new;
      repr := {this, held, held.slots};
    }

    /** Hands on the held packets that follow from `next` without a gap. */
    method Drain(out: seq<Incoming>) returns (all: seq<Incoming>)
      requires Intact()
      modifies this`next, held, held.slots
      ensures Intact() && repr == old(repr)
      ensures
        var d := ReorderSpec.Drain(old(next), old(held.model));
        next == d.next && held.model == d.held && all == out + d.packets
    {
      hide ReorderSpec.Drain, HeldMap.Remove;
      all := out;
      while true
        invariant Intact() && repr == old(repr)
        invariant Rest(ReorderSpec.Drain(next, held.model), all)
                  == Rest(ReorderSpec.Drain(old(next), old(held.model)), out)
        decreases |held.model.at|
      {
        ghost var before, from := held.model, next;
        var h := held.Remove(next);
        DrainStep(from, before, all);
        if h.None? {
          break;
        }
        all := all + [h.value.packet];
        next := next + 1;
      }
    }

    /** Skips the gap: hands on the lowest held packet and all that follow it without a gap. */
    method ReleaseLowest(out: seq<Incoming>) returns (all: seq<Incoming>)
      requires Intact() && held.model.at != map[]
      modifies this`next, held, held.slots
      ensures Intact() && repr == old(repr)
      ensures
        var d := ReorderSpec.Drain(Lowest(old(held.model.at)), old(held.model));
        next == d.next && held.model == d.held && all == out + d.packets
    {
      var lowest := held.First();
      next := lowest.value;
      all := Drain(out);
    }

    /** Hands on everything held, by ascending counter. */
    method Flush(out: seq<Incoming>) returns (all: seq<Incoming>)
      requires Intact()
      modifies held, held.slots
      ensures Intact() && repr == old(repr)
      ensures held.model == EMPTY && all == out + Flushed(old(held.model.at))
    {
      hide HeldRing.Valid;
      all := out;
      var lowest := held.First();
      while lowest.Some?
        invariant Intact() && repr == old(repr)
        invariant lowest == if held.model.at == map[] then None else Some(Lowest(held.model.at))
        invariant all + Flushed(held.model.at) == out + Flushed(old(held.model.at))
        decreases |held.model.at|
      {
        ghost var at := held.model.at;
        CardinalityOfRemove(at, lowest.value);
        var h := held.Remove(lowest.value);
        all := all + [h.value.packet];
        lowest := held.First();
      }
    }

    /** The sender started numbering anew: hands on what is held and begins again at `counter`. */
    method StartAnew(packet: Incoming, counter: nat, out: seq<Incoming>, counters: Stats)
      returns (all: seq<Incoming>, stats: Stats)
      requires Intact()
      modifies this`next, this`skipped, held, held.slots
      ensures Intact() && repr == old(repr)
      ensures
        var p := Renumber(old(Current()), packet, counter);
        && Current() == p.session && Hands(p, out, counters, all, stats) && p.noticed == None
    {
      FlushHands(Current(), packet, counter, out, counters);
      all := Flush(out);
      stats := counters.(forced := counters.forced + (|all| - |out|), inOrder := counters.inOrder + 1);
      skipped := map[];
      next := counter + 1;
      all := all + [packet];
    }

    /** A packet behind its place goes on at once. */
    method HandOnLate(packet: Incoming, counter: nat, out: seq<Incoming>, counters: Stats)
      returns (all: seq<Incoming>, stats: Stats, noticed: Option<nat>)
      requires Intact()
      modifies this`skipped
      ensures Intact() && repr == old(repr)
      ensures
        var p := ReorderSpec.PassLate(old(Current()), packet, counter);
        && Current() == p.session && Hands(p, out, counters, all, stats)
        && noticed == p.noticed
    {
      PassLateHands(Current(), packet, counter, out, counters);
      stats := counters.(late := counters.late + 1);
      noticed := if counter in skipped then Some(skipped[counter]) else None;
      skipped := skipped - {counter};
      all := out + [packet];
    }

    /** The expected packet goes on, with the held packets that follow it. */
    method HandOnNext(packet: Incoming, ghost first: Why, out: seq<Incoming>, counters: Stats)
      returns (all: seq<Incoming>, stats: Stats, noticed: Option<nat>)
      requires Intact()
      requires first == InOrder || first == Started
      modifies this`next, held, held.slots
      ensures Intact() && repr == old(repr)
      ensures
        var p := PassInOrder(old(Current()), packet, old(next), first);
        && Current() == p.session && Hands(p, out, counters, all, stats)
        && noticed == p.noticed
    {
      hide Hands, HeldRing.Valid, ReorderSpec.Drain;
      PassInOrderHands(Current(), packet, next, first, out, counters);
      noticed := held.oldest;
      next := next + 1;
      all := Drain(out + [packet]);
      var released := |all| - |out + [packet]|;
      stats := counters.(inOrder := counters.inOrder + 1, reordered := counters.reordered + released);
    }

    /** The session went far ahead: hands on what is held and goes on from `counter`. */
    method JumpAhead(packet: Incoming, counter: nat, out: seq<Incoming>, counters: Stats)
      returns (all: seq<Incoming>, stats: Stats)
      requires Intact()
      modifies this`next, held, held.slots
      ensures Intact() && repr == old(repr)
      ensures
        var p := JumpTo(old(Current()), packet, counter);
        && Current() == p.session && Hands(p, out, counters, all, stats) && p.noticed == None
    {
      FlushHands(Current(), packet, counter, out, counters);
      all := Flush(out);
      stats := counters.(forced := counters.forced + (|all| - |out|));
      all := all + [packet];
      next := counter + 1;
    }

    /** A packet ahead of its place is held back. */
    method Keep(packet: Incoming, counter: nat, now: nat, out: seq<Incoming>, counters: Stats)
      returns (all: seq<Incoming>, stats: Stats)
      requires Intact() && Reaches(held.model.at, counter)
      modifies this`repr, held, held.slots
      ensures Intact() && fresh(repr - old(repr))
      ensures
        var p := HoldBack(old(Current()), packet, counter, now);
        && Current() == p.session && Hands(p, out, counters, all, stats) && p.noticed == None
    {
      HoldBackHands(Current(), packet, counter, now, out, counters);
      held.Insert(counter, Held(packet, now));
      repr := {this, held, held.slots};
      stats := counters.(maxHeld := Max(counters.maxHeld, held.count));
      all := out;
    }

    /** The part of `push_into` that concerns the session of the packet. */
    method Push(packet: Incoming, counter: nat, now: nat, out: seq<Incoming>, counters: Stats,
                ghost key: SessionKey, ghost first: Why)
      returns (all: seq<Incoming>, stats: Stats, noticed: Option<nat>)
      requires Valid() && SessionInv(key, value)
      requires first == InOrder || first == Started
      modifies repr
      ensures Valid() && fresh(repr - old(repr))
      ensures
        var p := SessionPush(old(value), packet, counter, now, first);
        value == p.session && noticed == p.noticed && Hands(p, out, counters, all, stats)
    {
      hide Hands, HeldRing.Valid, Renumber, PassLate, PassInOrder, JumpTo, HoldBack,
           HeldMap.WellFormed, SkippedInv, AllCarry;
      var idle := Minus(now, lastSeen);
      lastSeen := now;
      noticed := None;
      if counter < next && (next - counter > MAX_GAP || idle >= IDLE_RESET) {
        all, stats := StartAnew(packet, counter, out, counters);
      } else if counter < next {
        all, stats, noticed := HandOnLate(packet, counter, out, counters);
      } else if counter == next {
        all, stats, noticed := HandOnNext(packet, first, out, counters);
      } else if counter - next > MAX_GAP {
        all, stats := JumpAhead(packet, counter, out, counters);
      } else {
        all, stats := Keep(packet, counter, now, out, counters);
      }
      value := Current();
    }

    /** Remembers the numbers of the gap below `lowest`, noticed at `noticed`. */
    method Mark(lowest: nat, noticed: nat)
      requires next <= lowest
      modifies this`skipped
      ensures skipped == MarkSkipped(old(Current()), lowest, noticed)
    {
      if |skipped| + (lowest - next) > MAX_SKIPPED {
        skipped := map[];
      }
      var to := Min(lowest, next + MAX_SKIPPED);
      ghost var kept := skipped;
      for c := next to to
        invariant Marked(skipped, c, to, noticed) == Marked(kept, next, to, noticed)
      {
        skipped := skipped[c := noticed];
      }
    }

    /** Gives up on the gap in front of the lowest held packet. */
    method GiveUpOnGap(out: seq<Incoming>, ghost key: SessionKey) returns (all: seq<Incoming>)
      requires Intact() && SessionInv(key, Current()) && held.oldest.Some?
      modifies repr
      ensures Intact() && repr == old(repr) && SessionInv(key, Current())
      ensures Current() == SkipGap(old(Current())).0 && all == out + SkipGap(old(Current())).1
    {
      hide SessionInv, SkipGap, MarkSkipped, ReorderSpec.Drain;
      SkipGapKeepsInv(key, Current());
      SkipGapIs(key, Current());
      var lowest := held.First();
      Mark(lowest.value, held.oldest.value);
      all := ReleaseLowest(out);
    }

    /** The part of `expire_into` that concerns one session. */
    method Expire(wait: nat, now: nat, out: seq<Incoming>, ghost key: SessionKey) returns (all: seq<Incoming>)
      requires Valid() && SessionInv(key, value)
      modifies repr
      ensures Valid() && repr == old(repr)
      ensures value == SessionExpire(old(value), wait, now).0
      ensures all == out + SessionExpire(old(value), wait, now).1
    {
      all := out;
      while held.oldest.Some? && held.oldest.value + wait <= now
        invariant Intact() && repr == old(repr) && SessionInv(key, Current())
        invariant Ahead(SessionExpire(Current(), wait, now), all) == Ahead(SessionExpire(old(value), wait, now), out)
        decreases |held.model.at|
      {
        ghost var s, done := Current(), all;
        all := GiveUpOnGap(all, key);
        AheadOfGap(s, wait, now, done);
      }
      value := Current();
    }
  }

  lemma SkipGapIs(key: SessionKey, s: SessionState)
    requires SessionInv(key, s) && s.held.oldest.Some?
    ensures s.held.at != map[] && s.next <= Lowest(s.held.at)
    ensures
      var lowest := Lowest(s.held.at);
      var d := Drain(lowest, s.held);
      SkipGap(s)
      == (s.(next := d.next, held := d.held, skipped := MarkSkipped(s, lowest, s.held.oldest.value)), d.packets)
  {
    hide Drain, MarkSkipped;
  }

  /** An expiry that has handed on `done` already. */
  ghost function Ahead(r: (SessionState, seq<Incoming>), done: seq<Incoming>): (SessionState, seq<Incoming>) {
    (r.0, done + r.1)
  }

  lemma AheadOfGap(s: SessionState, wait: nat, now: nat, done: seq<Incoming>)
    requires s.held.WellFormed() && Due(s, wait, now)
    ensures
      Ahead(SessionExpire(s, wait, now), done)
      == Ahead(SessionExpire(SkipGap(s).0, wait, now), done + SkipGap(s).1)
  {
    hide ReorderSpec.SkipGap;
    var r, e := SkipGap(s), SessionExpire(SkipGap(s).0, wait, now);
    assert done + (r.1 + e.1) == (done + r.1) + e.1;
  }

  // ---------------------------------------------------------------- all sessions

  lemma FewerSessions(m: Sessions, key: SessionKey)
    requires SessionsInv(m)
    ensures SessionsInv(m - {key}) && (m - {key}).Keys == m.Keys - {key} && |m - {key}| <= |m|
  {
    hide SessionInv;
    assert (m - {key}).Keys == m.Keys - {key};
    assert |(m - {key}).Keys| <= |m.Keys|;
  }

  /** The outcome of a push, put together from what its parts do. */
  lemma Assembled(s: State, packet: Incoming, now: nat, victim: SessionKey, out: seq<Incoming>, all: seq<Incoming>,
                  counted: Stats, t: State)
    requires Numbered(packet)
    requires
      var key := KeyOf(packet);
      var p := Met(s, packet, now, victim);
      && Hands(p, out, s.stats, all, counted)
      && t.sessions == MakeRoom(s, key, victim).sessions[key := p.session]
      && t.pace == (if p.noticed.Some? then RecordLateness(s.pace, Minus(now, p.noticed.value)) else s.pace)
      && t.stats == counted.(waitMs := if t.pace.wait != s.pace.wait then t.pace.wait / 1_000_000 else counted.waitMs)
    ensures
      var o := ReorderSpec.PushNumbered(s, packet, now, victim);
      t == o.state && all == out + PacketsOf(o.rel)
  {
    hide SessionPush, Tally, RecordLateness;
  }

  /** The outcome of one session's expiry, put together from what its parts do. */
  lemma ExpiredOne(s: State, now: nat, key: SessionKey, out: seq<Incoming>, all: seq<Incoming>)
    requires AllWellFormed(s) && key in s.sessions && all == out + SessionExpire(s.sessions[key], s.pace.wait, now).1
    ensures
      var r := SessionExpire(s.sessions[key], s.pace.wait, now);
      var o := ExpireOne(s, now, key);
      && all == out + PacketsOf(o.rel)
      && o.state == State(s.pace, s.sessions[key := r.0],
                          s.stats.(timedOut := s.stats.timedOut + (|all| - |out|)))
  {
    hide SessionExpire, Tally;
    var r := SessionExpire(s.sessions[key], s.pace.wait, now);
    TallyOfTag(s.stats, r.1, TimedOut);
    PacketsOfTag(r.1, TimedOut);
  }

  class Resequencer {
    var wait: nat
    var adaptive: bool
    var lateness: seq<nat>
    var latenessPos: Position
    var sinceRecalc: nat
    var sessions: map<SessionKey, Session>
    var stats: Stats
    ghost var value: Sessions
    ghost var repr: set<object>

    /** The session of `k` is a valid object of its own, and holds what `value` says. */
    ghost predicate Member(k: SessionKey)
      reads this, repr
      requires k in sessions && k in value
    {
      var session := sessions[k];
      && session in repr && session.repr <= repr && this !in session.repr
      && session.Valid() && session.value == value[k]
    }

    ghost predicate Valid()
      reads this, repr
    {
      && this in repr
      && value.Keys == sessions.Keys
      && (forall k | k in sessions :: Member(k))
      && (forall j, k | j in sessions && k in sessions && j != k :: sessions[j].repr !! sessions[k].repr)
      && SessionsInv(value)
      && |value| <= MAX_SESSIONS
    }

    lemma KeyFacts()
      requires Valid()
      ensures this in repr && value.Keys == sessions.Keys && |value| == |sessions| <= MAX_SESSIONS
    {
      hide Session.Valid, SessionInv, Member;
      assert |value.Keys| == |sessions.Keys|;
    }

    lemma MemberFacts(key: SessionKey)
      requires Valid() && key in sessions
      ensures
        var session := sessions[key];
        && this in repr && session in repr && session.repr <= repr && this !in session.repr
        && session.Valid() && key in value && session.value == value[key] && SessionInv(key, session.value)
    {
      hide Session.Valid, SessionInv;
      assert Member(key);
    }

    /** Of `all`, at most this object and those of `changing` have changed. */
    twostate predicate Untouched(all: set<object>, changing: set<object?>)
      reads all
    {
      forall o | o in all && o != this && o !in changing :: unchanged(o)
    }

    /** The session of `k` is the same object as before, with the same `value`, and none of it is in `changing`. */
    twostate predicate SameSession(k: SessionKey, changing: set<object?>)
      reads this
    {
      && k in old(sessions) && k in sessions && k in old(value) && k in value
      && sessions[k] == old(sessions)[k] && value[k] == old(value)[k] && old(sessions[k].repr) !! changing
    }

    ghost predicate IntactMember(k: SessionKey, all: set<object>, footprint: set<object>)
      reads this, repr
    {
      k in sessions && k in value && Member(k) && sessions[k].repr == footprint && footprint <= all
    }

    /** Sessions none of whose objects changed are members still. */
    twostate lemma OthersStay(new keys: set<SessionKey>, changing: set<object?>)
      requires old(Valid()) && old(repr) <= repr && Untouched(old(repr), changing)
      requires forall k | k in keys :: SameSession(k, changing)
      ensures forall k | k in keys :: k in old(sessions) && IntactMember(k, old(repr), old(sessions[k].repr))
    {
      hide Session.Valid, SessionInv;
      forall k | k in keys
        ensures IntactMember(k, old(repr), old(sessions[k].repr))
      {
        assert SameSession(k, changing);
        assert old(Member(k));
        assert unchanged(sessions[k]);
      }
    }

    /** The session of `key` is in a valid state, and `value` is `before` with its new content. */
    ghost predicate Replaced(key: SessionKey, before: Sessions)
      reads this, repr
    {
      && key in sessions && sessions[key] in repr && sessions[key].repr <= repr && this !in sessions[key].repr
      && sessions[key].Valid() && SessionInv(key, sessions[key].value)
      && value == before[key := sessions[key].value]
    }

    lemma ReplacedFacts(key: SessionKey, before: Sessions)
      requires Replaced(key, before) && SessionsInv(before) && before.Keys + {key} == sessions.Keys
      ensures key in value && Member(key) && SessionsInv(value) && value.Keys == sessions.Keys
    {
      hide Session.Valid, SessionInv;
    }

    /** Only the session of `key` changed, from a valid state to a valid state of its own. */
    twostate lemma OneSessionChanged(key: SessionKey)
      requires old(Valid()) && sessions == old(sessions) && old(repr) <= repr && key in sessions
      requires Replaced(key, old(value))
      requires fresh(sessions[key].repr - old(sessions[key].repr))
      requires Untouched(old(repr), old(sessions[key].repr))
      ensures Valid()
    {
      hide Session.Valid, SessionInv, Member, SessionsInv;
      ReplacedFacts(key, old(value));
      assert value.Keys == old(value).Keys;
      OthersStay(sessions.Keys - {key}, old(sessions[key].repr));
    }

    /** A new session of `key` was added. */
    twostate lemma OneSessionMore(key: SessionKey)
      requires old(Valid()) && key !in old(sessions) && |old(value)| < MAX_SESSIONS && Untouched(old(repr), {})
      requires key in sessions && sessions == old(sessions)[key := sessions[key]] && old(repr) <= repr
      requires Replaced(key, old(value)) && fresh(sessions[key].repr)
      ensures Valid()
    {
      hide Session.Valid, SessionInv, Member, SessionsInv;
      ReplacedFacts(key, old(value));
      assert value.Keys == old(value).Keys + {key};
      OthersStay(sessions.Keys - {key}, {});
    }

    /** Only the wait and the counters changed. */
    twostate lemma NoSessionChanged()
      requires old(Valid()) && repr == old(repr) && Untouched(repr, {})
      requires sessions == old(sessions) && value == old(value)
      ensures Valid()
    {
      hide Session.Valid, SessionInv, Member;
      OthersStay(sessions.Keys, {});
    }

    /** The session of `key` was removed. */
    twostate lemma OneSessionGone(key: SessionKey)
      requires old(Valid()) && repr == old(repr) && Untouched(repr, {})
      requires sessions == old(sessions) - {key} && value == old(value) - {key}
      ensures Valid()
    {
      hide Session.Valid, SessionInv, Member, SessionsInv;
      FewerSessions(old(value), key);
      OthersStay(sessions.Keys, {});
    }

    ghost function PaceNow(): Pace
      reads this
    {
      Pace(wait, adaptive, lateness, latenessPos, sinceRecalc)
    }

    ghost function Value(): (s: State)
      reads this
    {
      State(PaceNow(), value, stats)
    }

    constructor Fixed(wait: nat)
      ensures Valid() && fresh(repr)
      ensures Value() == State(FixedPace(wait), map[], NO_STATS.(waitMs := wait / 1_000_000))
    {
      this.wait, adaptive, lateness, latenessPos, sinceRecalc := wait, false, [], 0, 0;
      sessions, stats := map[], NO_STATS.(waitMs := wait / 1_000_000);
      value, repr := map[], {this};
    }

    constructor Adaptive(initial: nat)
      ensures Valid() && fresh(repr)
      ensures Value() ==
              State(AdaptivePace(initial), map[], NO_STATS.(waitMs := AdaptivePace(initial).wait / 1_000_000))
    {
      wait, adaptive, lateness, latenessPos, sinceRecalc := Clamp(initial, MIN_WAIT, MAX_WAIT), true, [], 0, 0;
      sessions, stats := map[], NO_STATS.(waitMs := Clamp(initial, MIN_WAIT, MAX_WAIT) / 1_000_000);
      value, repr := map[], {this};
    }

    method Record(sample: nat)
      modifies this`wait, this`lateness, this`latenessPos, this`sinceRecalc, this`stats
      ensures PaceNow() == RecordLateness(old(PaceNow()), sample)
      ensures stats == old(stats).(waitMs := if wait != old(wait) then wait / 1_000_000 else old(stats.waitMs))
    {
      if !adaptive {
        return;
      }
      if |lateness| < LATENESS_WINDOW {
        lateness := lateness + [sample];
      } else {
        lateness := lateness[latenessPos := sample];
        latenessPos := (latenessPos + 1) % LATENESS_WINDOW;
      }
      sinceRecalc := sinceRecalc + 1;
      if sinceRecalc >= RECALC_EVERY {
        sinceRecalc := 0;
        Recalc();
      }
    }

    method Recalc()
      requires lateness != []
      modifies this`wait, this`stats
      ensures wait == WaitFor(lateness)
      ensures stats == old(stats).(waitMs := if wait != old(wait) then wait / 1_000_000 else old(stats.waitMs))
    {
      var sorted := Sort(lateness);
      var p99 := sorted[P99Index(|sorted|)];
      var w := Clamp(p99 + p99 / 4, MIN_WAIT, MAX_WAIT);
      if w != wait {
        wait := w;
        stats := stats.(waitMs := w / 1_000_000);
      }
    }

    /** Drops a session that has been silent longest. */
    method Prune() returns (victim: SessionKey)
      requires Valid() && sessions != map[]
      modifies this`sessions, this`value
      ensures LeastRecent(old(value), victim)
      ensures Valid() && value == old(value) - {victim}
    {
      hide Valid, SessionInv;
      victim := Oldest();
      sessions, value := sessions - {victim}, value - {victim};
      OneSessionGone(victim);
    }

    /** A session that has been silent longest. */
    method Oldest() returns (victim: SessionKey)
      requires Valid() && sessions != map[]
      ensures LeastRecent(value, victim)
    {
      hide Valid, Session.Valid;
      KeyFacts();
      victim :| victim in sessions;
      var keys := sessions.Keys;
      while keys != {}
        invariant keys <= sessions.Keys && victim in sessions
        invariant forall k | k in sessions && k !in keys :: value[victim].lastSeen <= value[k].lastSeen
        decreases |keys|
      {
        var k :| k in keys;
        MemberFacts(k);
        MemberFacts(victim);
        if sessions[k].lastSeen < sessions[victim].lastSeen {
          victim := k;
        }
        keys := keys - {k};
      }
    }

    /** Hands on what can go on now that `packet` is here; `victim` is the session pruned, if any. */
    method PushInto(packet: Incoming, now: nat, out: seq<Incoming>)
      returns (all: seq<Incoming>, ghost victim: SessionKey)
      requires Valid()
      modifies repr
      ensures Valid() && fresh(repr - old(repr))
      ensures Legal(old(Value()), Arrive(packet, now, victim))
      ensures
        var o := Push(old(Value()), packet, now, victim);
        Value() == o.state && all == out + PacketsOf(o.rel)
    {
      hide Valid, SessionInv, SessionPush, Tally;
      KeyFacts();
      victim := Flow(0);
      if packet.order.None? {
        stats := stats.(passthrough := stats.passthrough + 1);
        all := out + [packet];
        NoSessionChanged();
        TallyOfOne(old(stats), packet, Plain);
        assert PacketsOf([Release(packet, Plain)]) == [packet];
        return;
      }
      all, victim := PushNumbered(packet, now, out);
    }

    method PushNumbered(packet: Incoming, now: nat, out: seq<Incoming>)
      returns (all: seq<Incoming>, ghost victim: SessionKey)
      requires Valid() && Numbered(packet)
      modifies repr
      ensures Valid() && fresh(repr - old(repr))
      ensures Legal(old(Value()), Arrive(packet, now, victim))
      ensures
        var o := ReorderSpec.PushNumbered(old(Value()), packet, now, victim);
        Value() == o.state && all == out + PacketsOf(o.rel)
    {
      hide Valid, SessionInv, SessionsInv, SessionPush, Tally, RecordLateness, SessionFor, MakeRoom, LeastRecent, Hands,
           PacketsOf, ReorderSpec.PushNumbered, Minus;
      KeyFacts();
      var key, counter := KeyOf(packet), CounterOf(packet);
      ghost var first := if key in sessions then InOrder else Started;
      victim := Room(key);
      Enter(key, counter, now);
      var noticed;
      all, noticed := PushTo(key, packet, counter, now, out, first);
      ghost var counted := stats;
      Notice(noticed, now);
      Assembled(old(Value()), packet, now, victim, out, all, counted, Value());
    }

    /** Records how late the packet was, if one was waiting for it. */
    method Notice(noticed: Option<nat>, now: nat)
      requires Valid()
      modifies this
      ensures Valid() && repr == old(repr) && value == old(value)
      ensures
        PaceNow() == if noticed.Some? then RecordLateness(old(PaceNow()), Minus(now, noticed.value))
        else old(PaceNow())
      ensures stats == old(stats).(waitMs := if wait != old(wait) then wait / 1_000_000 else old(stats.waitMs))
    {
      hide Valid, RecordLateness, Minus;
      KeyFacts();
      if noticed.Some? {
        Record(Minus(now, noticed.value));
        NoSessionChanged();
      }
    }

    /** Room for a session of `key`: at the limit of sessions one is dropped. */
    method Room(key: SessionKey) returns (victim: SessionKey)
      requires Valid()
      modifies this`sessions, this`value
      ensures Valid() && (key in value || |value| < MAX_SESSIONS)
      ensures |old(value)| >= MAX_SESSIONS && key !in old(value) ==> LeastRecent(old(value), victim)
      ensures Value() == MakeRoom(old(Value()), key, victim) && (key in value <==> key in old(value))
    {
      hide Valid, SessionInv;
      KeyFacts();
      victim := key;
      if |sessions| >= MAX_SESSIONS && key !in sessions {
        victim := Prune();
        assert value.Keys == old(value).Keys - {victim};
      }
    }

    /** The session of `key`, opened if there is none. */
    method Enter(key: SessionKey, counter: nat, now: nat)
      requires Valid() && (key in value || |value| < MAX_SESSIONS)
      modifies this`sessions, this`value, this`repr
      ensures Valid() && fresh(repr - old(repr)) && key in sessions
      ensures value == old(value)[key := SessionFor(old(Value()), key, counter, now)]
    {
      hide Valid, Session.Valid;
      KeyFacts();
      if key in sessions {
        assert value[key := value[key]] == value;
      } else {
        var session := new Session(counter, now);
        sessions, value, repr := sessions[key := session], value[key := session.value], repr + session.repr;
        OneSessionMore(key);
      }
    }

    method PushTo(key: SessionKey, packet: Incoming, counter: nat, now: nat, out: seq<Incoming>, ghost first: Why)
      returns (all: seq<Incoming>, noticed: Option<nat>)
      requires Valid() && key in sessions && key in value && Carries(packet, key, counter)
      requires first == InOrder || first == Started
      modifies repr
      ensures Valid() && fresh(repr - old(repr)) && PaceNow() == old(PaceNow())
      ensures
        var p := SessionPush(old(value)[key], packet, counter, now, first);
        noticed == p.noticed && Hands(p, out, old(stats), all, stats) && value == old(value)[key := p.session]
    {
      hide Valid, Session.Valid, SessionInv, SessionPush, Hands;
      MemberFacts(key);
      var session := sessions[key];
      PushKeepsSessionInv(key, session.value, packet, counter, now, first);
      var st;
      all, st, noticed := session.Push(packet, counter, now, out, stats, key, first);
      stats := st;
      repr := repr + session.repr;
      value := value[key := session.value];
      OneSessionChanged(key);
    }

    /** The moment of the next expiry, for the timer. */
    method NextDeadline() returns (deadline: Option<nat>)
      requires Valid()
      ensures IsNextDeadline(Value(), deadline)
    {
      hide Valid, Session.Valid, SessionInv, HeldMap.WellFormed, HeldRing.Valid;
      KeyFacts();
      var keys := sessions.Keys;
      var earliest: Option<nat> := None;
      while keys != {}
        invariant keys <= sessions.Keys
        invariant earliest.Some? ==> exists k | k in value :: value[k].held.oldest == earliest
        invariant forall k | k in value && k !in keys && value[k].held.oldest.Some? ::
                    earliest.Some? && earliest.value <= value[k].held.oldest.value
        decreases |keys|
      {
        var k :| k in keys;
        MemberFacts(k);
        var oldest := sessions[k].held.oldest;
        if oldest.Some? && (earliest.None? || oldest.value < earliest.value) {
          earliest := oldest;
        }
        keys := keys - {k};
      }
      deadline := if earliest.Some? then Some(earliest.value + wait) else None;
      if earliest.Some? {
        ghost var k :| k in value && value[k].held.oldest == earliest;
        assert Due(Value().sessions[k], wait, deadline.value);
      }
    }

    lemma WellFormedFacts()
      requires Valid()
      ensures AllWellFormed(Value()) && value.Keys == sessions.Keys
    {
      hide Session.Valid, Member;
    }

    method ExpireMember(key: SessionKey, now: nat, out: seq<Incoming>) returns (all: seq<Incoming>)
      requires Valid() && key in sessions && key in value && value[key].held.WellFormed()
      modifies this`value, sessions[key].repr
      ensures Valid() && repr == old(repr)
      ensures
        var r := SessionExpire(old(value[key]), wait, now);
        value == old(value)[key := r.0] && all == out + r.1
    {
      hide Valid, Session.Valid, SessionInv, SessionExpire, HeldMap.WellFormed;
      KeyFacts();
      MemberFacts(key);
      var session := sessions[key];
      ExpireKeepsSessionInv(key, session.value, wait, now);
      all := session.Expire(wait, now, out, key);
      value := value[key := session.value];
      OneSessionChanged(key);
    }

    /** One session gives up on its overdue gaps. */
    method ExpireSession(key: SessionKey, now: nat, out: seq<Incoming>) returns (all: seq<Incoming>)
      requires Valid() && key in value && AllWellFormed(Value())
      modifies repr
      ensures Valid() && fresh(repr - old(repr)) && sessions == old(sessions)
      ensures
        var o := ExpireOne(old(Value()), now, key);
        Value() == o.state && all == out + PacketsOf(o.rel)
    {
      hide Valid, Session.Valid, SessionInv, SessionExpire, ExpireOne, PacketsOf, HeldMap.WellFormed;
      KeyFacts();
      MemberFacts(key);
      all := ExpireMember(key, now, out);
      label expired:
      stats := stats.(timedOut := stats.timedOut + (|all| - |out|));
      NoSessionChanged@expired();
      ExpiredOne(old(Value()), now, key, out, all);
    }

    /** Hands on the held packets whose missing ones did not come in time; `order` is the order of the sessions. */
    method ExpireInto(now: nat, out: seq<Incoming>) returns (all: seq<Incoming>, ghost order: seq<SessionKey>)
      requires Valid()
      modifies repr
      ensures Valid() && fresh(repr - old(repr))
      ensures AllWellFormed(old(Value())) && Distinct(order) && forall k :: k in order <==> k in old(value)
      ensures
        var o := ExpireAll(old(Value()), now, order);
        Value() == o.state && all == out + PacketsOf(o.rel)
      ensures forall k | k in value :: !Due(value[k], wait, now)
    {
      hide Valid, Session.Valid, SessionInv, ExpireOne, ExpireAll, PacketsOf, Due,
           ExpiredSoFar, Distinct, AllWellFormed;
      KeyFacts();
      WellFormedFacts();
      var keys := sessions.Keys;
      all, order := out, [];
      ghost var start := Value();
      ExpireNone(start, now, out);
      assert sessions.Keys - keys == {};
      while keys != {}
        invariant Valid() && fresh(repr - old(repr)) && keys <= sessions.Keys && sessions == old(sessions)
        invariant ExpiredSoFar(start, now, order, sessions.Keys - keys, out, Value(), all)
        decreases |keys|
      {
        var k :| k in keys;
        WellFormedFacts();
        ghost var before, done := Value(), all;
        all := ExpireSession(k, now, all);
        ExpireOneMore(start, now, order, sessions.Keys - keys, out, before, done, k);
        order := order + [k];
        assert sessions.Keys - keys + {k} == sessions.Keys - (keys - {k});
        keys := keys - {k};
      }
      KeyFacts();
      assert sessions.Keys - keys == sessions.Keys;
      NothingDue(start, now, order, out, Value(), all);
    }
  }

  /** The sessions of `done` have given up on their overdue gaps, in the order `order`. */
  ghost predicate ExpiredSoFar(s: State, now: nat, order: seq<SessionKey>, done: set<SessionKey>, out: seq<Incoming>,
                               t: State, all: seq<Incoming>) {
    && AllWellFormed(s) && Distinct(order) && done <= s.sessions.Keys
    && (forall k :: k in order <==> k in done)
    && t == ExpireAll(s, now, order).state
    && all == out + PacketsOf(ExpireAll(s, now, order).rel)
  }

  lemma ExpireNone(s: State, now: nat, out: seq<Incoming>)
    requires AllWellFormed(s)
    ensures ExpiredSoFar(s, now, [], {}, out, s, out)
  {
    assert out == out + PacketsOf(ExpireAll(s, now, []).rel);
  }

  lemma ExpireOneMore(s: State, now: nat, order: seq<SessionKey>, done: set<SessionKey>, out: seq<Incoming>,
                      t: State, all: seq<Incoming>, key: SessionKey)
    requires ExpiredSoFar(s, now, order, done, out, t, all)
    requires AllWellFormed(t) && key in t.sessions && key !in done
    ensures
      var o := ExpireOne(t, now, key);
      ExpiredSoFar(s, now, order + [key], done + {key}, out, o.state, all + PacketsOf(o.rel))
  {
    hide ExpireOne, PacketsOf, AllWellFormed, Distinct;
    assert (order + [key])[..|order + [key]| - 1] == order;
    DistinctMore(order, key);
    PacketsOfConcat(ExpireAll(s, now, order).rel, ExpireOne(t, now, key).rel);
  }

  lemma DistinctMore(order: seq<SessionKey>, key: SessionKey)
    requires Distinct(order) && key !in order
    ensures Distinct(order + [key])
  {
  }

  lemma NothingDue(s: State, now: nat, order: seq<SessionKey>, out: seq<Incoming>, t: State, all: seq<Incoming>)
    requires ExpiredSoFar(s, now, order, s.sessions.Keys, out, t, all)
    ensures AllWellFormed(s) && Distinct(order) && forall k :: k in order <==> k in s.sessions
    ensures t == ExpireAll(s, now, order).state && all == out + PacketsOf(ExpireAll(s, now, order).rel)
    ensures forall k | k in t.sessions :: !Due(t.sessions[k], t.pace.wait, now)
  {
    hide Due;
    forall k | k in t.sessions
      ensures !Due(t.sessions[k], t.pace.wait, now)
    {
      ExpireAllIsPerSession(s, now, order, k);
      ExpireLeavesNothingDue(s.sessions[k], s.pace.wait, now);
    }
  }
}
