/**
 Which gaps an expiry of a session gives up: exactly, in every state of the session, and when that is too early.
 */
module Expiry {
  import opened Prelude
  import opened Packets
  import opened HeldRings
  import opened ReorderSpec
  import opened ReorderRuns

  /** A packet was held when the expiry came, beyond `c`, and had waited long enough. */
  ghost predicate Overdue(s: SessionState, wait: nat, now: nat, c: nat) {
    exists h :: h in s.held.at && c < h && s.held.at[h].arrived + wait <= now
  }

  /** What is still held in `t` was held in `s` before, and what no longer is lies below the next number. */
  ghost predicate MovedOn(s: SessionState, t: SessionState) {
    && s.next <= t.next
    && (forall h | h in t.held.at :: h in s.held.at && t.held.at[h] == s.held.at[h])
    && (forall h | h in s.held.at && h !in t.held.at :: h < t.next)
  }

  lemma SkipGapMovesOn(key: SessionKey, s: SessionState)
    requires SessionInv(key, s) && s.held.oldest.Some?
    ensures SessionInv(key, SkipGap(s).0) && MovedOn(s, SkipGap(s).0)
    ensures forall c | c < SkipGap(s).0.next && s.next <= c && c !in s.held.at :: c < Lowest(s.held.at)
  {
    hide Drain, MarkSkipped;
    SkipGapKeepsInv(key, s);
    var lowest := Lowest(s.held.at);
    DrainLeavesTheRest(lowest, s.held);
    forall c | lowest <= c < Drain(lowest, s.held).next
      ensures c in s.held.at
    {
      DrainTakesTheRun(lowest, s.held, c);
    }
  }

  lemma MovedOnTwice(s: SessionState, m: SessionState, t: SessionState)
    requires MovedOn(s, m) && MovedOn(m, t)
    ensures MovedOn(s, t)
  {
  }

  lemma {:induction false} ExpireMovesOn(key: SessionKey, s: SessionState, wait: nat, now: nat)
    requires SessionInv(key, s)
    ensures MovedOn(s, SessionExpire(s, wait, now).0)
    decreases |s.held.at|
  {
    hide SkipGap, MovedOn;
    if Due(s, wait, now) {
      SkipGapMovesOn(key, s);
      ExpireMovesOn(key, SkipGap(s).0, wait, now);
      MovedOnTwice(s, SkipGap(s).0, SessionExpire(s, wait, now).0);
    } else {
      StaysPut(s);
    }
  }

  lemma StaysPut(s: SessionState)
    ensures MovedOn(s, s)
  {
  }

  /** However early `oldest` may be: no gap stays in front of a packet that has waited long enough. */
  lemma EveryOverdueGapIsGivenUp(key: SessionKey, s: SessionState, wait: nat, now: nat, c: nat)
    requires SessionInv(key, s) && Overdue(s, wait, now, c)
    ensures c < SessionExpire(s, wait, now).0.next
  {
    hide SessionExpire;
    var t := SessionExpire(s, wait, now).0;
    var h :| h in s.held.at && c < h && s.held.at[h].arrived + wait <= now;
    ExpireMovesOn(key, s, wait, now);
    ExpireLeavesNothingDue(s, wait, now);
    ExpireKeepsSessionInv(key, s, wait, now);
    NothingHeldIsOverdue(t, wait, now);
  }

  lemma NothingHeldIsOverdue(t: SessionState, wait: nat, now: nat)
    requires t.held.WellFormed() && !Due(t, wait, now)
    ensures forall h | h in t.held.at :: t.held.at[h].arrived + wait > now
  {
  }

  lemma {:induction false} GivenUpIsOverdue(key: SessionKey, s: SessionState, wait: nat, now: nat, c: nat)
    requires SessionInv(key, s) && s.held.Exact() && s.next <= c && c !in s.held.at
    requires c < SessionExpire(s, wait, now).0.next
    ensures Overdue(s, wait, now, c)
    decreases |s.held.at|
  {
    hide HeldMap.Exact, Overdue;
    assert Due(s, wait, now);
    var m, lowest := SkipGap(s).0, Lowest(s.held.at);
    SkipGapMovesOn(key, s);
    if c < m.next {
      EarliestIsOverdue(s, wait, now, c);
    } else {
      DrainKeepsExact(lowest, s.held);
      GivenUpIsOverdue(key, m, wait, now, c);
      OverdueBefore(s, m, wait, now, c);
    }
  }

  lemma EarliestIsOverdue(s: SessionState, wait: nat, now: nat, c: nat)
    requires s.held.Exact() && Due(s, wait, now) && s.held.at != map[] && c < Lowest(s.held.at)
    ensures Overdue(s, wait, now, c)
  {
    var h :| h in s.held.at && s.held.at[h].arrived == Earliest(s.held.at);
    assert Lowest(s.held.at) <= h;
  }

  lemma OverdueBefore(s: SessionState, m: SessionState, wait: nat, now: nat, c: nat)
    requires MovedOn(s, m) && Overdue(m, wait, now, c)
    ensures Overdue(s, wait, now, c)
  {
    var h :| h in m.held.at && c < h && m.held.at[h].arrived + wait <= now;
    assert h in s.held.at && s.held.at[h] == m.held.at[h];
  }

  /** A gap is given up only if an expiry is due and something is held beyond it. */
  lemma {:induction false} GivenUpIsBelowHeld(key: SessionKey, s: SessionState, wait: nat, now: nat, c: nat)
    requires SessionInv(key, s) && s.next <= c && c !in s.held.at
    requires c < SessionExpire(s, wait, now).0.next
    ensures Due(s, wait, now) && exists h :: h in s.held.at && c < h
    decreases |s.held.at|
  {
    hide HeldMap.Exact;
    assert Due(s, wait, now);
    var m := SkipGap(s).0;
    SkipGapMovesOn(key, s);
    if c < m.next {
      assert Lowest(s.held.at) in s.held.at;
    } else {
      GivenUpIsBelowHeld(key, m, wait, now, c);
    }
  }

  /** Once `oldest` is too early, one expiry that is due gives up everything, however recent. */
  lemma {:induction false} ExpireEmpties(s: SessionState, wait: nat, now: nat)
    requires s.held.WellFormed() && s.held.TooEarly() && Due(s, wait, now)
    ensures SessionExpire(s, wait, now).0.held.at == map[]
    decreases |s.held.at|
  {
    hide HeldMap.TooEarly, MarkSkipped;
    var m := SkipGap(s).0;
    DrainKeepsTooEarly(Lowest(s.held.at), s.held);
    if m.held.at == map[] {
      assert !Due(m, wait, now);
    } else {
      ExpireEmpties(m, wait, now);
    }
  }

  lemma EverythingIsGivenUp(key: SessionKey, s: SessionState, wait: nat, now: nat)
    requires SessionInv(key, s) && !s.held.Exact() && Due(s, wait, now)
    ensures
      var t := SessionExpire(s, wait, now).0;
      t.held == EMPTY && forall h | h in s.held.at :: h < t.next
  {
    hide SessionExpire, HeldMap.Exact;
    InexactIsTooEarly(s.held);
    ExpireEmpties(s, wait, now);
    ExpireMovesOn(key, s, wait, now);
    ExpireKeepsSessionInv(key, s, wait, now);
  }

  ghost predicate HeldBeyond(s: SessionState, c: nat) {
    exists h :: h in s.held.at && c < h
  }

  /**
   Exactly which missing numbers an expiry gives up. While `oldest` is exact: those with a held packet beyond them
   that has waited at least `wait`. Otherwise: all with a held packet beyond them, as soon as `wait` has passed since
   the recorded moment.
   */
  lemma ExpireGivesUpExactly(key: SessionKey, s: SessionState, wait: nat, now: nat, c: nat)
    requires SessionInv(key, s) && s.next <= c && c !in s.held.at
    ensures
      c < SessionExpire(s, wait, now).0.next
      <==> if s.held.Exact() then Overdue(s, wait, now, c) else Due(s, wait, now) && HeldBeyond(s, c)
  {
    hide SessionExpire, Overdue, HeldMap.Exact;
    if c < SessionExpire(s, wait, now).0.next {
      GivenUpIsBelowHeld(key, s, wait, now, c);
      if s.held.Exact() {
        GivenUpIsOverdue(key, s, wait, now, c);
      }
    }
    if Overdue(s, wait, now, c) {
      EveryOverdueGapIsGivenUp(key, s, wait, now, c);
    }
    if !s.held.Exact() && Due(s, wait, now) {
      EverythingIsGivenUp(key, s, wait, now);
    }
  }

  /** No expiry, whenever it comes, gives up a gap before a packet beyond it has waited as long as it should. */
  ghost predicate NeverEarly(s: SessionState, wait: nat)
    requires s.held.WellFormed()
  {
    forall now: nat, c: nat | s.next <= c && c !in s.held.at && !Overdue(s, wait, now, c) ::
      c >= SessionExpire(s, wait, now).0.next
  }

  /** Waiting is right if and only if `oldest` is exact, for every wait. */
  lemma NeverEarlyExactly(key: SessionKey, s: SessionState, wait: nat)
    requires SessionInv(key, s)
    ensures NeverEarly(s, wait) <==> s.held.Exact()
  {
    hide SessionExpire, Overdue, HeldMap.Exact;
    if s.held.Exact() {
      forall now: nat, c: nat | s.next <= c && c !in s.held.at && !Overdue(s, wait, now, c)
        ensures c >= SessionExpire(s, wait, now).0.next
      {
        ExpireGivesUpExactly(key, s, wait, now, c);
      }
    } else {
      IsEarlyAtOnce(key, s, wait);
    }
  }

  /** The gap at `next` is given up `wait` after the recorded moment, when nothing held has waited so long. */
  lemma IsEarlyAtOnce(key: SessionKey, s: SessionState, wait: nat)
    requires SessionInv(key, s) && !s.held.Exact()
    ensures s.held.oldest.Some? && s.next !in s.held.at
    ensures
      var now := s.held.oldest.value + wait;
      !Overdue(s, wait, now, s.next) && s.next < SessionExpire(s, wait, now).0.next
  {
    hide SessionExpire, HeldMap.Exact;
    InexactIsTooEarly(s.held);
    var h :| h in s.held.at;
    assert HeldBeyond(s, s.next);
    ExpireGivesUpExactly(key, s, wait, s.held.oldest.value + wait, s.next);
  }

  predicate IsHeldBack(s: SessionState, counter: nat, now: nat) {
    !IsRenumbering(s, counter, now) && s.next < counter <= s.next + MAX_GAP
  }

  /**
   What an arriving packet does to the wait: afterwards no expiry comes too early if and only if nothing is held, or -
   for a packet that is held back - nothing was held before it, or it came no later than the recorded moment, or
   another held packet came at that moment, or - for any other packet - it was so before.
   */
  lemma NeverEarlyAfterPush(key: SessionKey, s: SessionState, packet: Incoming, counter: nat, now: nat, first: Why,
                            wait: nat)
    requires SessionInv(key, s) && Carries(packet, key, counter)
    ensures
      var t := SessionPush(s, packet, counter, now, first).session;
      && SessionInv(key, t)
      && (NeverEarly(t, wait)
          <==> || t.held.at == map[]
               || (if IsHeldBack(s, counter, now)
                   then s.held.oldest.None? || now <= s.held.oldest.value || RecordedElsewhere(s.held, counter)
                   else NeverEarly(s, wait)))
  {
    hide AllCarry, SkippedInv, NeverEarly, HeldMap.Exact, HeldMap.WellFormed, RecordedElsewhere, SessionPush;
    PushKeepsSessionInv(key, s, packet, counter, now, first);
    NeverEarlyExactly(key, s, wait);
    NeverEarlyExactly(key, SessionPush(s, packet, counter, now, first).session, wait);
    ExactAfterPush(s, packet, counter, now, first);
  }

  lemma ExactAfterDrain(next: nat, held: HeldMap)
    requires held.WellFormed()
    ensures Drain(next, held).held.Exact() <==> held.Exact() || Drain(next, held).held.at == map[]
  {
    var d := Drain(next, held);
    DrainKeepsWellFormed(next, held);
    InexactIsTooEarly(held);
    InexactIsTooEarly(d.held);
    if held.Exact() {
      DrainKeepsExact(next, held);
    } else {
      DrainKeepsTooEarly(next, held);
    }
  }

  lemma ExactAfterPush(s: SessionState, packet: Incoming, counter: nat, now: nat, first: Why)
    requires s.held.WellFormed()
    ensures
      var t := SessionPush(s, packet, counter, now, first).session;
      t.held.Exact()
      <==> || t.held.at == map[]
           || (if IsHeldBack(s, counter, now)
               then s.held.oldest.None? || now <= s.held.oldest.value || RecordedElsewhere(s.held, counter)
               else s.held.Exact())
  {
    hide MarkSkipped, Flushed, RecordedElsewhere;
    var t := SessionPush(s, packet, counter, now, first).session;
    if IsHeldBack(s, counter, now) {
      assert counter in t.held.at;
      ExactAfterInsert(s.held, counter, Held(packet, now));
    } else if counter == s.next {
      ExactAfterDrain(counter + 1, s.held);
    }
  }

  // ---------------------------------------------------------------- what is remembered of the gaps

  /** The missing numbers an expiry passes over on its way to `to`. */
  ghost function PassedOver(s: SessionState, to: nat): set<nat> {
    set c: nat | s.next <= c < to && c !in s.held.at
  }

  /** `moment` is the earliest arrival held beyond `c`. */
  ghost predicate EarliestBeyond(at: map<nat, Held>, c: nat, moment: nat) {
    && (exists h :: h in at && c < h && at[h].arrived == moment)
    && (forall h | h in at && c < h :: moment <= at[h].arrived)
  }

  /** When the gap at `c` was noticed, as far as is recorded. */
  ghost predicate Noticed(s: SessionState, c: nat, moment: nat) {
    if s.held.Exact() then EarliestBeyond(s.held.at, c, moment) else s.held.oldest == Some(moment)
  }

  /** The numbers of `gap` are in `after`, and those of `before` too if there is room for 1024 in all. */
  ghost predicate Remembers(before: map<nat, nat>, after: map<nat, nat>, gap: set<nat>) {
    && (forall c | c in after :: c in before || c in gap)
    && (forall c | c in after && c !in gap :: after[c] == before[c])
    && if |before| + |gap| <= 1024 then
         forall c :: c in after <==> c in before || c in gap
       else
         forall c | c in after :: c in gap
  }

  /** The numbers from `from` on, `n` of them. */
  function Numbers(from: nat, n: nat): (r: set<nat>)
    ensures |r| == n
    ensures forall c :: c in r <==> from <= c < from + n
  {
    if n == 0 then {} else Numbers(from, n - 1) + {from + n - 1}
  }

  function Between(from: nat, to: nat): set<nat> {
    Numbers(from, Minus(to, from))
  }

  /** One gap: all its numbers are remembered, with the recorded moment. */
  lemma SkipGapRemembers(key: SessionKey, s: SessionState)
    requires SessionInv(key, s) && s.held.oldest.Some?
    ensures
      var lowest, after := Lowest(s.held.at), SkipGap(s).0.skipped;
      && Remembers(s.skipped, after, Between(s.next, lowest))
      && (forall c: nat | s.next <= c < lowest :: c in after && after[c] == s.held.oldest.value)
      && |Between(s.next, lowest)| == lowest - s.next
  {
    hide Marked, Drain, AllCarry, Numbers;
    var lowest, noticed := Lowest(s.held.at), s.held.oldest.value;
    assert s.next < lowest < s.next + RING;
    var kept := if |s.skipped| + Minus(lowest, s.next) > MAX_SKIPPED then map[] else s.skipped;
    MarkedHoldsTheGap(kept, s.next, lowest, noticed);
  }

  /** The missing numbers passed over are those of the first gap and those passed over afterwards. */
  lemma PassedOverInParts(key: SessionKey, s: SessionState, to: nat)
    requires SessionInv(key, s) && s.held.oldest.Some? && SkipGap(s).0.next <= to
    ensures
      var lowest, m := Lowest(s.held.at), SkipGap(s).0;
      && PassedOver(s, to) == Between(s.next, lowest) + PassedOver(m, to)
      && Between(s.next, lowest) !! PassedOver(m, to)
  {
    hide MarkSkipped, AllCarry;
    var lowest, m := Lowest(s.held.at), SkipGap(s).0;
    SkipGapMovesOn(key, s);
    DrainLeavesTheRest(lowest, s.held);
    forall c: nat
      ensures c in PassedOver(s, to) <==> c in Between(s.next, lowest) || c in PassedOver(m, to)
    {
      if lowest <= c < m.next {
        DrainTakesTheRun(lowest, s.held, c);
      }
    }
  }

  lemma NoticedThrough(key: SessionKey, s: SessionState, c: nat, moment: nat)
    requires SessionInv(key, s) && s.held.oldest.Some?
    requires
      var m := SkipGap(s).0;
      m.next <= c && m.held.at != map[] && Noticed(m, c, moment)
    ensures Noticed(s, c, moment)
  {
    hide MarkSkipped, AllCarry;
    var lowest, m := Lowest(s.held.at), SkipGap(s).0;
    SkipGapKeepsInv(key, s);
    DrainLeavesTheRest(lowest, s.held);
    InexactIsTooEarly(s.held);
    InexactIsTooEarly(m.held);
    if s.held.Exact() {
      DrainKeepsExact(lowest, s.held);
      SameBeyond(s.held.at, m.held.at, lowest, m.next, c, moment);
    } else {
      DrainKeepsTooEarly(lowest, s.held);
    }
  }

  lemma SameBeyond(before: map<nat, Held>, after: map<nat, Held>, from: nat, to: nat, c: nat, moment: nat)
    requires forall h :: h in after <==> h in before && !(from <= h < to)
    requires (forall h | h in after :: after[h] == before[h]) && to <= c && EarliestBeyond(after, c, moment)
    ensures EarliestBeyond(before, c, moment)
  {
    var h :| h in after && c < h && after[h].arrived == moment;
    assert h in before && before[h].arrived == moment;
  }

  lemma FirstIsNoticed(key: SessionKey, s: SessionState, c: nat)
    requires SessionInv(key, s) && s.held.oldest.Some? && c < Lowest(s.held.at)
    ensures Noticed(s, c, s.held.oldest.value)
  {
    if s.held.Exact() {
      var h :| h in s.held.at && s.held.at[h].arrived == Earliest(s.held.at);
      assert c < h;
    }
  }

  lemma RememberedThrough(s: map<nat, nat>, m: map<nat, nat>, t: map<nat, nat>, next: nat, first: set<nat>,
                          later: set<nat>)
    requires Remembers(s, m, first) && Remembers(m, t, later) && first !! later
    requires (forall c | c in s :: c < next) && (forall c | c in first :: next <= c) && forall c | c in first :: c in m
    ensures Remembers(s, t, first + later)
  {
    assert |first + later| == |first| + |later|;
    if |s| + |first| <= 1024 {
      assert m.Keys == s.Keys + first;
      assert s.Keys !! first;
      assert |m.Keys| == |s.Keys| + |first|;
    } else {
      assert m.Keys == first;
    }
  }

  lemma NoticedInParts(key: SessionKey, s: SessionState, t: SessionState)
    requires SessionInv(key, s) && s.held.oldest.Some? && SkipGap(s).0.next <= t.next
    requires
      var m := SkipGap(s).0;
      && Remembers(m.skipped, t.skipped, PassedOver(m, t.next))
      && (forall c | c in t.skipped && c in PassedOver(m, t.next) :: Noticed(m, c, t.skipped[c]))
      && (forall c | c in PassedOver(m, t.next) :: m.held.at != map[])
    ensures forall c | c in t.skipped && c in PassedOver(s, t.next) :: Noticed(s, c, t.skipped[c])
  {
    hide SkipGap, Noticed, Remembers, AllCarry, SkippedInv, Numbers;
    var m := SkipGap(s).0;
    PassedOverInParts(key, s, t.next);
    SkipGapRemembers(key, s);
    forall c | c in t.skipped && c in PassedOver(s, t.next)
      ensures Noticed(s, c, t.skipped[c])
    {
      if c in PassedOver(m, t.next) {
        NoticedThrough(key, s, c, t.skipped[c]);
      } else {
        FirstIsNoticed(key, s, c);
        KeptAsItWas(m.skipped, t.skipped, PassedOver(m, t.next), c);
      }
    }
  }

  /**
   What an expiry remembers of the numbers it passes over: all of them, each with the moment its gap was noticed, and
   all that were remembered before, if these are at most 1024 together; otherwise only numbers it passed over itself.
   */
  lemma {:induction false} ExpireRemembers(key: SessionKey, s: SessionState, wait: nat, now: nat)
    requires SessionInv(key, s)
    ensures
      var t := SessionExpire(s, wait, now).0;
      && Remembers(s.skipped, t.skipped, PassedOver(s, t.next))
      && forall c | c in t.skipped && c in PassedOver(s, t.next) :: Noticed(s, c, t.skipped[c])
    decreases |s.held.at|
  {
    hide SkipGap, Noticed, Remembers;
    if Due(s, wait, now) {
      var lowest, m := Lowest(s.held.at), SkipGap(s).0;
      SkipGapKeepsInv(key, s);
      ExpireRemembers(key, m, wait, now);
      var t := SessionExpire(m, wait, now).0;
      ExpireMovesOn(key, m, wait, now);
      PassedOverInParts(key, s, t.next);
      SkipGapRemembers(key, s);
      NextIsAbove(key, s);
      RememberedThrough(s.skipped, m.skipped, t.skipped, s.next, Between(s.next, lowest), PassedOver(m, t.next));
      forall c | c in PassedOver(m, t.next)
        ensures m.held.at != map[]
      {
        GivenUpIsBelowHeld(key, m, wait, now, c);
      }
      NoticedInParts(key, s, t);
    } else {
      NothingPassedOver(key, s);
    }
  }

  lemma NextIsAbove(key: SessionKey, s: SessionState)
    requires SessionInv(key, s)
    ensures forall c | c in s.skipped :: c < s.next
  {
  }

  lemma KeptAsItWas(before: map<nat, nat>, after: map<nat, nat>, gap: set<nat>, c: nat)
    requires Remembers(before, after, gap) && c in after && c !in gap
    ensures c in before && after[c] == before[c]
  {
  }

  lemma NothingPassedOver(key: SessionKey, s: SessionState)
    requires SessionInv(key, s)
    ensures PassedOver(s, s.next) == {} && Remembers(s.skipped, s.skipped, {})
  {
    assert PassedOver(s, s.next) == {};
    assert |s.skipped| + 0 == |s.skipped|;
  }
}
