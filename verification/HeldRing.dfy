/**
 The packets a session holds back (`reorder::HeldRing`): a ring of 512 slots indexed by the packet
 counter modulo 512. The ring does not store the counters; it is a faithful map from counters to
 packets only while every held counter lies in one window of 512.
 */
module HeldRings {
  import opened Prelude
  import opened Packets

  const RING: nat := 512

  datatype Held = Held(packet: Incoming, arrived: nat)

  /** `t` is the earliest arrival among the held packets. */
  ghost predicate IsEarliest(at: map<nat, Held>, t: nat) {
    && (exists c | c in at :: at[c].arrived == t)
    && (forall c | c in at :: t <= at[c].arrived)
  }

  ghost predicate IsLowest(at: map<nat, Held>, c: nat) {
    c in at && forall d | d in at :: c <= d
  }

  ghost predicate IsHighest(at: map<nat, Held>, c: nat) {
    c in at && forall d | d in at :: d <= c
  }

  lemma {:induction false} EarliestExists(at: map<nat, Held>)
    requires at != map[]
    ensures exists t :: IsEarliest(at, t)
    decreases |at|
  {
    var c :| c in at;
    var rest := at - {c};
    assert forall e | e in at :: e == c || e in rest;
    if rest == map[] {
      assert IsEarliest(at, at[c].arrived);
    } else {
      assert rest.Keys == at.Keys - {c};
      EarliestExists(rest);
      var t: nat :| IsEarliest(rest, t);
      var d :| d in rest && rest[d].arrived == t;
      assert at[d].arrived == t;
      assert IsEarliest(at, Min(t, at[c].arrived));
    }
  }

  lemma {:induction false} LowestExists(at: map<nat, Held>)
    requires at != map[]
    ensures exists c :: IsLowest(at, c)
    decreases |at|
  {
    var c :| c in at;
    var rest := at - {c};
    assert forall e | e in at :: e == c || e in rest;
    if rest == map[] {
      assert IsLowest(at, c);
    } else {
      assert rest.Keys == at.Keys - {c};
      LowestExists(rest);
      var d: nat :| IsLowest(rest, d);
      assert IsLowest(at, Min(c, d));
    }
  }

  ghost function Earliest(at: map<nat, Held>): (t: nat)
    requires at != map[]
    ensures IsEarliest(at, t)
  {
    EarliestExists(at);
    var t :| IsEarliest(at, t);
    t
  }

  ghost function Lowest(at: map<nat, Held>): (c: nat)
    requires at != map[]
    ensures IsLowest(at, c)
  {
    LowestExists(at);
    var c :| IsLowest(at, c);
    c
  }

  /**
   What a ring means: the held packets by counter, and the arrival the wait is measured from.
   */
  datatype HeldMap = HeldMap(at: map<nat, Held>, oldest: Option<nat>) {

    /** `oldest` is a lower bound on the arrivals, and absent exactly when nothing is held. */
    ghost predicate WellFormed() {
      && (oldest.None? <==> at == map[])
      && (forall c | c in at :: oldest.Some? && oldest.value <= at[c].arrived)
    }

    /** `oldest` is the earliest arrival of a packet that is still held. */
    ghost predicate Exact() {
      if at == map[] then oldest == None else oldest == Some(Earliest(at))
    }

    /** `oldest` is earlier than the arrival of everything held. */
    ghost predicate TooEarly() {
      at != map[] && forall c | c in at :: oldest.Some? && oldest.value < at[c].arrived
    }

    ghost function Insert(counter: nat, h: Held): HeldMap {
      HeldMap(at[counter := h], Some(if oldest.None? then h.arrived else Min(oldest.value, h.arrived)))
    }

    ghost function Remove(counter: nat): HeldMap
      requires counter in at
    {
      var rest := at - {counter};
      HeldMap(rest,
              if rest == map[] then None
              else if oldest == Some(at[counter].arrived) then Some(Earliest(rest))
              else oldest)
    }
  }

  const EMPTY := HeldMap(map[], None)

  /** Both operations keep `oldest` a lower bound. */
  lemma WellFormedIsKept(m: HeldMap, counter: nat, h: Held)
    requires m.WellFormed()
    ensures m.Insert(counter, h).WellFormed()
    ensures counter in m.at ==> m.Remove(counter).WellFormed()
  {
    assert counter in m.Insert(counter, h).at;
  }

  /** As long as no held counter is overwritten, `oldest` stays exact; removal always keeps it exact. */
  lemma ExactIsKept(m: HeldMap, counter: nat, h: Held)
    requires m.Exact()
    ensures counter !in m.at ==> m.Insert(counter, h).Exact()
    ensures counter in m.at ==> m.Remove(counter).Exact()
  {
    if counter !in m.at {
      var n := m.Insert(counter, h);
      assert counter in n.at;
      assert forall c | c in m.at :: c in n.at && n.at[c] == m.at[c];
      if m.at != map[] {
        var c :| c in m.at && m.at[c].arrived == Earliest(m.at);
        assert n.at[c].arrived == Earliest(m.at);
      }
      assert IsEarliest(n.at, n.oldest.value);
    } else {
      var rest := m.at - {counter};
      if rest != map[] && m.oldest != Some(m.at[counter].arrived) {
        var c :| c in m.at && m.at[c].arrived == Earliest(m.at);
        assert c in rest;
        assert IsEarliest(rest, m.oldest.value);
      }
    }
  }

  /** Something other than the packet under `counter` arrived at the recorded moment. */
  ghost predicate RecordedElsewhere(m: HeldMap, counter: nat) {
    exists c :: c in m.at && c != counter && m.oldest == Some(m.at[c].arrived)
  }

  /** An `oldest` that is not exact is earlier than everything held. */
  lemma InexactIsTooEarly(m: HeldMap)
    requires m.WellFormed()
    ensures m.Exact() <==> !m.TooEarly()
  {
    if m.at != map[] {
      var c :| c in m.at && m.at[c].arrived == Earliest(m.at);
    }
  }

  /**
   Exactly when `oldest` is exact after an insertion, over a held packet or not: when nothing was held, or what is
   inserted is no later than what was recorded, or another held packet arrived at the recorded moment.
   */
  lemma ExactAfterInsert(m: HeldMap, counter: nat, h: Held)
    requires m.WellFormed()
    ensures
      m.Insert(counter, h).Exact()
      <==> m.oldest.None? || h.arrived <= m.oldest.value || RecordedElsewhere(m, counter)
  {
    var n := m.Insert(counter, h);
    WellFormedIsKept(m, counter, h);
    InexactIsTooEarly(n);
    assert counter in n.at && n.at[counter] == h;
    assert forall c | c in m.at && c != counter :: c in n.at && n.at[c] == m.at[c];
  }

  /** A removal repairs nothing: `oldest` is exact afterwards if and only if it was, or nothing is left. */
  lemma ExactAfterRemove(m: HeldMap, counter: nat)
    requires m.WellFormed() && counter in m.at
    ensures m.Remove(counter).Exact() <==> m.Exact() || m.at - {counter} == map[]
    ensures m.TooEarly() && m.at - {counter} != map[] ==> m.Remove(counter).oldest == m.oldest
  {
    WellFormedIsKept(m, counter, m.at[counter]);
    InexactIsTooEarly(m);
    InexactIsTooEarly(m.Remove(counter));
    if m.Exact() {
      ExactIsKept(m, counter, m.at[counter]);
    }
  }

  function Index(counter: nat): (i: nat)
    ensures i < RING
  {
    counter % RING
  }

  ghost function Lookup(at: map<nat, Held>, c: nat): Option<Held> {
    if c in at then Some(at[c]) else None
  }

  /** The ring shows exactly the packets of `at`, read as the window of counters starting at `lo`. */
  ghost predicate Mirrors(slots: seq<Option<Held>>, at: map<nat, Held>, lo: nat) {
    && |slots| == RING
    && (forall c | c in at :: lo <= c < lo + RING)
    && (forall c | lo <= c < lo + RING :: slots[Index(c)] == Lookup(at, c))
  }

  /** The same ring can be read from any window that covers the held counters. */
  lemma MirrorsFrom(slots: seq<Option<Held>>, at: map<nat, Held>, lo: nat, lo': nat)
    requires Mirrors(slots, at, lo)
    requires lo < lo' + RING && lo' < lo + RING
    requires forall c | c in at :: lo' <= c < lo' + RING
    ensures Mirrors(slots, at, lo')
  {
    forall c | lo' <= c < lo' + RING
      ensures slots[Index(c)] == Lookup(at, c)
    {
      if c < lo {
        assert slots[Index(c + RING)] == Lookup(at, c + RING);
      } else if c >= lo + RING {
        assert slots[Index(c - RING)] == Lookup(at, c - RING);
      }
    }
  }

  lemma EmptyMirrors(slots: seq<Option<Held>>, lo: nat)
    requires |slots| == RING && forall i | 0 <= i < RING :: slots[i] == None
    ensures Mirrors(slots, map[], lo)
  {
  }

  lemma MirrorsInsert(slots: seq<Option<Held>>, at: map<nat, Held>, lo: nat, counter: nat, h: Held)
    requires Mirrors(slots, at, lo) && lo <= counter < lo + RING
    ensures Mirrors(slots[Index(counter) := Some(h)], at[counter := h], lo)
  {
    forall c | lo <= c < lo + RING
      ensures slots[Index(counter) := Some(h)][Index(c)] == Lookup(at[counter := h], c)
    {
      assert Index(c) == Index(counter) ==> c == counter;
      assert slots[Index(c)] == Lookup(at, c);
    }
  }

  lemma MirrorsRemove(slots: seq<Option<Held>>, at: map<nat, Held>, lo: nat, counter: nat)
    requires Mirrors(slots, at, lo) && lo <= counter < lo + RING
    ensures Mirrors(slots[Index(counter) := None], at - {counter}, lo)
  {
    forall c | lo <= c < lo + RING
      ensures slots[Index(counter) := None][Index(c)] == Lookup(at - {counter}, c)
    {
      assert Index(c) == Index(counter) ==> c == counter;
      assert slots[Index(c)] == Lookup(at, c);
    }
  }

  lemma NothingMirrored(slots: seq<Option<Held>>, lo: nat)
    requires Mirrors(slots, map[], lo)
    ensures forall i | 0 <= i < RING :: slots[i] == None
  {
    forall i | 0 <= i < RING
      ensures slots[i] == None
    {
      var c := if Index(lo) <= i then lo + (i - Index(lo)) else lo + (i + RING - Index(lo));
      assert Index(c) == i;
      assert slots[Index(c)] == Lookup(map[], c);
    }
  }

  /** The fields of a ring represent `m`. */
  ghost predicate Represents(slots: seq<Option<Held>>, count: nat, lo: nat, hi: nat, m: HeldMap) {
    && count == |m.at|
    && m.WellFormed()
    && (if count == 0 then |slots| == 0 || (|slots| == RING && forall i | 0 <= i < RING :: slots[i] == None)
        else IsLowest(m.at, lo) && IsHighest(m.at, hi) && Mirrors(slots, m.at, lo))
  }

  lemma CardinalityOfInsert(at: map<nat, Held>, c: nat, h: Held)
    ensures |at[c := h]| == if c in at then |at| else |at| + 1
    ensures |at[c := h]| == 1 ==> at[c := h] == map[c := h]
  {
    var after := at[c := h];
    assert after.Keys == at.Keys + {c};
    assert |after| == |after.Keys|;
    if |after| == 1 {
      assert |after.Keys - {c}| == 0;
      assert after.Keys == {c};
    }
  }

  lemma CardinalityOfRemove(at: map<nat, Held>, c: nat)
    requires c in at
    ensures |at - {c}| == |at| - 1
  {
    assert (at - {c}).Keys == at.Keys - {c};
    assert |(at - {c}).Keys| == |at.Keys| - 1;
  }

  lemma NothingHeld(at: map<nat, Held>)
    requires |at| == 0
    ensures at == map[]
  {
    assert at.Keys == {};
  }

  /** The held counters, and with them `counter`, lie in one window. */
  ghost predicate Reaches(at: map<nat, Held>, counter: nat) {
    forall c | c in at :: c < counter + RING && counter < c + RING
  }

  lemma InsertRepresents(slots: seq<Option<Held>>, count: nat, lo: nat, hi: nat, m: HeldMap, counter: nat, h: Held)
    requires Represents(slots, count, lo, hi, m) && |slots| == RING && Reaches(m.at, counter)
    ensures slots[Index(counter)] == Lookup(m.at, counter)
    ensures
      var after := slots[Index(counter) := Some(h)];
      var n := |m.at[counter := h]|;
      if n == 1 then Represents(after, n, counter, counter, m.Insert(counter, h))
      else Represents(after, n, Min(lo, counter), Max(hi, counter), m.Insert(counter, h))
  {
    CardinalityOfInsert(m.at, counter, h);
    WellFormedIsKept(m, counter, h);
    if count == 0 {
      NothingHeld(m.at);
      EmptyMirrors(slots, counter);
      MirrorsInsert(slots, m.at, counter, counter, h);
    } else {
      assert lo in m.at[counter := h];
      MirrorsFrom(slots, m.at, lo, Min(lo, counter));
      MirrorsInsert(slots, m.at, Min(lo, counter), counter, h);
    }
  }

  /** After taking `counter` out, the ring is read from any lowest and highest held counter. */
  lemma RemoveRepresents(slots: seq<Option<Held>>, count: nat, lo: nat, hi: nat, m: HeldMap, counter: nat)
    requires Represents(slots, count, lo, hi, m) && counter in m.at
    ensures |slots| == RING && slots[Index(counter)] == Some(m.at[counter])
    ensures |m.at - {counter}| == count - 1
    ensures
      var after := slots[Index(counter) := None];
      var n := m.Remove(counter);
      && n.WellFormed()
      && Mirrors(after, n.at, lo)
      && (count == 1 ==> n == EMPTY && Represents(after, 0, lo, hi, n))
      && (forall l, u | count > 1 && IsLowest(n.at, l) && IsHighest(n.at, u) ::
            Represents(after, count - 1, l, u, n))
  {
    CardinalityOfRemove(m.at, counter);
    WellFormedIsKept(m, counter, m.at[counter]);
    MirrorsRemove(slots, m.at, lo, counter);
    var after, n := slots[Index(counter) := None], m.Remove(counter);
    if count == 1 {
      NothingHeld(n.at);
      NothingMirrored(after, lo);
    }
    forall l, u | count > 1 && IsLowest(n.at, l) && IsHighest(n.at, u)
      ensures Represents(after, count - 1, l, u, n)
    {
      MirrorsFrom(after, n.at, lo, l);
    }
  }

  class HeldRing {
    var slots: array<Option<Held>>
    var count: nat
    var lo: nat
    var hi: nat
    var oldest: Option<nat>
    ghost var model: HeldMap

    ghost predicate Valid()
      reads this, slots
      ensures Valid() ==> oldest == model.oldest && count == |model.at| && model.WellFormed()
    {
      && (slots.Length == 0 || slots.Length == RING)
      && oldest == model.oldest
      && Represents(slots[..], count, lo, hi, model)
    }

    constructor ()
      ensures Valid() && model == EMPTY
      ensures fresh(slots)
    {
      slots := new Option<Held>[0];
      count, lo, hi, oldest := 0, 0, 0, None;
      model := EMPTY;
    }

    method First() returns (c: Option<nat>)
      requires Valid()
      ensures c == if model.at == map[] then None else Some(Lowest(model.at))
    {
      if count == 0 {
        NothingHeld(model.at);
      }
      c := if count > 0 then Some(lo) else None;
    }

    /** The caller keeps all held counters in one window of `RING`. */
    method Insert(counter: nat, h: Held)
      requires Valid() && Reaches(model.at, counter)
      modifies this, slots
      ensures Valid() && model == old(model).Insert(counter, h)
      ensures slots == old(slots) || fresh(slots)
    {
      if slots.Length == 0 {
        slots := new Option<Held>[RING](_ => None);
      }
      ghost var before := slots[..];
      InsertRepresents(before, count, lo, hi, model, counter, h);
      CardinalityOfInsert(model.at, counter, h);
      if slots[Index(counter)] == None {
        count := count + 1;
      }
      slots[Index(counter)] := Some(h);
      assert slots[..] == before[Index(counter) := Some(h)];
      if count == 1 {
        lo, hi := counter, counter;
      } else {
        lo, hi := Min(lo, counter), Max(hi, counter);
      }
      oldest := Some(if oldest.None? then h.arrived else Min(oldest.value, h.arrived));
      model := model.Insert(counter, h);
    }

    method Remove(counter: nat) returns (r: Option<Held>)
      requires Valid()
      modifies this, slots
      ensures Valid() && slots == old(slots)
      ensures r == Lookup(old(model).at, counter)
      ensures model == if r.Some? then old(model).Remove(counter) else old(model)
    {
      if count == 0 || counter < lo || counter > hi {
        return None;
      }
      r := slots[Index(counter)];
      assert r == Lookup(model.at, counter);
      if r == None {
        return;
      }
      ghost var before, low := slots[..], lo;
      RemoveRepresents(before, count, lo, hi, model, counter);
      slots[Index(counter)] := None;
      assert slots[..] == before[Index(counter) := None];
      count := count - 1;
      model := model.Remove(counter);
      if count == 0 {
        oldest := None;
        return;
      }
      assert lo == counter || IsLowest(model.at, lo);
      Rescan(counter, r.value.arrived, low);
      assert slots[..] == before[Index(counter) := None];
    }

    /** Finds the new ends and the new earliest arrival once `counter` is gone. */
    method Rescan(counter: nat, arrived: nat, ghost low: nat)
      requires model.at != map[] && Mirrors(slots[..], model.at, low)
      requires lo == low && low <= counter < low + RING && counter !in model.at
      requires lo == counter || IsLowest(model.at, lo)
      requires hi == counter || IsHighest(model.at, hi)
      requires forall c | c in model.at :: lo <= c <= hi
      modifies this`lo, this`hi, this`oldest
      ensures IsLowest(model.at, lo) && IsHighest(model.at, hi)
      ensures oldest == if old(oldest) == Some(arrived) then Some(Earliest(model.at)) else old(oldest)
    {
      if counter == lo {
        lo := FindUp(counter + 1, low);
      }
      if counter == hi {
        hi := FindDown(counter - 1, low);
      }
      if oldest == Some(arrived) {
        MirrorsFrom(slots[..], model.at, low, lo);
        oldest := EarliestArrival();
      }
    }

    /** The nearest held counter from `from` upwards. */
    method FindUp(from: nat, ghost low: nat) returns (c: nat)
      requires Mirrors(slots[..], model.at, low) && low <= from
      requires model.at != map[] && forall d | d in model.at :: from <= d
      ensures IsLowest(model.at, c)
    {
      c := from;
      ghost var target := Lowest(model.at);
      while slots[Index(c)] == None
        invariant low <= c <= target
        invariant forall d | d in model.at :: c <= d
        decreases target - c
      {
        assert slots[Index(c)] == Lookup(model.at, c);
        c := c + 1;
      }
      assert slots[Index(c)] == Lookup(model.at, c);
    }

    /** The nearest held counter from `from` downwards. */
    method FindDown(from: int, ghost low: nat) returns (c: nat)
      requires Mirrors(slots[..], model.at, low) && from < low + RING
      requires model.at != map[] && forall d | d in model.at :: d <= from
      ensures IsHighest(model.at, c)
    {
      ghost var target := Lowest(model.at);
      c := from;
      while slots[Index(c)] == None
        invariant target <= c <= from
        invariant forall d | d in model.at :: d <= c
        decreases c
      {
        assert slots[Index(c)] == Lookup(model.at, c);
        c := c - 1;
      }
      assert slots[Index(c)] == Lookup(model.at, c);
    }

    /** The earliest arrival among the slots of the counters from `lo` to `hi`. */
    method EarliestArrival() returns (best: Option<nat>)
      requires model.at != map[] && IsLowest(model.at, lo) && IsHighest(model.at, hi)
      requires Mirrors(slots[..], model.at, lo)
      ensures best == Some(Earliest(model.at))
    {
      var c := lo;
      best := None;
      while c <= hi
        invariant lo <= c <= hi + 1
        invariant best.None? <==> c == lo
        invariant best.Some? ==> exists d | d in model.at :: model.at[d].arrived == best.value
        invariant forall d | d in model.at && d < c :: best.Some? && best.value <= model.at[d].arrived
      {
        assert slots[Index(c)] == Lookup(model.at, c);
        var slot := slots[Index(c)];
        if slot.Some? {
          best := Some(if best.None? then slot.value.arrived else Min(best.value, slot.value.arrived));
          assert model.at[c].arrived == slot.value.arrived;
        }
        c := c + 1;
      }
      assert IsEarliest(model.at, best.value);
    }
  }
}
