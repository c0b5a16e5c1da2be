/** Choosing the hole for the next packet: at random, but each live hole once per round (multilink.rs). */
module SlotPickers {
  import opened Prelude

  const TARGET_LINKS: nat := 10

  // ---------------------------------------------------------------- one pick, on values

  /** The slots of this round that are still live, in their order. */
  function Kept(left: seq<nat>, live: seq<nat>): (r: seq<nat>)
    ensures |r| <= |left|
  {
    if left == [] then []
    else
      var front, last := left[..|left| - 1], left[|left| - 1];
      Kept(front, live) + if last in live then [last] else []
  }

  lemma KeptNothing(live: seq<nat>)
    ensures Kept([], live) == []
  {
  }

  lemma KeptExtended(left: seq<nat>, slot: nat, live: seq<nat>)
    ensures Kept(left + [slot], live) == Kept(left, live) + if slot in live then [slot] else []
  {
    assert (left + [slot])[..|left|] == left;
  }

  /** What a pick chooses from: the rest of the round, or a new round when nothing of it is left. */
  function Pool(left: seq<nat>, live: seq<nat>): seq<nat> {
    if Kept(left, live) != [] then Kept(left, live) else live[..Min(|live|, TARGET_LINKS)]
  }

  /** Element `i` is taken out and the last one put in its place. */
  function SwapRemoved(s: seq<nat>, i: nat): (r: seq<nat>)
    requires i < |s|
    ensures |r| == |s| - 1
  {
    s[i := s[|s| - 1]][..|s| - 1]
  }

  function Picked(left: seq<nat>, live: seq<nat>, draw: nat): Option<nat> {
    var pool := Pool(left, live);
    if pool == [] then None else Some(pool[draw % |pool|])
  }

  function LeftAfter(left: seq<nat>, live: seq<nat>, draw: nat): seq<nat> {
    var pool := Pool(left, live);
    if pool == [] then [] else SwapRemoved(pool, draw % |pool|)
  }

  class SlotPicker {
    const remaining: array<nat>
    var len: nat

    ghost predicate Valid()
      reads this
    {
      remaining.Length == TARGET_LINKS && len <= TARGET_LINKS
    }

    ghost function Left(): seq<nat>
      requires Valid()
      reads this, remaining
    {
      remaining[..len]
    }

    constructor ()
      ensures Valid() && fresh(remaining) && Left() == []
    {
      remaining := new nat[TARGET_LINKS](_ => 0);
      len := 0;
    }

    /** Drops the slots that are no longer live, moving the others together. */
    method Compact(live: seq<nat>)
      requires Valid()
      modifies this, remaining
      ensures Valid() && Left() == Kept(old(Left()), live)
    {
      hide Kept;
      ghost var was := remaining[..];
      KeptNothing(live);
      var kept, i := 0, 0;
      while i < len
        invariant 0 <= kept <= i <= len == old(len)
        invariant remaining[..kept] == Kept(was[..i], live)
        invariant remaining[i..] == was[i..]
      {
        assert remaining[i..][0] == was[i..][0];
        assert was[..i + 1] == was[..i] + [was[i]];
        KeptExtended(was[..i], was[i], live);
        ghost var front := remaining[..kept];
        if remaining[i] in live {
          remaining[kept] := remaining[i];
          kept := kept + 1;
          assert remaining[..kept] == front + [was[i]];
        }
        i := i + 1;
      }
      len := kept;
    }

    /** The next slot, or nothing when no hole is live. `draw` is what the random generator gave. */
    method Pick(live: seq<nat>, draw: nat) returns (slot: Option<nat>)
      requires Valid()
      modifies this, remaining
      ensures Valid()
      ensures slot == Picked(old(Left()), live, draw) && Left() == LeftAfter(old(Left()), live, draw)
    {
      hide Kept;
      Compact(live);
      if len == 0 {
        len := Min(|live|, TARGET_LINKS);
        forall k | 0 <= k < len {
          remaining[k] := live[k];
        }
        assert Left() == live[..len];
      }
      if len == 0 {
        return None;
      }
      ghost var pool := Left();
      var index := draw % len;
      slot := Some(remaining[index]);
      len := len - 1;
      remaining[index] := remaining[len];
      assert Left() == SwapRemoved(pool, index);
    }
  }

  // ---------------------------------------------------------------- runs

  /** One call: the holes that were live, and the random draw. */
  datatype Call = Call(live: seq<nat>, draw: nat)

  function Left(calls: seq<Call>): seq<nat> {
    if calls == [] then []
    else var call := calls[|calls| - 1]; LeftAfter(Left(calls[..|calls| - 1]), call.live, call.draw)
  }

  /** What call `i` of the run returned. */
  function Result(calls: seq<Call>, i: nat): Option<nat>
    requires i < |calls|
  {
    Picked(Left(calls[..i]), calls[i].live, calls[i].draw)
  }

  /** Call `i` found nothing left of the round and started a new one. */
  predicate StartsRound(calls: seq<Call>, i: nat)
    requires i < |calls|
  {
    Kept(Left(calls[..i]), calls[i].live) == []
  }

  lemma {:induction false} KeptIsFilter(left: seq<nat>, live: seq<nat>)
    ensures forall x :: x in Kept(left, live) <==> x in left && x in live
    ensures Distinct(left) ==> Distinct(Kept(left, live))
  {
    if left != [] {
      var n := |left| - 1;
      KeptIsFilter(left[..n], live);
      assert left == left[..n] + [left[n]];
    }
  }

  lemma SwapRemovedMembers(s: seq<nat>, i: nat)
    requires i < |s| && Distinct(s)
    ensures Distinct(SwapRemoved(s, i))
    ensures forall x :: x in SwapRemoved(s, i) <==> x in s && x != s[i]
  {
    var r, n := SwapRemoved(s, i), |s| - 1;
    forall x | x in s && x != s[i]
      ensures x in r
    {
      var j :| 0 <= j < |s| && s[j] == x;
      if j == n {
        assert r[i] == x;
      } else {
        assert r[j] == x;
      }
    }
  }

  /** Nothing but live slots is ever picked, and something is whenever any slot is live. */
  lemma PicksAreLive(calls: seq<Call>, i: nat)
    requires i < |calls|
    ensures Result(calls, i).None? <==> calls[i].live == []
    ensures Result(calls, i).Some? ==> Result(calls, i).value in calls[i].live
  {
    KeptIsFilter(Left(calls[..i]), calls[i].live);
    var live := calls[i].live;
    var kept := Kept(Left(calls[..i]), live);
    if kept != [] {
      assert kept[0] in live;
    }
    assert forall x :: x in live[..Min(|live|, TARGET_LINKS)] ==> x in live;
  }

  ghost predicate DistinctLives(calls: seq<Call>) {
    forall i :: 0 <= i < |calls| ==> Distinct(calls[i].live)
  }

  lemma StepMembers(left: seq<nat>, live: seq<nat>, draw: nat)
    requires Distinct(left) && Distinct(live)
    ensures Distinct(Pool(left, live)) && Distinct(LeftAfter(left, live, draw))
    ensures forall x :: x in LeftAfter(left, live, draw) <==>
                        x in Pool(left, live) && Picked(left, live, draw) != Some(x)
    ensures Kept(left, live) != [] ==> forall x :: x in Pool(left, live) ==> x in left
  {
    KeptIsFilter(left, live);
    var pool := Pool(left, live);
    assert Distinct(pool);
    if pool != [] {
      SwapRemovedMembers(pool, draw % |pool|);
    }
  }

  lemma {:induction false} LeftIsDistinct(calls: seq<Call>)
    requires DistinctLives(calls)
    ensures Distinct(Left(calls))
  {
    if calls != [] {
      var n := |calls| - 1;
      LeftIsDistinct(calls[..n]);
      StepMembers(Left(calls[..n]), calls[n].live, calls[n].draw);
    }
  }

  /** What was picked in a round stays out of it for the rest of the round. */
  lemma {:induction false} PickedStaysOut(calls: seq<Call>, i: nat, j: nat)
    requires DistinctLives(calls) && i < j <= |calls| && Result(calls, i).Some?
    requires forall k :: i < k < j ==> !StartsRound(calls, k)
    ensures Result(calls, i).value !in Left(calls[..j])
    decreases j
  {
    hide LeftAfter, Picked, Pool, Kept;
    var n := j - 1;
    assert calls[..j][..n] == calls[..n];
    LeftIsDistinct(calls[..n]);
    StepMembers(Left(calls[..n]), calls[n].live, calls[n].draw);
    if i < n {
      assert !StartsRound(calls, n);
      PickedStaysOut(calls, i, n);
    }
  }

  /** However the set of live holes changes, no hole is picked twice in one round. */
  lemma NoRepeatWithinARound(calls: seq<Call>, i: nat, j: nat)
    requires DistinctLives(calls) && i < j < |calls| && Result(calls, i).Some?
    requires forall k :: i < k <= j ==> !StartsRound(calls, k)
    ensures Result(calls, j) != Result(calls, i)
  {
    hide LeftAfter, Kept;
    PickedStaysOut(calls, i, j);
    assert !StartsRound(calls, j);
    LeftIsDistinct(calls[..j]);
    StepMembers(Left(calls[..j]), calls[j].live, calls[j].draw);
    assert Result(calls, j).Some? ==> Result(calls, j).value in Pool(Left(calls[..j]), calls[j].live);
  }

  // ---------------------------------------------------------------- fairness

  /** How often `slot` was picked. */
  function Times(calls: seq<Call>, slot: nat): nat {
    if calls == [] then 0
    else
      var n := |calls| - 1;
      Times(calls[..n], slot) + if Result(calls, n) == Some(slot) then 1 else 0
  }

  predicate SameLive(calls: seq<Call>, live: seq<nat>) {
    forall i :: 0 <= i < |calls| ==> calls[i].live == live
  }

  /** The `rounds`-th round is under way: each slot has had its turn in it or still has it ahead. */
  ghost predicate Even(calls: seq<Call>, live: seq<nat>, rounds: nat) {
    var left := Left(calls);
    && |left| < |live|
    && Distinct(left)
    && (forall x :: x in left ==> x in live)
    && |calls| + |left| == rounds * |live|
    && (forall x :: x in live ==> Times(calls, x) + (if x in left then 1 else 0) == rounds)
  }

  lemma {:induction false} KeptAll(left: seq<nat>, live: seq<nat>)
    requires forall x :: x in left ==> x in live
    ensures Kept(left, live) == left
  {
    if left != [] {
      var n := |left| - 1;
      assert left == left[..n] + [left[n]];
      KeptAll(left[..n], live);
    }
  }

  lemma {:induction false} EveryRoundIsEven(calls: seq<Call>, live: seq<nat>) returns (rounds: nat)
    requires 0 < |live| <= TARGET_LINKS && Distinct(live) && SameLive(calls, live)
    ensures Even(calls, live, rounds)
  {
    if calls == [] {
      rounds := 0;
    } else {
      var n := |calls| - 1;
      var before := EveryRoundIsEven(calls[..n], live);
      rounds := EvenStep(calls, live, before);
    }
  }

  lemma EvenStep(calls: seq<Call>, live: seq<nat>, before: nat) returns (rounds: nat)
    requires 0 < |live| <= TARGET_LINKS && Distinct(live) && SameLive(calls, live)
    requires calls != [] && Even(calls[..|calls| - 1], live, before)
    ensures Even(calls, live, rounds)
  {
    hide LeftAfter, Kept;
    var n := |calls| - 1;
    var left := Left(calls[..n]);
    KeptAll(left, live);
    StepMembers(left, live, calls[n].draw);
    assert live[..|live|] == live;
    rounds := if left == [] then before + 1 else before;
    LeftLength(left, live, calls[n].draw);
    assert (before + 1) * |live| == before * |live| + |live|;
  }

  lemma LeftLength(left: seq<nat>, live: seq<nat>, draw: nat)
    ensures |LeftAfter(left, live, draw)| == if Pool(left, live) == [] then 0 else |Pool(left, live)| - 1
  {
  }

  /**
   With a fixed set of at most ten holes and any random numbers, after any number of picks each hole has been
   picked as often as an even split allows: the quotient, rounded down or up.
   */
  lemma LoadIsEven(calls: seq<Call>, live: seq<nat>, slot: nat)
    requires 0 < |live| <= TARGET_LINKS && Distinct(live) && SameLive(calls, live)
    requires slot in live
    ensures |calls| / |live| <= Times(calls, slot) <= (|calls| + |live| - 1) / |live|
  {
    hide Left, Times;
    var rounds := EveryRoundIsEven(calls, live);
    EvenSplit(|calls|, |live|, |Left(calls)|, rounds);
    assert |Left(calls)| == 0 ==> Left(calls) == [];
  }

  lemma EvenSplit(k: nat, n: nat, left: nat, rounds: nat)
    requires left < n && k + left == rounds * n
    ensures k / n == if left == 0 then rounds else rounds - 1
    ensures (k + n - 1) / n == rounds
  {
    Quotient(k + n - 1, n, rounds, n - 1 - left);
    if left == 0 {
      Quotient(k, n, rounds, 0);
    } else {
      Quotient(k, n, rounds - 1, n - left);
    }
  }

  /** A pick chooses among the live slots left of the round, or, when none is left, among the first ten live ones. */
  lemma PoolIs(left: seq<nat>, live: seq<nat>, slot: nat)
    ensures
      if exists x :: x in left && x in live then slot in Pool(left, live) <==> slot in left && slot in live
      else Pool(left, live) == live[..if |live| < 10 then |live| else 10]
  {
    KeptIsFilter(left, live);
    var kept := Kept(left, live);
    assert kept != [] ==> kept[0] in kept;
    if x :| x in left && x in live {
      assert x in kept;
    }
  }

  /** Every slot of the pool has its turn with every so-many-th random number, and with no other. */
  lemma EverySlotIsEquallyLikely(left: seq<nat>, live: seq<nat>, slot: nat) returns (r: nat)
    requires Distinct(left) && Distinct(live) && slot in Pool(left, live)
    ensures r < |Pool(left, live)|
    ensures forall draw: nat :: Picked(left, live, draw) == Some(slot) <==> draw % |Pool(left, live)| == r
  {
    StepMembers(left, live, 0);
    r :| 0 <= r < |Pool(left, live)| && Pool(left, live)[r] == slot;
  }

  // ---------------------------------------------------------------- the random numbers

  function First(x: bv32): bv32 {
    x ^ (x << 13)
  }

  function Second(x: bv32): bv32 {
    x ^ (x >> 17)
  }

  function Third(x: bv32): bv32 {
    x ^ (x << 5)
  }

  function Scrambled(x: bv32): bv32 {
    Third(Second(First(x)))
  }

  lemma FirstIsNotZero(x: bv32)
    requires x != 0
    ensures First(x) != 0
  {
  }

  lemma SecondIsNotZero(x: bv32)
    requires x != 0
    ensures Second(x) != 0
  {
  }

  lemma ThirdIsNotZero(x: bv32)
    requires x != 0
    ensures Third(x) != 0
  {
  }

  /** The generator never reaches the state it could not leave. */
  lemma ScrambledIsNotZero(x: bv32)
    requires x != 0
    ensures Scrambled(x) != 0
  {
    hide First, Second, Third;
    FirstIsNotZero(x);
    SecondIsNotZero(First(x));
    ThirdIsNotZero(Second(First(x)));
  }

  class XorShift32 {
    var state: bv32

    /** The lowest bit of the seed is set, so that it is not zero. */
    constructor (seed: bv32)
      ensures state == seed | 1 && state != 0
    {
      state := seed | 1;
    }

    method Next() returns (x: bv32)
      requires state != 0
      modifies this
      ensures x == state == Scrambled(old(state)) && state != 0
    {
      hide Scrambled, First, Second, Third;
      ScrambledIsNotZero(state);
      x := First(state);
      x := Second(x);
      x := Third(x);
      ScrambledInStages(state);
      state := x;
    }
  }

  lemma ScrambledInStages(x: bv32)
    ensures Scrambled(x) == Third(Second(First(x)))
  {
  }

  /** The first numbers from seed 1. */
  lemma FirstNumbers()
    ensures Scrambled(1) == 270369 && Scrambled(270369) == 67634689
  {
  }
}
