/**
 Whole runs of the duplicate window. The packets carry numbers modulo 2^32; what happens is told in the
 sender's own numbering, which never wraps.
 */
module DedupRuns {
  import opened Dedup
  import opened Prelude

  /** The window after packets with these numbers have arrived. */
  ghost function After(pids: seq<int>): Window {
    if pids == [] then EMPTY else Step(After(pids[..|pids| - 1]), Wrapped(pids[|pids| - 1])).0
  }

  /** Whether the `i`-th packet of the run is let through. */
  ghost predicate Passes(pids: seq<int>, i: nat)
    requires i < |pids|
  {
    Step(After(pids[..i]), Wrapped(pids[i])).1
  }

  function Newest(pids: seq<int>): (n: int)
    requires pids != []
    ensures n in pids && forall p :: p in pids ==> p <= n
  {
    if |pids| == 1 then
      pids[0]
    else
      var front, last := pids[..|pids| - 1], pids[|pids| - 1];
      assert pids == front + [last];
      if last > Newest(front) then last else Newest(front)
  }

  /** Each packet is less than half the number space away from the newest one before it. */
  ghost predicate Paced(pids: seq<int>) {
    forall i :: 0 < i < |pids| ==> -0x8000_0000 <= pids[i] - Newest(pids[..i]) < 0x8000_0000
  }

  /** The window knows exactly the numbers that have arrived and are fewer than 4096 behind the newest. */
  ghost predicate Knows(w: Window, pids: seq<int>) {
    if pids == [] then
      w == EMPTY
    else
      && w.haveTop
      && w.top == Wrapped(Newest(pids))
      && forall b: nat :: b in w.backs <==> b < WINDOW_BITS && (Newest(pids) - b) in pids
  }

  lemma DeltaUnwraps(p: int, top: int)
    requires -HALF <= p - top < HALF
    ensures Delta(Wrapped(p), Wrapped(top)) == p - top
  {
    var a, b := p / TWO_32, top / TWO_32;
    assert p == a * TWO_32 + Wrapped(p) && top == b * TWO_32 + Wrapped(top);
  }

  lemma NewestExtended(pids: seq<int>, p: int)
    ensures pids == [] ==> Newest(pids + [p]) == p
    ensures pids != [] ==> Newest(pids + [p]) == if p > Newest(pids) then p else Newest(pids)
    ensures forall n :: n in pids + [p] <==> n in pids || n == p
  {
    assert (pids + [p])[..|pids|] == pids;
  }

  lemma StepKeepsKnowing(w: Window, pids: seq<int>, p: int)
    requires Knows(w, pids)
    requires pids != [] ==> -HALF <= p - Newest(pids) < HALF
    ensures Knows(Step(w, Wrapped(p)).0, pids + [p])
    ensures Step(w, Wrapped(p)).1 <==> !(p in pids && Newest(pids) - p < WINDOW_BITS)
  {
    hide Delta, Wrapped, Newest;
    NewestExtended(pids, p);
    if pids != [] {
      DeltaUnwraps(p, Newest(pids));
      var back := Newest(pids) - p;
      assert back >= 0 ==> p == Newest(pids) - back;
    }
  }

  lemma PacedSoFar(pids: seq<int>, n: nat)
    requires Paced(pids) && n <= |pids|
    ensures Paced(pids[..n])
  {
    hide Newest;
    forall i | 0 < i < n
      ensures -HALF <= pids[..n][i] - Newest(pids[..n][..i]) < HALF
    {
      assert pids[..n][..i] == pids[..i];
    }
  }

  lemma NothingKnown()
    ensures Knows(After([]), [])
  {
  }

  lemma AfterOneMore(pids: seq<int>, n: nat)
    requires |pids| == n + 1
    ensures After(pids) == Step(After(pids[..n]), Wrapped(pids[n])).0
  {
    hide Step, Wrapped;
  }

  lemma LastIsPaced(pids: seq<int>, n: nat)
    requires Paced(pids) && n < |pids|
    ensures pids[..n] != [] ==> -HALF <= pids[n] - Newest(pids[..n]) < HALF
  {
    hide Newest;
  }

  lemma {:induction false} AfterKnows(pids: seq<int>)
    requires Paced(pids)
    ensures Knows(After(pids), pids)
  {
    hide Step, Newest, Wrapped, Knows, After, Paced;
    if pids == [] {
      NothingKnown();
    } else {
      var n := |pids| - 1;
      PacedSoFar(pids, n);
      LastIsPaced(pids, n);
      AfterKnows(pids[..n]);
      StepKeepsKnowing(After(pids[..n]), pids[..n], pids[n]);
      AfterOneMore(pids, n);
      assert pids[..n] + [pids[n]] == pids;
    }
  }

  /** A packet is dropped exactly when its number arrived before and is fewer than 4096 behind the newest. */
  lemma DropsExactlyKnownNumbers(pids: seq<int>, i: nat)
    requires Paced(pids) && i < |pids|
    ensures Passes(pids, i) <==> !(pids[i] in pids[..i] && Newest(pids[..i]) - pids[i] < 4096)
  {
    hide After, Step, Knows, Newest, Paced;
    PacedSoFar(pids, i);
    LastIsPaced(pids, i);
    AfterKnows(pids[..i]);
    StepKeepsKnowing(After(pids[..i]), pids[..i], pids[i]);
  }

  /** While nothing is 4096 late, each number passes the first time it arrives and never again. */
  lemma EachNumberPassesOnce(pids: seq<int>, i: nat)
    requires Paced(pids) && i < |pids|
    requires forall j :: 0 < j < |pids| ==> Newest(pids[..j]) - pids[j] < 4096
    ensures Passes(pids, i) <==> pids[i] !in pids[..i]
  {
    DropsExactlyKnownNumbers(pids, i);
  }

  function Renumbered(pids: seq<int>, offset: int): seq<int> {
    seq(|pids|, i requires 0 <= i < |pids| => pids[i] + offset)
  }

  lemma {:induction false} NewestRenumbered(pids: seq<int>, offset: int)
    requires pids != []
    ensures Newest(Renumbered(pids, offset)) == Newest(pids) + offset
  {
    var n := |pids| - 1;
    if n > 0 {
      NewestRenumbered(pids[..n], offset);
      assert Renumbered(pids, offset)[..n] == Renumbered(pids[..n], offset);
    }
  }

  lemma PrefixRenumbered(pids: seq<int>, offset: int, j: nat)
    requires 0 < j < |pids|
    ensures Newest(Renumbered(pids, offset)[..j]) == Newest(pids[..j]) + offset
  {
    assert Renumbered(pids, offset)[..j] == Renumbered(pids[..j], offset);
    NewestRenumbered(pids[..j], offset);
  }

  lemma ArrivedRenumbered(pids: seq<int>, offset: int, i: nat)
    requires i < |pids|
    ensures pids[i] + offset in Renumbered(pids, offset)[..i] <==> pids[i] in pids[..i]
  {
    var moved := Renumbered(pids, offset);
    if j :| 0 <= j < i && pids[..i][j] == pids[i] {
      assert moved[..i][j] == moved[i];
    }
    if j :| 0 <= j < i && moved[..i][j] == moved[i] {
      assert pids[..i][j] == pids[i];
    }
  }

  lemma PacedRenumbered(pids: seq<int>, offset: int)
    requires Paced(pids)
    ensures Paced(Renumbered(pids, offset))
  {
    hide Newest;
    var moved := Renumbered(pids, offset);
    forall j | 0 < j < |pids|
      ensures -HALF <= moved[j] - Newest(moved[..j]) < HALF
    {
      PrefixRenumbered(pids, offset, j);
    }
  }

  /** Where in the 32-bit circle a stream of numbers starts, and whether it passes 2^32, changes no verdict. */
  lemma WrapChangesNothing(pids: seq<int>, offset: int, i: nat)
    requires Paced(pids) && i < |pids|
    ensures Passes(Renumbered(pids, offset), i) <==> Passes(pids, i)
  {
    hide Passes, Newest, Paced;
    var moved := Renumbered(pids, offset);
    PacedRenumbered(pids, offset);
    if i > 0 {
      PrefixRenumbered(pids, offset, i);
    }
    ArrivedRenumbered(pids, offset, i);
    DropsExactlyKnownNumbers(pids, i);
    DropsExactlyKnownNumbers(moved, i);
  }

  // ---------------------------------------------------------------- beyond the pace

  /** Some number that arrived, fewer than 4096 behind the newest, looks like `p` modulo 2^32. */
  ghost predicate LooksKnown(pids: seq<int>, p: int)
    requires pids != []
  {
    exists q :: q in pids && Newest(pids) - q < 4096 && q % 0x1_0000_0000 == p % 0x1_0000_0000
  }

  lemma VerdictOfKnowing(w: Window, pids: seq<int>, p: int)
    requires Knows(w, pids) && pids != []
    ensures Step(w, Wrapped(p)).1 <==> !LooksKnown(pids, p)
  {
    hide Newest, Delta;
    var n, delta := Newest(pids), Delta(Wrapped(p), Wrapped(Newest(pids)));
    DeltaIsCongruent(p, n);
    if LooksKnown(pids, p) {
      var q :| q in pids && n - q < 4096 && q % 0x1_0000_0000 == p % 0x1_0000_0000;
      DeltaUnwraps(q, n);
      assert n - q in w.backs;
    }
    if !Step(w, Wrapped(p)).1 {
      assert -delta in w.backs && (n + delta) in pids;
    }
  }

  /** The signed difference leads from the one number to something that looks like the other. */
  lemma DeltaIsCongruent(p: int, top: int)
    ensures Wrapped(top + Delta(Wrapped(p), Wrapped(top))) == Wrapped(p)
  {
  }

  lemma PassesLast(pids: seq<int>, p: int)
    ensures Passes(pids + [p], |pids|) <==> Step(After(pids), Wrapped(p)).1
  {
    assert (pids + [p])[..|pids|] == pids;
  }

  /**
   What becomes of any next number after a paced run, however far ahead or behind: it is dropped if and only if one
   that arrived, fewer than 4096 behind the newest, looks like it modulo 2^32.
   */
  lemma DropsExactlyLookalikes(pids: seq<int>, p: int)
    requires Paced(pids) && pids != []
    ensures Passes(pids + [p], |pids|) <==> !LooksKnown(pids, p)
  {
    hide Step, Knows, After, Passes, LooksKnown;
    AfterKnows(pids);
    VerdictOfKnowing(After(pids), pids, p);
    PassesLast(pids, p);
  }

  /** So a packet any number of full laps away from a recent one is taken for it. */
  lemma FullLapsAreMistaken(pids: seq<int>, q: int, laps: int)
    requires Paced(pids) && q in pids && Newest(pids) - q < 4096
    ensures !Passes(pids + [q + laps * TWO_32], |pids|)
  {
    hide Passes, Newest;
    LapsAround(q, laps);
    assert LooksKnown(pids, q + laps * TWO_32);
    DropsExactlyLookalikes(pids, q + laps * TWO_32);
  }

  lemma LapsAround(q: int, laps: int)
    ensures Wrapped(q + laps * TWO_32) == Wrapped(q)
  {
  }

  function Repeated(p: int, copies: nat): seq<int> {
    seq(copies, _ => p)
  }

  lemma HalfAheadChangesNothing(w: Window, newest: int)
    requires w.haveTop && w.top == Wrapped(newest)
    ensures Step(w, Wrapped(newest + HALF)) == (w, true)
  {
    hide Wrapped;
    HalfAheadIsHalfBehind(newest);
  }

  lemma HalfAheadIsHalfBehind(newest: int)
    ensures Delta(Wrapped(newest + HALF), Wrapped(newest)) == -HALF
  {
    DeltaUnwraps(newest - HALF, newest);
    LapsAround(newest - HALF, 1);
  }

  /**
   The bound of half the space is exact: after any paced run, a number just that far ahead of the newest is taken for
   an old one; it is not remembered, and passes again however often it is repeated.
   */
  lemma {:induction false} HalfAheadIsForgotten(pids: seq<int>, copies: nat)
    requires Paced(pids) && pids != []
    ensures
      var p := Newest(pids) + 0x8000_0000;
      && After(pids + Repeated(p, copies)) == After(pids)
      && Passes(pids + Repeated(p, copies) + [p], |pids| + copies)
    decreases copies
  {
    hide Step, Newest, Paced, Wrapped, Passes;
    var p := Newest(pids) + HALF;
    if copies == 0 {
      assert pids + Repeated(p, 0) == pids;
    } else {
      var before := pids + Repeated(p, copies - 1);
      HalfAheadIsForgotten(pids, copies - 1);
      assert pids + Repeated(p, copies) == before + [p];
      assert (before + [p])[..|before|] == before;
      AfterOneMore(before + [p], |before|);
      AfterKnows(pids);
      HalfAheadChangesNothing(After(pids), Newest(pids));
    }
    AfterKnows(pids);
    HalfAheadChangesNothing(After(pids), Newest(pids));
    PassesLast(pids + Repeated(p, copies), p);
  }
}
