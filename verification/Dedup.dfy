/**
 The window that throws away packets which arrived by two paths (dedup.rs). 4096 bits are kept in 128 words
 of 32; bit `b` stands for the packet number `b` behind the newest. Numbers are 32-bit and wrap around.
 */
module Dedup {
  import opened Prelude
  import opened Bits

  const WINDOW_BITS: nat := 4096
  const WORDS: nat := WINDOW_BITS / 32
  const HALF: int := 0x8000_0000

  // ---------------------------------------------------------------- what the window means

  /** What a window remembers: the newest number, and how far behind it the other remembered ones are. */
  datatype Window = Window(haveTop: bool, top: U32, backs: set<nat>)

  const EMPTY: Window := Window(false, 0, {})

  /** A number taken modulo 2^32. */
  function Wrapped(n: int): U32 {
    n % TWO_32
  }

  /** Difference of two wrapped numbers, read as a signed 32-bit number. */
  function Delta(pid: U32, top: U32): int {
    var d := (pid - top) % TWO_32;
    if d >= HALF then d - TWO_32 else d
  }

  /** Every remembered number falls `shift` further behind; those that fall out of the window are gone. */
  ghost function Shifted(backs: set<nat>, shift: nat): set<nat> {
    set b: nat | b < WINDOW_BITS && WasBehind(backs, shift, b)
  }

  ghost predicate WasBehind(backs: set<nat>, shift: nat, b: nat) {
    b >= shift && (b - shift) in backs
  }

  /** One arriving number: the window afterwards, and whether the packet passes. */
  ghost function Step(w: Window, pid: U32): (Window, bool) {
    if !w.haveTop then
      (Window(true, pid, w.backs + {0}), true)
    else
      var delta := Delta(pid, w.top);
      if delta > 0 then
        (Window(true, pid, Shifted(w.backs, delta) + {0}), true)
      else if -delta >= WINDOW_BITS then
        (w, true)
      else if -delta in w.backs then
        (w, false)
      else
        (w.(backs := w.backs + {-delta}), true)
  }

  // ---------------------------------------------------------------- the words

  /** The positions whose bits are set. */
  ghost function BacksOf(words: seq<bv32>): set<nat>
    requires |words| == WORDS
  {
    set b: nat | b < WINDOW_BITS && BitAt(words, b)
  }

  /** Word `k` of the window moved by `shift`, put together from two neighbouring words. */
  function ShiftedWord(words: seq<bv32>, shift: nat, k: nat): bv32
    requires |words| == WORDS && k < WORDS && shift < WINDOW_BITS
  {
    var wordShift, bitShift := shift / 32, shift % 32;
    if bitShift == 0 then
      if k >= wordShift then words[k - wordShift] else 0
    else
      var hi := if k >= wordShift then Up(words[k - wordShift], bitShift) else 0;
      var lo := if k > wordShift then Down(words[k - wordShift - 1], 32 - bitShift) else 0;
      Union(hi, lo)
  }

  /** A word moved by whole words and a few bits holds exactly the bits that were `shift` places lower. */
  lemma ShiftedWordBits(words: seq<bv32>, shift: nat, k: nat, j: nat)
    requires |words| == WORDS && k < WORDS && shift < WINDOW_BITS && j < 32
    ensures Has(ShiftedWord(words, shift, k), j)
            <==> 32 * k + j >= shift && BitAt(words, 32 * k + j - shift)
  {
    hide Has, Up, Down, Union;
    var wordShift, bitShift := shift / 32, shift % 32;
    HasNone(j);
    Place(k, j, shift);
    if bitShift > 0 {
      var hi := if k >= wordShift then Up(words[k - wordShift], bitShift) else 0;
      var lo := if k > wordShift then Down(words[k - wordShift - 1], 32 - bitShift) else 0;
      HasUnion(hi, lo, j);
      if k >= wordShift {
        HasUp(words[k - wordShift], bitShift, j);
      }
      if k > wordShift {
        HasDown(words[k - wordShift - 1], bitShift, j);
      }
    }
  }

  /** Where the bit `shift` places below bit `j` of word `k` lies. */
  lemma Place(k: nat, j: nat, shift: nat)
    requires j < 32
    ensures 32 * k + j >= shift <==> k > shift / 32 || (k == shift / 32 && j >= shift % 32)
    ensures k >= shift / 32 && j >= shift % 32 ==>
              (32 * k + j - shift) / 32 == k - shift / 32 && (32 * k + j - shift) % 32 == j - shift % 32
    ensures k > shift / 32 && j < shift % 32 ==>
              (32 * k + j - shift) / 32 == k - shift / 32 - 1 && (32 * k + j - shift) % 32 == j + 32 - shift % 32
  {
  }

  class DedupWindow {
    var top: U32
    var haveTop: bool
    const seen: array<bv32>

    ghost predicate Valid()
      reads this, seen
    {
      seen.Length == WORDS && (!haveTop ==> forall b: nat | b < WINDOW_BITS :: !BitAt(seen[..], b))
    }

    ghost function Backs(): set<nat>
      requires seen.Length == WORDS
      reads seen
    {
      BacksOf(seen[..])
    }

    ghost function Value(): Window
      requires seen.Length == WORDS
      reads this, seen
    {
      Window(haveTop, top, Backs())
    }

    constructor ()
      ensures Valid() && fresh(seen) && Value() == EMPTY
    {
      top := 0;
      haveTop := false;
      seen := new bv32[WORDS](_ => 0);
      new;
      hide Has;
      forall b: nat | b < WINDOW_BITS
        ensures !BitAt(seen[..], b)
      {
        HasNone(b % 32);
      }
    }

    method Bit(back: nat) returns (on: bool)
      requires seen.Length == WORDS && back < WINDOW_BITS
      ensures on <==> back in Backs()
    {
      hide Has, IsOn;
      IsOnIsHas(seen[back / 32], back % 32);
      on := IsOn(seen[back / 32], back % 32);
    }

    method SetBit(back: nat)
      requires seen.Length == WORDS && back < WINDOW_BITS
      modifies seen
      ensures Backs() == old(Backs()) + {back}
    {
      hide Has, Up, Union;
      ghost var was := seen[..];
      seen[back / 32] := Union(seen[back / 32], Up(1, back % 32));
      forall b: nat | b < WINDOW_BITS
        ensures BitAt(seen[..], b) <==> BitAt(was, b) || b == back
      {
        BitSet(was, back, b);
      }
    }

    method Clear()
      requires seen.Length == WORDS
      modifies seen
      ensures Backs() == {}
    {
      hide Has;
      forall k | 0 <= k < WORDS {
        seen[k] := 0;
      }
      forall b: nat | b < WINDOW_BITS
        ensures !BitAt(seen[..], b)
      {
        HasNone(b % 32);
      }
    }

    /** Moves the whole window `shift` places back, word by word from the far end. */
    method ShiftBy(shift: nat)
      requires seen.Length == WORDS
      modifies seen
      ensures Backs() == Shifted(old(Backs()), shift)
    {
      hide BitAt, BacksOf, Shifted, ShiftedWord;
      ghost var was := seen[..];
      if shift >= WINDOW_BITS {
        NothingStays(BacksOf(was), shift);
        Clear();
        return;
      }
      var wordShift, bitShift := shift / 32, shift % 32;
      if bitShift == 0 {
        MoveWords(wordShift);
      } else {
        MoveBits(wordShift, bitShift);
      }
      ClearFirst(wordShift, was, shift);
      BacksFollowWords(was, shift, seen[..]);
    }

    method ClearFirst(wordShift: nat, ghost was: seq<bv32>, ghost shift: nat)
      requires seen.Length == WORDS == |was| && shift < WINDOW_BITS && wordShift == shift / 32
      requires forall k :: wordShift <= k < WORDS ==> seen[k] == ShiftedWord(was, shift, k)
      modifies seen
      ensures forall k :: 0 <= k < WORDS ==> seen[k] == ShiftedWord(was, shift, k)
    {
      hide ShiftedWord;
      var w := 0;
      while w < Min(wordShift, WORDS)
        invariant 0 <= w <= wordShift
        invariant forall k :: 0 <= k < w || wordShift <= k < WORDS ==> seen[k] == ShiftedWord(was, shift, k)
      {
        FirstWordsAreEmpty(was, shift, w);
        seen[w] := 0;
        w := w + 1;
      }
    }

    method MoveWords(wordShift: nat)
      requires seen.Length == WORDS && wordShift < WORDS
      modifies seen
      ensures forall k :: wordShift <= k < WORDS ==> seen[k] == ShiftedWord(old(seen[..]), 32 * wordShift, k)
    {
      hide Up, Down, Union;
      ghost var was := seen[..];
      var i := WORDS;
      while i > wordShift
        invariant wordShift <= i <= WORDS
        invariant forall k :: 0 <= k < i ==> seen[k] == was[k]
        invariant forall k :: i <= k < WORDS ==> seen[k] == ShiftedWord(was, 32 * wordShift, k)
      {
        i := i - 1;
        seen[i] := seen[i - wordShift];
      }
    }

    method MoveBits(wordShift: nat, bitShift: nat)
      requires seen.Length == WORDS && wordShift < WORDS && 0 < bitShift < 32
      modifies seen
      ensures forall k :: 0 <= k < WORDS ==> seen[k] == ShiftedWord(old(seen[..]), 32 * wordShift + bitShift, k)
    {
      hide Up, Down, Union;
      ghost var was := seen[..];
      var i := WORDS;
      while i > 0
        invariant 0 <= i <= WORDS
        invariant forall k :: 0 <= k < i ==> seen[k] == was[k]
        invariant forall k :: i <= k < WORDS ==> seen[k] == ShiftedWord(was, 32 * wordShift + bitShift, k)
      {
        i := i - 1;
        var hi := if i >= wordShift then Up(seen[i - wordShift], bitShift) else 0;
        var lo := if i > wordShift then Down(seen[i - wordShift - 1], 32 - bitShift) else 0;
        seen[i] := Union(hi, lo);
      }
    }

    /** Whether the packet is new as far as the window can tell; the window remembers it. */
    method Seen(pid: U32) returns (isNew: bool)
      requires Valid()
      modifies this, seen
      ensures Valid() && (Value(), isNew) == Step(old(Value()), pid)
    {
      hide BitAt;
      if !haveTop {
        haveTop := true;
        top := pid;
        SetBit(0);
        return true;
      }
      var delta := Delta(pid, top);
      if delta > 0 {
        ShiftBy(delta);
        top := pid;
        SetBit(0);
        return true;
      }
      var back := -delta;
      if back >= WINDOW_BITS {
        return true;
      }
      var on := Bit(back);
      if on {
        return false;
      }
      SetBit(back);
      return true;
    }

    /** A packet without a number always passes and leaves the window alone. */
    method Admit(pid: Option<U32>) returns (pass: bool)
      requires Valid()
      modifies this, seen
      ensures Valid()
      ensures (Value(), pass) ==
              match pid case None => (old(Value()), true) case Some(p) => Step(old(Value()), p)
    {
      match pid
      case None => return true;
      case Some(p) => pass := Seen(p);
    }
  }

  lemma FirstWordsAreEmpty(words: seq<bv32>, shift: nat, k: nat)
    requires |words| == WORDS && shift < WINDOW_BITS && k < shift / 32
    ensures k < WORDS && ShiftedWord(words, shift, k) == 0
  {
    UnionOfNone();
  }

  lemma NothingStays(backs: set<nat>, shift: nat)
    requires shift >= WINDOW_BITS
    ensures Shifted(backs, shift) == {}
  {
  }

  lemma BacksFollowWords(was: seq<bv32>, shift: nat, words: seq<bv32>)
    requires |was| == |words| == WORDS && shift < WINDOW_BITS
    requires forall k :: 0 <= k < WORDS ==> words[k] == ShiftedWord(was, shift, k)
    ensures BacksOf(words) == Shifted(BacksOf(was), shift)
  {
    hide Has, ShiftedWord;
    forall b: nat | b < WINDOW_BITS
      ensures BitAt(words, b) <==> WasBehind(BacksOf(was), shift, b)
    {
      ShiftedWordBits(was, shift, b / 32, b % 32);
    }
  }
}
