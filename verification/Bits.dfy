/**
 Single bits of machine words. A bit position is an integer; shifting needs it as a bit-vector.
 */
module Bits {

  /** A bit of a word, and the same as a shift amount. */
  type Place32 = i: nat | i < 32
  type Place64 = i: nat | i < 64
  type Shift32 = s: bv8 | s < 32
  type Shift64 = s: bv8 | s < 64

  /** A bit position as a shift amount. */
  function Amount(i: Place64): bv8
  {
    i as bv8
  }

  lemma AmountIsNumber(i: Place64)
    ensures Amount(i) as int == i
  {
  }

  lemma NextNumber(a: bv8, b: bv8)
    requires a as int == b as int + 1
    ensures a == b + 1
  {
  }

  lemma SmallNumber(a: bv8, i: Place64)
    requires a as int == i
    ensures a < 64
  {
  }

  lemma AmountSmall(i: Place64)
    ensures Amount(i) < 64
  {
    hide Amount;
    AmountIsNumber(i);
    SmallNumber(Amount(i), i);
  }

  lemma AmountStep(i: nat)
    requires 1 <= i < 64
    ensures Amount(i) == Amount(i - 1) + 1 && Amount(i) < 64
  {
    hide Amount;
    AmountSmall(i);
    AmountIsNumber(i);
    AmountIsNumber(i - 1);
    NextNumber(Amount(i), Amount(i - 1));
  }

  lemma AmountZero()
    ensures Amount(0) == 0
  {
  }

  /** Shift amounts subtract and compare like the positions they stand for. */
  lemma {:induction false} AmountDifference(a: nat, b: nat)
    requires b <= a < 64
    ensures Amount(a - b) == Amount(a) - Amount(b) && Amount(b) <= Amount(a) < 64
    ensures b < a ==> Amount(b) < Amount(a)
  {
    hide Amount;
    AmountZero();
    if b > 0 {
      AmountDifference(a - 1, b - 1);
      AmountStep(a);
      AmountStep(b);
    } else if a > 0 {
      AmountDifference(a - 1, 0);
      AmountStep(a);
    }
  }

  lemma AmountBound(n: nat, a: nat)
    requires a < n < 64
    ensures Amount(a) < Amount(n)
  {
    AmountDifference(n, a);
  }

  lemma AmountOf32()
    ensures Amount(32) == 32
  {
  }

  // ---------------------------------------------------------------- 32-bit words

  predicate Has(w: bv32, i: Place32)
  {
    (w >> Amount(i)) & 1 == 1
  }

  lemma ShiftLeft32(w: bv32, s: Shift32, i: Shift32)
    ensures ((w << s) >> i) & 1 == if i >= s then (w >> (i - s)) & 1 else 0
  {
  }

  lemma ShiftRight32(w: bv32, s: bv8, i: Shift32)
    requires 0 < s < 32
    ensures ((w >> (32 - s)) >> i) & 1 == if i < s then (w >> (i + (32 - s))) & 1 else 0
  {
  }

  lemma Single32(i: Shift32, j: Shift32)
    ensures (((1 as bv32) << i) >> j) & 1 == if i == j then 1 else 0
  {
  }

  lemma Or32(v: bv32, w: bv32, i: Shift32)
    ensures ((v | w) >> i) & 1 == ((v >> i) & 1) | ((w >> i) & 1)
    ensures (v >> i) & 1 == 0 || (v >> i) & 1 == 1
  {
  }

  function Up(w: bv32, s: Place32): bv32
  {
    AmountSmall32(s);
    w << Amount(s)
  }

  function Down(w: bv32, s: Place32): bv32
  {
    AmountSmall32(s);
    w >> Amount(s)
  }

  function Union(v: bv32, w: bv32): bv32 {
    v | w
  }

  lemma AmountSmall32(i: Place32)
    ensures Amount(i) < 32
  {
    hide Amount;
    AmountOf32();
    AmountBound(32, i);
  }

  lemma HasUp(w: bv32, s: Place32, i: Place32)
    ensures Has(Up(w, s), i) <==> i >= s && Has(w, i - s)
  {
    hide Amount;
    AmountSmall32(s);
    AmountSmall32(i);
    ShiftLeft32(w, Amount(s), Amount(i));
    if i >= s {
      AmountDifference(i, s);
    } else {
      AmountDifference(s, i);
    }
  }

  lemma HasDown(w: bv32, s: nat, i: Place32)
    requires 0 < s < 32
    ensures Has(Down(w, 32 - s), i) <==> i < s && Has(w, i + 32 - s)
  {
    hide Amount;
    AmountOf32();
    AmountZero();
    AmountDifference(32, s);
    AmountSmall32(s);
    AmountSmall32(i);
    AmountBound(s, 0);
    ShiftRight32(w, Amount(s), Amount(i));
    if i < s {
      AmountDifference(s, i);
      AmountDifference(i + (32 - s), i);
    } else {
      AmountDifference(i, s);
    }
  }

  lemma HasSingle(i: Place32, j: Place32)
    ensures Has(Up(1, i), j) <==> i == j
  {
    hide Amount;
    AmountSmall32(i);
    AmountSmall32(j);
    Single32(Amount(i), Amount(j));
    if i < j {
      AmountDifference(j, i);
    } else {
      AmountDifference(i, j);
    }
  }

  lemma HasUnion(v: bv32, w: bv32, i: Place32)
    ensures Has(Union(v, w), i) <==> Has(v, i) || Has(w, i)
  {
    hide Amount;
    AmountSmall32(i);
    Or32(v, w, Amount(i));
    Or32(w, v, Amount(i));
  }

  lemma HasNone(i: Place32)
    ensures !Has(0, i)
  {
    hide Amount;
    AmountSmall32(i);
    NoBits32(Amount(i));
  }

  lemma NoBits32(i: Shift32)
    ensures ((0 as bv32) >> i) & 1 == 0
  {
  }

  lemma UnionOfNone()
    ensures Union(0, 0) == 0
  {
  }

  // Tests and masks at a shift amount; the solver proves them one case at a time.

  predicate Test32(w: bv32, i: bv8) {
    i < 32 && (w >> i) & 1 == 1
  }

  predicate MaskTest32(w: bv32, i: bv8) {
    i < 32 && w & ((1 as bv32) << i) != 0
  }

  function Cleared32(w: bv32, i: bv8): bv32 {
    if i < 32 then w & !((1 as bv32) << i) else w
  }

  lemma MaskOn32(w: bv32, i: bv8)
    requires Test32(w, i)
    ensures MaskTest32(w, i)
  {
  }

  lemma MaskOff32(w: bv32, i: bv8)
    requires MaskTest32(w, i)
    ensures Test32(w, i)
  {
  }

  lemma ClearedHere32(w: bv32, i: Shift32)
    ensures !Test32(Cleared32(w, i), i)
  {
  }

  lemma ClearedKeeps32(w: bv32, i: bv8, j: bv8)
    requires i != j && Test32(w, j)
    ensures Test32(Cleared32(w, i), j)
  {
  }

  lemma ClearedAddsNothing32(w: bv32, i: bv8, j: bv8)
    requires Test32(Cleared32(w, i), j)
    ensures Test32(w, j)
  {
  }

  lemma HasIsTest(w: bv32, i: Place32)
    ensures Has(w, i) <==> Test32(w, Amount(i))
  {
    hide Amount;
    AmountSmall32(i);
  }

  /** Testing a bit through a mask, as the source does. */
  predicate IsOn(w: bv32, i: Place32)
  {
    MaskTest32(w, Amount(i))
  }

  /** Clearing a bit through the complement of a mask. */
  function Without(w: bv32, i: Place32): bv32
  {
    Cleared32(w, Amount(i))
  }

  lemma IsOnIsHas(w: bv32, i: Place32)
    ensures IsOn(w, i) <==> Has(w, i)
  {
    hide Amount, Has, Test32, MaskTest32;
    HasIsTest(w, i);
    if Has(w, i) {
      MaskOn32(w, Amount(i));
    }
    if IsOn(w, i) {
      MaskOff32(w, Amount(i));
    }
  }

  lemma HasWithout(w: bv32, i: Place32, j: Place32)
    ensures Has(Without(w, i), j) <==> Has(w, j) && i != j
  {
    hide Amount, Has, Test32, Cleared32;
    HasIsTest(w, j);
    HasIsTest(Without(w, i), j);
    AmountSmall32(i);
    if i == j {
      ClearedHere32(w, Amount(i));
    } else {
      AmountsDiffer(i, j);
      if Has(w, j) {
        ClearedKeeps32(w, Amount(i), Amount(j));
      }
      if Has(Without(w, i), j) {
        ClearedAddsNothing32(w, Amount(i), Amount(j));
      }
    }
  }

  lemma AmountsDiffer(i: Place64, j: Place64)
    requires i != j
    ensures Amount(i) != Amount(j)
  {
    hide Amount;
    if i < j {
      AmountDifference(j, i);
    } else {
      AmountDifference(i, j);
    }
  }

  // ---------------------------------------------------------------- arrays of 32-bit words

  /** Bit `b` of a bit array kept in words. */
  predicate BitAt(words: seq<bv32>, b: nat)
    requires b < 32 * |words|
  {
    Has(words[b / 32], b % 32)
  }

  lemma BitSet(words: seq<bv32>, b: nat, c: nat)
    requires b < 32 * |words| && c < 32 * |words|
    ensures BitAt(words[b / 32 := Union(words[b / 32], Up(1, b % 32))], c) <==> BitAt(words, c) || c == b
  {
    hide Has, Up, Union;
    if c / 32 == b / 32 {
      HasUnion(words[b / 32], Up(1, b % 32), c % 32);
      HasSingle(b % 32, c % 32);
    }
  }

  lemma BitCleared(words: seq<bv32>, b: nat, c: nat)
    requires b < 32 * |words| && c < 32 * |words|
    ensures BitAt(words[b / 32 := Without(words[b / 32], b % 32)], c) <==> BitAt(words, c) && c != b
  {
    hide Has, Without;
    if c / 32 == b / 32 {
      HasWithout(words[b / 32], b % 32, c % 32);
    }
  }

  /** The set bits of a word among its first `n`; all 32 of them is what the processor counts. */
  function OnesBelow(w: bv32, n: nat): nat
    requires n <= 32
  {
    if n == 0 then 0 else OnesBelow(w, n - 1) + if Has(w, n - 1) then 1 else 0
  }

  function CountOnes(w: bv32): nat {
    OnesBelow(w, 32)
  }

  ghost function BitsBelow(words: seq<bv32>, n: nat): set<nat>
    requires n <= 32 * |words|
  {
    set b: nat | b < n && BitAt(words, b)
  }

  lemma {:induction false} OnesAreBits(words: seq<bv32>, k: nat, n: nat)
    requires k < |words| && n <= 32
    ensures |BitsBelow(words, 32 * k + n)| == |BitsBelow(words, 32 * k)| + OnesBelow(words[k], n)
  {
    hide Has;
    if n > 0 {
      var b := 32 * k + n - 1;
      OnesAreBits(words, k, n - 1);
      assert b / 32 == k && b % 32 == n - 1;
      var below := BitsBelow(words, b);
      assert BitsBelow(words, b + 1) == if BitAt(words, b) then below + {b} else below;
    }
  }

  // ---------------------------------------------------------------- 64-bit words

  predicate Has64(w: bv64, i: Place64)
  {
    AmountSmall(i);
    (w >> Amount(i)) & 1 == 1
  }

  predicate Sum(a: bv8, b: bv8, c: bv8)
  {
    a < 64 && b < 64 && c < 64 && a + b == c
  }

  lemma AmountSum(a: nat, b: nat, c: nat)
    requires a + b == c < 64
    ensures Sum(Amount(a), Amount(b), Amount(c))
  {
    hide Amount;
    AmountDifference(c, b);
    AmountDifference(c, a);
  }

  /** Shifting by `s` puts at place `i` what was at place `d`. */
  predicate Moved(w: bv64, s: bv8, i: bv8, d: bv8)
  {
    s < 64 && i < 64 && d < 64 && ((w << s) >> i) & 1 == (w >> d) & 1
  }

  lemma MovesOne(w: bv64, s: Shift64, i: Shift64, d: Shift64)
    requires s + d == i
    requires (w >> d) & 1 == 1
    ensures ((w << s) >> i) & 1 == 1
  {
  }

  lemma MovesZero(w: bv64, s: Shift64, i: Shift64, d: Shift64)
    requires s + d == i
    requires (w >> d) & 1 == 0
    ensures ((w << s) >> i) & 1 == 0
  {
  }

  lemma ZeroOrOne64(w: bv64, i: Shift64)
    ensures (w >> i) & 1 == 0 || (w >> i) & 1 == 1
  {
  }

  lemma MovedOne(w: bv64, s: bv8, i: bv8, d: bv8)
    requires Sum(s, d, i) && (w >> d) & 1 == 1
    ensures Moved(w, s, i, d)
  {
    MovesOne(w, s, i, d);
  }

  lemma MovedZero(w: bv64, s: bv8, i: bv8, d: bv8)
    requires Sum(s, d, i) && (w >> d) & 1 == 0
    ensures Moved(w, s, i, d)
  {
    MovesZero(w, s, i, d);
  }

  lemma ShiftMoves(w: bv64, s: bv8, i: bv8, d: bv8)
    requires Sum(s, d, i)
    ensures Moved(w, s, i, d)
  {
    hide Moved;
    ZeroOrOne64(w, d);
    if (w >> d) & 1 == 1 {
      MovedOne(w, s, i, d);
    } else {
      MovedZero(w, s, i, d);
    }
  }

  lemma AmountsMove(w: bv64, s: nat, i: nat)
    requires s <= i < 64
    ensures Moved(w, Amount(s), Amount(i), Amount(i - s))
  {
    hide Amount, Sum, Moved;
    AmountSum(s, i - s, i);
    ShiftMoves(w, Amount(s), Amount(i), Amount(i - s));
  }

  lemma Has64Moved(w: bv64, s: nat, i: nat)
    requires s <= i < 64
    requires Amount(s) < 64
    requires Moved(w, Amount(s), Amount(i), Amount(i - s))
    ensures Has64(w << Amount(s), i) <==> Has64(w, i - s)
  {
    hide Amount, Sum;
  }

  lemma Has64ShiftLeft(w: bv64, s: nat, i: nat)
    requires s <= i < 64
    ensures Amount(s) < 64
    ensures Has64(w << Amount(s), i) <==> Has64(w, i - s)
  {
    hide Amount, Sum, Moved, Has64;
    AmountSmall(s);
    AmountsMove(w, s, i);
    Has64Moved(w, s, i);
  }

  lemma ShiftedIn64(w: bv64, s: bv8, i: bv8)
    requires i < s < 64
    ensures ((w << s) >> i) & 1 == 0
  {
  }

  lemma Has64ShiftedIn(w: bv64, s: nat, i: nat)
    requires i < s < 64
    ensures Amount(s) < 64
    ensures !Has64(w << Amount(s), i)
  {
    hide Amount;
    AmountDifference(s, i);
    ShiftedIn64(w, Amount(s), Amount(i));
  }

  lemma Single64(i: Shift64, j: Shift64)
    ensures (((1 as bv64) << i) >> j) & 1 == if i == j then 1 else 0
  {
  }

  lemma Has64Single(i: Place64, j: Place64)
    ensures Amount(i) < 64
    ensures Has64((1 as bv64) << Amount(i), j) <==> i == j
  {
    hide Amount;
    AmountSmall(i);
    AmountSmall(j);
    Single64(Amount(i), Amount(j));
    if i < j {
      AmountDifference(j, i);
    } else {
      AmountDifference(i, j);
    }
  }

  lemma Or64(v: bv64, w: bv64, i: Shift64)
    ensures ((v | w) >> i) & 1 == ((v >> i) & 1) | ((w >> i) & 1)
    ensures (v >> i) & 1 == 0 || (v >> i) & 1 == 1
  {
  }

  lemma Has64Or(v: bv64, w: bv64, i: Place64)
    ensures Has64(v | w, i) <==> Has64(v, i) || Has64(w, i)
  {
    hide Amount;
    AmountSmall(i);
    Or64(v, w, Amount(i));
    Or64(w, v, Amount(i));
  }

  lemma NoBits64(i: Shift64)
    ensures ((0 as bv64) >> i) & 1 == 0
  {
  }

  lemma Has64None(i: Place64)
    ensures !Has64(0, i)
  {
    hide Amount;
    AmountSmall(i);
    NoBits64(Amount(i));
  }

  predicate Test64(w: bv64, i: bv8) {
    i < 64 && (w >> i) & 1 == 1
  }

  predicate MaskTest64(w: bv64, i: bv8) {
    i < 64 && w & ((1 as bv64) << i) != 0
  }

  lemma MaskOn64(w: bv64, i: bv8)
    requires Test64(w, i)
    ensures MaskTest64(w, i)
  {
  }

  lemma MaskOff64(w: bv64, i: bv8)
    requires MaskTest64(w, i)
    ensures Test64(w, i)
  {
  }

  lemma HasIsTest64(w: bv64, i: Place64)
    ensures Has64(w, i) <==> Test64(w, Amount(i))
  {
    hide Amount;
    AmountSmall(i);
  }

  predicate IsOn64(w: bv64, i: Place64)
  {
    MaskTest64(w, Amount(i))
  }

  lemma IsOnIsHas64(w: bv64, i: Place64)
    ensures IsOn64(w, i) <==> Has64(w, i)
  {
    hide Amount, Has64, Test64, MaskTest64;
    HasIsTest64(w, i);
    if Has64(w, i) {
      MaskOn64(w, Amount(i));
    }
    if IsOn64(w, i) {
      MaskOff64(w, Amount(i));
    }
  }

  function Up64(w: bv64, s: Place64): bv64
  {
    AmountSmall(s);
    w << Amount(s)
  }

  function Union64(v: bv64, w: bv64): bv64 {
    v | w
  }

  lemma HasUp64(w: bv64, s: Place64, i: Place64)
    ensures Has64(Up64(w, s), i) <==> i >= s && Has64(w, i - s)
  {
    hide Amount, Has64;
    if i >= s {
      Has64ShiftLeft(w, s, i);
    } else {
      Has64ShiftedIn(w, s, i);
    }
  }

  lemma HasSingle64(i: Place64, j: Place64)
    ensures Has64(Up64(1, i), j) <==> i == j
  {
    hide Amount, Has64;
    Has64Single(i, j);
  }

  lemma HasUnion64(v: bv64, w: bv64, i: Place64)
    ensures Has64(Union64(v, w), i) <==> Has64(v, i) || Has64(w, i)
  {
    hide Amount, Has64;
    Has64Or(v, w, i);
  }

  lemma HasOne64(i: Place64)
    ensures Has64(1, i) <==> i == 0
  {
    hide Amount;
    AmountZero();
    AmountSmall(i);
    One64(Amount(i));
    if i > 0 {
      AmountDifference(i, 0);
    }
  }

  lemma One64(i: Shift64)
    ensures ((1 as bv64) >> i) & 1 == if i == 0 then 1 else 0
  {
  }
}
