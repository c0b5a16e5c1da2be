/** Masking a packet with a cycled 16-byte key, done in blocks of whatever width the processor offers (xor.rs). */
module Xor {
  import opened Prelude
  import opened Packets

  const KEY_LEN: nat := 16
  const WIDEST: nat := 64

  type Key = k: seq<Byte> | |k| == KEY_LEN witness seq(KEY_LEN, _ => 0)

  /** Exclusive or of the lowest `width` binary digits. */
  function XorBits(a: nat, b: nat, width: nat): (r: nat)
    ensures r < Power2(width)
  {
    if width == 0 then 0 else (if a % 2 == b % 2 then 0 else 1) + 2 * XorBits(a / 2, b / 2, width - 1)
  }

  lemma {:induction false} XorBitsTwice(a: nat, b: nat, width: nat)
    requires a < Power2(width)
    ensures XorBits(XorBits(a, b, width), b, width) == a
  {
    if width > 0 {
      XorBitsTwice(a / 2, b / 2, width - 1);
      assert XorBits(a, b, width) / 2 == XorBits(a / 2, b / 2, width - 1);
    }
  }

  function XorByte(a: Byte, b: Byte): Byte {
    PowerOf8();
    XorBits(a, b, 8)
  }

  lemma PowerOf8()
    ensures Power2(8) == 256
  {
    assert Power2(4) == 16;
  }

  lemma XorTwice(a: Byte, b: Byte)
    ensures XorByte(XorByte(a, b), b) == a
  {
    PowerOf8();
    XorBitsTwice(a, b, 8);
  }

  /** The masked bytes: byte `i` against byte `i` of the key repeated over and over. */
  function Cycled(data: seq<Byte>, key: Key): (r: seq<Byte>)
    ensures |r| == |data|
  {
    seq(|data|, i requires 0 <= i < |data| => XorByte(data[i], key[i % KEY_LEN]))
  }

  lemma CycledTwice(data: seq<Byte>, key: Key)
    ensures Cycled(Cycled(data, key), key) == data
  {
    hide XorByte;
    forall i | 0 <= i < |data|
      ensures Cycled(Cycled(data, key), key)[i] == data[i]
    {
      XorTwice(data[i], key[i % KEY_LEN]);
    }
  }

  predicate IsPad(pad: seq<Byte>, key: Key) {
    |pad| == WIDEST && forall i :: 0 <= i < WIDEST ==> pad[i] == key[i % KEY_LEN]
  }

  /** The key repeated up to the widest block. */
  method Expand(key: Key) returns (pad: array<Byte>)
    ensures fresh(pad) && IsPad(pad[..], key)
  {
    pad := new Byte[WIDEST](_ => 0);
    var block := 0;
    while block < WIDEST
      invariant 0 <= block <= WIDEST && block % KEY_LEN == 0
      invariant forall i :: 0 <= i < block ==> pad[i] == key[i % KEY_LEN]
    {
      forall j | 0 <= j < KEY_LEN {
        pad[block + j] := key[j];
      }
      block := block + KEY_LEN;
    }
  }

  /** The bytes from `from` on are as they were; those before are masked. */
  predicate MaskedUpTo(data: seq<Byte>, was: seq<Byte>, key: Key, from: nat) {
    && from <= |data| == |was|
    && (forall i :: 0 <= i < from ==> data[i] == XorByte(was[i], key[i % KEY_LEN]))
    && data[from..] == was[from..]
  }

  /** Masks the whole blocks of width `n` from `from` on; what is left over starts at `rest`. */
  method XorBlocks(data: array<Byte>, from: nat, to: nat, pad: array<Byte>, n: nat,
                   ghost key: Key, ghost was: seq<Byte>) returns (rest: nat)
    requires n == 16 || n == 32 || n == 64
    requires from <= to <= data.Length && from % KEY_LEN == 0
    requires data != pad && IsPad(pad[..], key) && MaskedUpTo(data[..], was, key, from)
    modifies data
    ensures from <= rest <= to < rest + n && rest % KEY_LEN == 0
    ensures MaskedUpTo(data[..], was, key, rest)
  {
    hide XorByte;
    rest := from;
    while rest + n <= to
      invariant from <= rest <= to && rest % KEY_LEN == 0
      invariant IsPad(pad[..], key) && MaskedUpTo(data[..], was, key, rest)
    {
      XorBlock(data, rest, n, pad, key, was);
      rest := rest + n;
      assert n % KEY_LEN == 0;
    }
  }

  method XorBlock(data: array<Byte>, from: nat, n: nat, pad: array<Byte>, ghost key: Key, ghost was: seq<Byte>)
    requires n <= WIDEST && from + n <= data.Length && from % KEY_LEN == 0
    requires data != pad && IsPad(pad[..], key) && MaskedUpTo(data[..], was, key, from)
    modifies data
    ensures MaskedUpTo(data[..], was, key, from + n)
  {
    hide XorByte, MaskedUpTo, IsPad;
    var j := 0;
    while j < n
      invariant 0 <= j <= n && IsPad(pad[..], key)
      invariant MaskedUpTo(data[..], was, key, from + j)
    {
      SamePhase(from, j);
      PadAt(pad[..], key, j);
      NextByte(data[..], was, key, from + j);
      data[from + j] := XorByte(data[from + j], pad[j]);
      j := j + 1;
    }
  }

  lemma SamePhase(from: nat, j: nat)
    requires from % KEY_LEN == 0
    ensures (from + j) % KEY_LEN == j % KEY_LEN
  {
  }

  lemma PadAt(pad: seq<Byte>, key: Key, j: nat)
    requires IsPad(pad, key) && j < WIDEST
    ensures |pad| == WIDEST && pad[j] == key[j % KEY_LEN]
  {
  }

  lemma NextByte(data: seq<Byte>, was: seq<Byte>, key: Key, at: nat)
    requires MaskedUpTo(data, was, key, at) && at < |data|
    ensures data[at] == was[at]
    ensures MaskedUpTo(data[at := XorByte(data[at], key[at % KEY_LEN])], was, key, at + 1)
  {
    hide XorByte;
    assert data[at..][0] == was[at..][0];
    assert data[at := XorByte(data[at], key[at % KEY_LEN])][at + 1..] == data[at..][1..];
    assert was[at + 1..] == was[at..][1..];
  }

  /** Blocks of the width at hand, then blocks of the key's length, then single bytes. */
  method XorWide(data: array<Byte>, to: nat, pad: array<Byte>, n: nat, ghost key: Key)
    requires n == 16 || n == 32 || n == 64
    requires to <= data.Length && data != pad && IsPad(pad[..], key)
    modifies data
    ensures data[..] == Cycled(old(data[..to]), key) + old(data[to..])
  {
    hide XorByte;
    ghost var was := data[..];
    var rest := XorBlocks(data, 0, to, pad, n, key, was);
    rest := XorBlocks(data, rest, to, pad, KEY_LEN, key, was);
    XorBlock(data, rest, to - rest, pad, key, was);
    assert data[..to] == Cycled(was[..to], key);
  }

  /** Masks the first `to` bytes in place, whichever block width the processor was found to have. */
  method XorInPlace(data: array<Byte>, to: nat, key: Key, width: nat)
    requires width == 16 || width == 32 || width == 64
    requires to <= data.Length
    modifies data
    ensures data[..] == Cycled(old(data[..to]), key) + old(data[to..])
  {
    var pad := Expand(key);
    XorWide(data, to, pad, width, key);
  }

  /** Digit `i` of a number in base two. */
  function Digit(n: nat, i: nat): nat {
    n / Power2(i) % 2
  }

  lemma {:induction false} DigitsOfXor(a: nat, b: nat, width: nat, i: nat)
    requires i < width
    ensures Digit(XorBits(a, b, width), i) == if Digit(a, i) == Digit(b, i) then 0 else 1
  {
    if i > 0 {
      DigitsOfXor(a / 2, b / 2, width - 1, i - 1);
      assert XorBits(a, b, width) / 2 == XorBits(a / 2, b / 2, width - 1);
      HigherDigit(a, i);
      HigherDigit(b, i);
      HigherDigit(XorBits(a, b, width), i);
    } else {
      assert Power2(0) == 1;
    }
  }

  lemma HigherDigit(n: nat, i: nat)
    requires i > 0
    ensures Digit(n, i) == Digit(n / 2, i - 1)
  {
    var p := Power2(i - 1);
    assert Power2(i) == 2 * p;
    var q, r := n / 2 / p, n / 2 % p;
    assert n == 2 * (p * q + r) + n % 2;
    assert n == q * (2 * p) + (2 * r + n % 2);
    Quotient(n, 2 * p, q, 2 * r + n % 2);
  }

  /** A masked byte differs from the plain one in exactly the digits the key byte has. */
  lemma MaskedByteDigits(a: Byte, b: Byte, i: nat)
    requires i < 8
    ensures Digit(XorByte(a, b), i) == if Digit(a, i) == Digit(b, i) then 0 else 1
  {
    PowerOf8();
    DigitsOfXor(a, b, 8, i);
  }
}
