/**
 Signing and opening packets (auth.rs). The tag is an unknown function of counter, length and signed prefix;
 what is modelled is where the counter comes from and which packets the 64-bit window lets through.
 */
module Auth {
  import opened Prelude
  import opened Packets
  import opened Bits

  const TAG_LEN: nat := 16
  const COUNTER_LEN: nat := 8
  const AUTH_LEN: nat := TAG_LEN + COUNTER_LEN
  const SIGNED_PREFIX: nat := 128
  const MAX_COUNTER: nat := 0xFFFF_FFFF_FFFF_FFFF
  const WINDOW: nat := 64

  type Tag = t: seq<Byte> | |t| == TAG_LEN witness seq(TAG_LEN, _ => 0)

  /** The keyed tag: a function of the counter, the message length modulo 2^32 and the signed prefix. */
  type Cipher = (nat, nat, seq<Byte>) -> Tag

  function Signed(message: seq<Byte>): seq<Byte> {
    message[..Min(|message|, SIGNED_PREFIX)]
  }

  function TagFor(cipher: Cipher, counter: nat, message: seq<Byte>): Tag {
    cipher(counter, |message| % 0x1_0000_0000, Signed(message))
  }

  // ---------------------------------------------------------------- the counter on the wire

  function LittleEndian(n: nat, width: nat): (bytes: seq<Byte>)
    ensures |bytes| == width
  {
    if width == 0 then [] else [n % 256] + LittleEndian(n / 256, width - 1)
  }

  function FromLittleEndian(bytes: seq<Byte>): nat {
    if bytes == [] then 0 else bytes[0] + 256 * FromLittleEndian(bytes[1..])
  }

  function Power256(width: nat): nat {
    if width == 0 then 1 else 256 * Power256(width - 1)
  }

  lemma {:induction false} LittleEndianRoundTrip(n: nat, width: nat)
    requires n < Power256(width)
    ensures FromLittleEndian(LittleEndian(n, width)) == n
  {
    if width > 0 {
      LittleEndianRoundTrip(n / 256, width - 1);
      assert LittleEndian(n, width)[1..] == LittleEndian(n / 256, width - 1);
    }
  }

  lemma CounterRoundTrip(counter: nat)
    requires counter <= MAX_COUNTER
    ensures FromLittleEndian(LittleEndian(counter, COUNTER_LEN)) == counter
  {
    hide LittleEndian, FromLittleEndian;
    assert Power256(4) == 0x1_0000_0000;
    assert Power256(8) == 256 * 256 * 256 * 256 * Power256(4);
    LittleEndianRoundTrip(counter, COUNTER_LEN);
  }

  // ---------------------------------------------------------------- the window

  /** `top` is one more than the highest accepted counter; `remembered` the accepted ones close behind it. */
  datatype Replay = Replay(top: nat, remembered: set<nat>)

  const NOTHING_SEEN: Replay := Replay(0, {})

  ghost predicate Fresh(w: Replay, counter: nat) {
    counter >= w.top || (w.top - 1 - counter < WINDOW && counter !in w.remembered)
  }

  ghost function Accepted(w: Replay, counter: nat): Replay {
    var top := Max(w.top, counter + 1);
    Replay(top, (set c | c in w.remembered && Near(top, c)) + {counter})
  }

  predicate Near(top: nat, counter: nat) {
    top - 1 - counter < WINDOW
  }

  ghost predicate Marked(top: nat, seen: bv64, counter: nat) {
    counter < top && top - 1 - counter < WINDOW && Has64(seen, top - 1 - counter)
  }

  ghost function Remembered(top: nat, seen: bv64): set<nat> {
    set c: nat | c < top && Marked(top, seen, c)
  }

  /** The word after `counter` became the new top. */
  function MovedWord(top: nat, seen: bv64, counter: nat): bv64
    requires counter >= top
  {
    var shift := counter + 1 - top;
    Union64(if shift >= WINDOW then 0 else Up64(seen, shift), 1)
  }

  lemma MovedWordMarks(top: nat, seen: bv64, counter: nat, c: nat)
    requires counter >= top
    ensures Marked(counter + 1, MovedWord(top, seen, counter), c)
            <==> c == counter || (Marked(top, seen, c) && counter - c < WINDOW)
  {
    hide Has64, Up64, Union64;
    if c <= counter && counter - c < WINDOW {
      var i, shift := counter - c, counter + 1 - top;
      var moved := if shift >= WINDOW then 0 else Up64(seen, shift);
      assert MovedWord(top, seen, counter) == Union64(moved, 1);
      HasUnion64(moved, 1, i);
      HasOne64(i);
      if shift >= WINDOW {
        Has64None(i);
      } else {
        HasUp64(seen, shift, i);
        assert i >= shift ==> i - shift == top - 1 - c;
      }
    }
  }

  lemma MovedWordRemembers(top: nat, seen: bv64, counter: nat)
    requires counter >= top
    ensures Replay(counter + 1, Remembered(counter + 1, MovedWord(top, seen, counter)))
            == Accepted(Replay(top, Remembered(top, seen)), counter)
  {
    hide Marked, MovedWord;
    var before, after := Remembered(top, seen), Remembered(counter + 1, MovedWord(top, seen, counter));
    forall c: nat
      ensures c in after <==> c == counter || (c in before && Near(counter + 1, c))
    {
      MovedWordMarks(top, seen, counter, c);
      MarkedIsOld(top, seen, c);
    }
    assert after == (set c | c in before && Near(counter + 1, c)) + {counter};
  }

  lemma MarkedIsOld(top: nat, seen: bv64, c: nat)
    ensures Marked(top, seen, c) ==> c < top
  {
  }

  lemma SetBitRemembers(top: nat, seen: bv64, counter: nat)
    requires counter < top && top - 1 - counter < WINDOW
    ensures Replay(top, Remembered(top, Union64(seen, Up64(1, top - 1 - counter))))
            == Accepted(Replay(top, Remembered(top, seen)), counter)
  {
    hide Has64, Up64, Union64;
    var back := top - 1 - counter;
    var before, after := Remembered(top, seen), Remembered(top, Union64(seen, Up64(1, back)));
    forall c: nat
      ensures c in after <==> c == counter || (c in before && Near(top, c))
    {
      if c < top && Near(top, c) {
        HasUnion64(seen, Up64(1, back), top - 1 - c);
        HasSingle64(back, top - 1 - c);
      }
    }
    assert after == (set c | c in before && Near(top, c)) + {counter};
  }

  class ReplayWindow {
    var top: nat
    var seen: bv64

    ghost function Value(): Replay
      reads this
    {
      Replay(top, Remembered(top, seen))
    }

    constructor ()
      ensures Value() == NOTHING_SEEN
    {
      top, seen := 0, 0;
    }

    method IsFresh(counter: nat) returns (yes: bool)
      ensures yes <==> Fresh(Value(), counter)
    {
      hide Has64, IsOn64;
      if counter >= top {
        return true;
      }
      var back := top - 1 - counter;
      if back >= WINDOW {
        return false;
      }
      IsOnIsHas64(seen, back);
      yes := !IsOn64(seen, back);
    }

    method Accept(counter: nat)
      requires Fresh(Value(), counter)
      modifies this
      ensures Value() == Accepted(old(Value()), counter)
    {
      hide Marked, Has64, Up64, Union64;
      if counter >= top {
        MovedWordRemembers(top, seen, counter);
        seen := MovedWord(top, seen, counter);
        top := counter + 1;
      } else {
        SetBitRemembers(top, seen, counter);
        seen := Union64(seen, Up64(1, top - 1 - counter));
      }
    }
  }

  // ---------------------------------------------------------------- sealing

  /** A sealed packet: tag, counter, message. */
  function SealedPacket(cipher: Cipher, counter: nat, message: seq<Byte>): seq<Byte> {
    TagFor(cipher, counter, message) + LittleEndian(counter, COUNTER_LEN) + message
  }

  class Sealer {
    const cipher: Cipher
    var next: nat

    ghost predicate Valid()
      reads this
    {
      next <= MAX_COUNTER
    }

    constructor (cipher: Cipher, start: nat)
      requires start <= MAX_COUNTER
      ensures Valid() && this.cipher == cipher && next == start
    {
      this.cipher := cipher;
      next := start;
    }

    /** Signs the message at `buf[AUTH_LEN..]`; nothing but the header changes. Fails without room or counters. */
    method Seal(buf: array<Byte>, len: nat) returns (total: Option<nat>)
      requires Valid()
      modifies this, buf
      ensures Valid()
      ensures total == if buf.Length < len + AUTH_LEN || old(next) == MAX_COUNTER then None else Some(len + AUTH_LEN)
      ensures total.None? ==> next == old(next) && buf[..] == old(buf[..])
      ensures total.Some? ==>
                && next == old(next) + 1
                && buf[..len + AUTH_LEN] == SealedPacket(cipher, old(next), old(buf[AUTH_LEN..len + AUTH_LEN]))
                && buf[len + AUTH_LEN..] == old(buf[len + AUTH_LEN..])
    {
      var all := len + AUTH_LEN;
      if buf.Length < all || next == MAX_COUNTER {
        return None;
      }
      var counter := next;
      next := next + 1;
      ghost var was := buf[..];
      var header := TagFor(cipher, counter, buf[AUTH_LEN..all]) + LittleEndian(counter, COUNTER_LEN);
      forall k | 0 <= k < AUTH_LEN {
        buf[k] := header[k];
      }
      assert buf[AUTH_LEN..] == was[AUTH_LEN..];
      assert buf[..all] == header + was[AUTH_LEN..all];
      return Some(all);
    }
  }

  // ---------------------------------------------------------------- opening

  function MessageOf(packet: seq<Byte>): seq<Byte>
    requires |packet| >= AUTH_LEN
  {
    packet[AUTH_LEN..]
  }

  function SignedCounter(packet: seq<Byte>): nat
    requires |packet| >= AUTH_LEN
  {
    FromLittleEndian(packet[TAG_LEN..AUTH_LEN])
  }

  /** The tag at the front is the one the key gives for this counter and message. */
  predicate Genuine(cipher: Cipher, packet: seq<Byte>) {
    |packet| >= AUTH_LEN && packet[..TAG_LEN] == TagFor(cipher, SignedCounter(packet), MessageOf(packet))
  }

  /** The length of the message if the packet is let through, and the window afterwards. */
  ghost function OpenStep(cipher: Cipher, w: Replay, packet: seq<Byte>): (Replay, Option<nat>) {
    if Genuine(cipher, packet) && Fresh(w, SignedCounter(packet)) then
      (Accepted(w, SignedCounter(packet)), Some(|packet| - AUTH_LEN))
    else
      (w, None)
  }

  class Opener {
    const cipher: Cipher
    const window: ReplayWindow?

    constructor WithWindow(cipher: Cipher)
      ensures this.cipher == cipher && window != null && fresh(window) && window.Value() == NOTHING_SEEN
    {
      var w := new ReplayWindow();
      this.cipher := cipher;
      window := w;
    }

    constructor WithoutReplayWindow(cipher: Cipher)
      ensures this.cipher == cipher && window == null
    {
      this.cipher := cipher;
      window := null;
    }

    method Open(buf: array<Byte>) returns (len: Option<nat>)
      modifies window
      ensures window != null ==>
                (window.Value(), len) == OpenStep(cipher, old(window.Value()), buf[..])
      ensures window == null ==>
                len == if Genuine(cipher, buf[..]) then Some(buf.Length - AUTH_LEN) else None
    {
      if buf.Length < AUTH_LEN {
        return None;
      }
      var counter := FromLittleEndian(buf[TAG_LEN..AUTH_LEN]);
      assert buf[..][TAG_LEN..AUTH_LEN] == buf[TAG_LEN..AUTH_LEN];
      if window != null {
        var fresh' := window.IsFresh(counter);
        if !fresh' {
          return None;
        }
      }
      if buf[..TAG_LEN] != TagFor(cipher, counter, buf[AUTH_LEN..]) {
        return None;
      }
      if window != null {
        window.Accept(counter);
      }
      return Some(buf.Length - AUTH_LEN);
    }
  }
}
