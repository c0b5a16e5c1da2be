/** What the tag of a packet covers, byte by byte, and how a sealed packet is laid out. */
module Signatures {
  import opened Prelude
  import opened Packets
  import opened Auth

  /** The bytes two packets must share for one tag to fit both: header, length modulo 2^32, 128 bytes of the message. */
  predicate AgreeWhereSigned(p: seq<Byte>, q: seq<Byte>)
    requires |p| >= 24 && |q| >= 24
  {
    && p[..24] == q[..24]
    && (|p| - |q|) % 0x1_0000_0000 == 0
    && p[24..Min(|p|, 152)] == q[24..Min(|q|, 152)]
  }

  lemma {:induction false} BytesOfNumber(a: seq<Byte>, b: seq<Byte>)
    requires |a| == |b| && FromLittleEndian(a) == FromLittleEndian(b)
    ensures a == b
  {
    if a != [] {
      FirstDigit(a);
      FirstDigit(b);
      BytesOfNumber(a[1..], b[1..]);
      assert a == [a[0]] + a[1..] && b == [b[0]] + b[1..];
    }
  }

  lemma FirstDigit(a: seq<Byte>)
    requires a != []
    ensures FromLittleEndian(a) % 256 == a[0] && FromLittleEndian(a) / 256 == FromLittleEndian(a[1..])
  {
  }

  lemma LengthsAgree(n: nat, m: nat)
    requires n >= 24 && m >= 24
    ensures (n - 24) % 0x1_0000_0000 == (m - 24) % 0x1_0000_0000 <==> (n - m) % 0x1_0000_0000 == 0
  {
  }

  /** The counter, length and prefix that go into the tag are the same exactly where the bytes after the tag agree. */
  lemma SignedPartsAgree(p: seq<Byte>, q: seq<Byte>)
    requires |p| >= 24 && |q| >= 24
    ensures
      && SignedCounter(p) == SignedCounter(q)
      && |MessageOf(p)| % 0x1_0000_0000 == |MessageOf(q)| % 0x1_0000_0000
      && Signed(MessageOf(p)) == Signed(MessageOf(q))
      <==> && p[16..24] == q[16..24]
           && (|p| - |q|) % 0x1_0000_0000 == 0
           && p[24..Min(|p|, 152)] == q[24..Min(|q|, 152)]
  {
    hide FromLittleEndian;
    LengthsAgree(|p|, |q|);
    assert Signed(MessageOf(p)) == p[24..Min(|p|, 152)] && Signed(MessageOf(q)) == q[24..Min(|q|, 152)];
    if SignedCounter(p) == SignedCounter(q) {
      BytesOfNumber(p[16..24], q[16..24]);
    }
  }

  lemma HeaderInParts(p: seq<Byte>, q: seq<Byte>)
    requires |p| >= 24 && |q| >= 24
    ensures p[..24] == q[..24] <==> p[..16] == q[..16] && p[16..24] == q[16..24]
  {
    assert p[..24] == p[..16] + p[16..24] && q[..24] == q[..16] + q[16..24];
    assert p[..24][..16] == p[..16] && p[..24][16..] == p[16..24];
    assert q[..24][..16] == q[..16] && q[..24][16..] == q[16..24];
  }

  function OtherTag(t: Tag): (r: Tag)
    ensures r != t
  {
    t[0 := if t[0] == 0 then 1 else 0]
  }

  /** A cipher under which the first packet is genuine, and every packet that differs where it is signed is not. */
  function CipherFor(p: seq<Byte>, q: seq<Byte>): Cipher
    requires |p| >= 24 && |q| >= 24
  {
    var yes: Tag, no: Tag := p[..16], OtherTag(q[..16]);
    OneTag(SignedCounter(p), |MessageOf(p)| % 0x1_0000_0000, Signed(MessageOf(p)), yes, no)
  }

  function OneTag(c: nat, n: nat, signed: seq<Byte>, yes: Tag, no: Tag): Cipher {
    (counter: nat, length: nat, prefix: seq<Byte>) =>
      if counter == c && length == n && prefix == signed then yes else no
  }

  /** The tag of `p` for whatever is signed like `p`, and a tag `q` does not carry for everything else. */
  lemma TagUnderCipherFor(p: seq<Byte>, q: seq<Byte>, r: seq<Byte>)
    requires |p| >= 24 && |q| >= 24 && |r| >= 24
    ensures
      TagFor(CipherFor(p, q), SignedCounter(r), MessageOf(r))
      == if p[16..24] == r[16..24] && (|p| - |r|) % 0x1_0000_0000 == 0 && p[24..Min(|p|, 152)] == r[24..Min(|r|, 152)]
         then p[..16] else OtherTag(q[..16])
  {
    hide FromLittleEndian, Signed;
    SignedPartsAgree(p, r);
  }

  lemma ToldApart(p: seq<Byte>, q: seq<Byte>)
    requires |p| >= 24 && |q| >= 24 && !AgreeWhereSigned(p, q)
    ensures Genuine(CipherFor(p, q), p) && !Genuine(CipherFor(p, q), q)
  {
    hide SignedCounter, TagFor, CipherFor;
    TagUnderCipherFor(p, q, p);
    TagUnderCipherFor(p, q, q);
    HeaderInParts(p, q);
  }

  lemma TakenTogether(cipher: Cipher, p: seq<Byte>, q: seq<Byte>)
    requires |p| >= 24 && |q| >= 24 && AgreeWhereSigned(p, q)
    ensures Genuine(cipher, p) <==> Genuine(cipher, q)
  {
    hide FromLittleEndian, Signed;
    SignedPartsAgree(p, q);
    HeaderInParts(p, q);
  }

  /** Every cipher that accepts the one packet accepts the other. */
  ghost predicate AlwaysGenuineTogether(p: seq<Byte>, q: seq<Byte>) {
    forall cipher: Cipher :: Genuine(cipher, p) <==> Genuine(cipher, q)
  }

  /**
   What the tag covers, exactly: of two packets the same tag check decides for every key if and only if they have the
   same header, the same length modulo 2^32 and the same first 128 bytes of the message. A packet changed anywhere
   there is told apart by some cipher; one changed only later never is.
   */
  lemma TheTagCoversExactly(p: seq<Byte>, q: seq<Byte>)
    requires |p| >= 24 && |q| >= 24
    ensures AlwaysGenuineTogether(p, q) <==> AgreeWhereSigned(p, q)
  {
    hide Genuine, AgreeWhereSigned;
    if AgreeWhereSigned(p, q) {
      forall cipher: Cipher
        ensures Genuine(cipher, p) <==> Genuine(cipher, q)
      {
        TakenTogether(cipher, p, q);
      }
    } else {
      ToldApart(p, q);
    }
  }

  /** What is shorter than a header is never genuine. */
  lemma ShortIsRefused(cipher: Cipher, w: Replay, packet: seq<Byte>)
    requires |packet| < 24
    ensures !Genuine(cipher, packet) && OpenStep(cipher, w, packet) == (w, None)
  {
  }

  lemma DigitsOfCounter(n: nat)
    ensures
      LittleEndian(n, 8)
      == [n % 256, n / 0x100 % 256, n / 0x1_0000 % 256, n / 0x100_0000 % 256, n / 0x1_0000_0000 % 256,
          n / 0x100_0000_0000 % 256, n / 0x1_0000_0000_0000 % 256, n / 0x100_0000_0000_0000 % 256]
  {
    hide LittleEndian;
    FourDigits(n, 4);
    FourDigits(n / 0x1_0000_0000, 0);
    QuotientOfQuotient(n, 0x1_0000_0000, 0x100);
    QuotientOfQuotient(n, 0x1_0000_0000, 0x1_0000);
    QuotientOfQuotient(n, 0x1_0000_0000, 0x100_0000);
    NoDigits(n / 0x1_0000_0000 / 0x1_0000_0000);
  }

  lemma NoDigits(n: nat)
    ensures LittleEndian(n, 0) == []
  {
  }

  lemma QuotientOfQuotient(n: nat, a: nat, b: nat)
    requires a > 0 && b > 0
    ensures a * b > 0 && n / a / b == n / (a * b)
  {
    var q, r := n / a / b, n / a % b;
    var s := n % a;
    assert n == a * (b * q + r) + s;
    assert a * r + s < a * b by {
      assert a * r <= a * (b - 1);
    }
    assert n == q * (a * b) + (a * r + s);
    Quotient(n, a * b, q, a * r + s);
  }

  lemma OneDigit(n: nat, width: nat)
    ensures LittleEndian(n, width + 1) == [n % 256] + LittleEndian(n / 256, width)
  {
  }

  lemma FourDigits(n: nat, width: nat)
    ensures
      LittleEndian(n, width + 4)
      == [n % 256, n / 0x100 % 256, n / 0x1_0000 % 256, n / 0x100_0000 % 256]
         + LittleEndian(n / 0x1_0000_0000, width)
  {
    hide LittleEndian;
    OneDigit(n, width + 3);
    OneDigit(n / 0x100, width + 2);
    OneDigit(n / 0x1_0000, width + 1);
    OneDigit(n / 0x100_0000, width);
    QuotientOfQuotient(n, 0x100, 0x100);
    QuotientOfQuotient(n, 0x1_0000, 0x100);
    QuotientOfQuotient(n, 0x100_0000, 0x100);
  }

  /** A sealed packet: sixteen bytes of tag, the counter in eight bytes, lowest first, and the message as it was. */
  lemma LayoutOfSealed(cipher: Cipher, counter: nat, message: seq<Byte>)
    ensures
      var packet := SealedPacket(cipher, counter, message);
      && |packet| == 24 + |message|
      && packet[16] == counter % 256 && packet[17] == counter / 0x100 % 256
      && packet[18] == counter / 0x1_0000 % 256 && packet[19] == counter / 0x100_0000 % 256
      && packet[20] == counter / 0x1_0000_0000 % 256 && packet[21] == counter / 0x100_0000_0000 % 256
      && packet[22] == counter / 0x1_0000_0000_0000 % 256 && packet[23] == counter / 0x100_0000_0000_0000 % 256
      && packet[24..] == message
  {
    hide LittleEndian;
    DigitsOfCounter(counter);
  }
}
