/** Writing a data packet straight into the send buffer, and reading one without copying (wire.rs, codec.rs). */
module Wire {
  import opened Prelude
  import opened Packets
  import opened WireFormat
  import opened Auth
  import AuthRuns
  import Xor

  const MASKED_PREFIX: nat := AUTH_LEN + SIGNED_PREFIX

  // ---------------------------------------------------------------- the mask

  function MaskLen(n: nat): nat {
    Min(n, MASKED_PREFIX)
  }

  /** A packet as it travels: its first bytes masked, the rest plain. */
  function Masked(packet: seq<Byte>, key: Xor.Key): seq<Byte> {
    Xor.Cycled(packet[..MaskLen(|packet|)], key) + packet[MaskLen(|packet|)..]
  }

  /** Masks, or unmasks, the packet in the first `n` bytes of the buffer. */
  method Mask(data: array<Byte>, n: nat, key: Xor.Key, width: nat)
    requires width == 16 || width == 32 || width == 64
    requires n <= data.Length
    modifies data
    ensures data[..] == Masked(old(data[..n]), key) + old(data[n..])
  {
    ghost var was := data[..];
    var len := MaskLen(n);
    Xor.XorInPlace(data, len, key, width);
    assert was[..n][..len] == was[..len] && was[..n][len..] + was[n..] == was[len..];
  }

  /** The first 152 bytes of a packet are masked with the 16 bytes of the key in turn; the rest is as it was. */
  lemma MaskCovers(packet: seq<Byte>, key: Xor.Key, i: nat)
    requires i < |packet|
    ensures |Masked(packet, key)| == |packet|
    ensures Masked(packet, key)[i] == if i < 152 then Xor.XorByte(packet[i], key[i % 16]) else packet[i]
  {
  }

  lemma UnmaskingRestores(packet: seq<Byte>, key: Xor.Key)
    ensures Masked(Masked(packet, key), key) == packet
  {
    var len := MaskLen(|packet|);
    var masked := Masked(packet, key);
    assert masked[..len] == Xor.Cycled(packet[..len], key) && masked[len..] == packet[len..];
    Xor.CycledTwice(packet[..len], key);
    assert packet[..len] + packet[len..] == packet;
  }

  // ---------------------------------------------------------------- lengths, known before writing

  /** How many bytes a variable-length integer takes. */
  method VarintLen(v: nat) returns (n: nat)
    ensures n == |Varint(v)|
  {
    n := 1;
    var rest := v;
    while rest >= 128
      invariant n + |Varint(rest)| == |Varint(v)| + 1
    {
      rest := rest / 128;
      n := n + 1;
    }
  }

  method VarintFieldLen(tag: Byte, v: nat) returns (n: nat)
    ensures n == |VarintField(tag, v)|
  {
    if v == 0 {
      return 0;
    }
    n := VarintLen(v);
    n := 1 + n;
  }

  method OptionalFieldLen(tag: Byte, o: Option<nat>) returns (n: nat)
    ensures n == |OptionalField(tag, o)|
  {
    match o
    case None => return 0;
    case Some(v) =>
      n := VarintLen(v);
      n := 1 + n;
  }

  method BytesFieldLen(tag: Byte, data: seq<Byte>) returns (n: nat)
    ensures n == |BytesField(tag, data)|
  {
    if |data| == 0 {
      return 0;
    }
    n := VarintLen(|data|);
    n := 1 + n + |data|;
  }

  // ---------------------------------------------------------------- the writer

  class Writer {
    const out: array<Byte>
    var pos: nat
    ghost const was: seq<Byte>
    /** What has been written behind the place left for the signature. */
    ghost var written: seq<Byte>

    ghost predicate Valid()
      reads this, out
    {
      && |was| == out.Length
      && pos == AUTH_LEN + |written|
      && (if pos <= |was| then out[..] == was[..AUTH_LEN] + written + was[pos..] else written == [] && out[..] == was)
    }

    constructor (out: array<Byte>)
      ensures Valid() && this.out == out && was == out[..] && written == []
    {
      this.out := out;
      pos := AUTH_LEN;
      was := out[..];
      written := [];
    }

    ghost predicate Fits(bytes: seq<Byte>)
      reads this
    {
      bytes == [] || pos + |bytes| <= out.Length
    }

    method PutByte(b: Byte) returns (ok: bool)
      requires Valid()
      modifies this, out
      ensures Valid() && ok == old(Fits([b]))
      ensures written == if ok then old(written) + [b] else old(written)
    {
      if pos >= out.Length {
        return false;
      }
      out[pos] := b;
      pos := pos + 1;
      written := written + [b];
      return true;
    }

    method PutVarint(v: nat) returns (ok: bool)
      requires Valid()
      modifies this, out
      ensures Valid() && ok == old(Fits(Varint(v)))
      ensures ok ==> written == old(written) + Varint(v)
    {
      var rest := v;
      while rest >= 128
        invariant Valid() && out.Length == |was|
        invariant pos + |Varint(rest)| == old(pos) + |Varint(v)|
        invariant written + Varint(rest) == old(written) + Varint(v)
      {
        ok := PutByte(rest % 128 + 128);
        if !ok {
          return false;
        }
        rest := rest / 128;
      }
      ok := PutByte(rest);
    }

    method PutBytes(data: seq<Byte>) returns (ok: bool)
      requires Valid()
      modifies this, out
      ensures Valid() && ok == (old(pos) + |data| <= out.Length)
      ensures written == if ok then old(written) + data else old(written)
    {
      if pos + |data| > out.Length {
        return false;
      }
      forall k | 0 <= k < |data| {
        out[pos + k] := data[k];
      }
      pos := pos + |data|;
      written := written + data;
      return true;
    }

    method PutTagged(tag: Byte, v: nat) returns (ok: bool)
      requires Valid()
      modifies this, out
      ensures Valid() && ok == old(Fits(Tagged(tag, v)))
      ensures ok ==> written == old(written) + Tagged(tag, v)
    {
      ok := PutByte(tag);
      if ok {
        ok := PutVarint(v);
      }
    }

    method PutVarintField(tag: Byte, v: nat) returns (ok: bool)
      requires Valid()
      modifies this, out
      ensures Valid() && ok == old(Fits(VarintField(tag, v)))
      ensures ok ==> written == old(written) + VarintField(tag, v)
    {
      ok := true;
      if v != 0 {
        ok := PutTagged(tag, v);
      }
    }

    method PutOptionalField(tag: Byte, o: Option<nat>) returns (ok: bool)
      requires Valid()
      modifies this, out
      ensures Valid() && ok == old(Fits(OptionalField(tag, o)))
      ensures ok ==> written == old(written) + OptionalField(tag, o)
    {
      ok := true;
      match o
      case None =>
      case Some(v) => ok := PutTagged(tag, v);
    }

    method PutBytesField(tag: Byte, data: seq<Byte>) returns (ok: bool)
      requires Valid()
      modifies this, out
      ensures Valid() && ok == old(Fits(BytesField(tag, data)))
      ensures ok ==> written == old(written) + BytesField(tag, data)
    {
      ok := true;
      if |data| != 0 {
        ok := PutTagged(tag, |data|);
        if ok {
          ok := PutBytes(data);
        }
      }
    }
  }

  // ---------------------------------------------------------------- encoding

  datatype SendKeys = SendKeys(xor: Xor.Key, sealer: Sealer)

  /** What stands before the inner message, and after it. */
  function Head(slot: U32, innerTag: Byte, innerLen: nat, liteLen: nat): seq<Byte> {
    Tagged(PEER_LITE, liteLen) + VarintField(LITE_SLOT, slot) + Tagged(innerTag, innerLen)
  }

  lemma MessageInPieces(f: Fast)
    ensures Message(f) == Head(f.slot, InnerTag(f), |Inner(f)|, |Lite(f)|) + Inner(f) + OptionalField(LITE_PID, f.pid)
    ensures |Lite(f)| == |VarintField(LITE_SLOT, f.slot)| + 1 + |Varint(|Inner(f)|)| + |Inner(f)|
                         + |OptionalField(LITE_PID, f.pid)|
  {
    hide Varint, Inner, VarintField, OptionalField;
    var slot, pid := VarintField(LITE_SLOT, f.slot), OptionalField(LITE_PID, f.pid);
    var top, tag := Tagged(PEER_LITE, |Lite(f)|), Tagged(InnerTag(f), |Inner(f)|);
    assert Message(f) == top + (slot + ((tag + Inner(f)) + pid));
  }

  lemma TaggedLength(tag: Byte, n: nat)
    ensures |Tagged(tag, n)| == 1 + |Varint(n)|
  {
  }

  /** Everything up to the inner message, whose length is already known. */
  method BeginLite(out: array<Byte>, slot: U32, innerTag: Byte, innerLen: nat, pid: Option<U32>)
    returns (w: Writer, ok: bool, ghost liteLen: nat)
    modifies out
    ensures fresh(w) && w.Valid() && w.out == out && w.was == old(out[..])
    ensures liteLen == |VarintField(LITE_SLOT, slot)| + 1 + |Varint(innerLen)| + innerLen
                       + |OptionalField(LITE_PID, pid)|
    ensures ok == (AUTH_LEN + |Head(slot, innerTag, innerLen, liteLen)| <= out.Length)
    ensures ok ==> w.written == Head(slot, innerTag, innerLen, liteLen)
  {
    hide VarintField, OptionalField, Varint, Tagged;
    var slotLen := VarintFieldLen(LITE_SLOT, slot);
    var lengthLen := VarintLen(innerLen);
    var pidLen := OptionalFieldLen(LITE_PID, pid);
    var length := slotLen + 1 + lengthLen + innerLen + pidLen;
    liteLen := length;
    w := new Writer(out);
    assert |Tagged(PEER_LITE, length)| > 0 by { TaggedLength(PEER_LITE, length); }
    ok := w.PutTagged(PEER_LITE, length);
    if ok {
      ok := w.PutVarintField(LITE_SLOT, slot);
    }
    if ok {
      ok := w.PutTagged(innerTag, innerLen);
    }
  }

  /** What an encoder promises: which packet it left in the buffer, or that it left none and used no counter. */
  ghost predicate Encoded(result: Option<nat>, f: Fast, cipher: Cipher, key: Xor.Key, before: nat, after: nat,
                          was: seq<Byte>, now: seq<Byte>)
  {
    var n := AUTH_LEN + |Message(f)|;
    if n <= |was| && before < MAX_COUNTER then
      && result == Some(n)
      && after == before + 1
      && now == Masked(SealedPacket(cipher, before, Message(f)), key) + was[n..]
    else
      result == None && after == before
  }

  /** The last field, then signature and mask over what has been written. */
  method FinishLite(w: Writer, pid: Option<U32>, keys: SendKeys, width: nat, ghost f: Fast)
    returns (result: Option<nat>)
    requires w.Valid() && keys.sealer.Valid()
    requires pid == f.pid && w.written + OptionalField(LITE_PID, pid) == Message(f)
    requires width == 16 || width == 32 || width == 64
    modifies w, w.out, keys.sealer
    ensures keys.sealer.Valid()
    ensures Encoded(result, f, keys.sealer.cipher, keys.xor, old(keys.sealer.next), keys.sealer.next, w.was, w.out[..])
  {
    hide OptionalField, Message, SealedPacket, Masked;
    var ok := w.PutOptionalField(LITE_PID, pid);
    if !ok {
      return None;
    }
    var len := w.pos - AUTH_LEN;
    result := keys.sealer.Seal(w.out, len);
    match result
    case None =>
    case Some(n) => Mask(w.out, n, keys.xor, width);
  }

  method EncodeData(slot: U32, payload: seq<Byte>, pid: Option<U32>, keys: SendKeys, out: array<Byte>, width: nat)
    returns (result: Option<nat>)
    requires keys.sealer.Valid()
    requires width == 16 || width == 32 || width == 64
    modifies out, keys.sealer
    ensures keys.sealer.Valid()
    ensures Encoded(result, Data(slot, payload, pid), keys.sealer.cipher, keys.xor,
                    old(keys.sealer.next), keys.sealer.next, old(out[..]), out[..])
  {
    hide Varint, VarintField, OptionalField, BytesField, Message, Head;
    ghost var f := Data(slot, payload, pid);
    MessageInPieces(f);
    var innerLen := BytesFieldLen(DATA_PAYLOAD, payload);
    var w, ok, liteLen := BeginLite(out, slot, LITE_DATA, innerLen, pid);
    if ok {
      ok := w.PutBytesField(DATA_PAYLOAD, payload);
    }
    if !ok {
      return None;
    }
    result := FinishLite(w, pid, keys, width, f);
  }

  method EncodeWrapped(slot: U32, number: U64, payload: seq<Byte>, clientId: U32, flow: Option<U32>,
                       pid: Option<U32>, keys: SendKeys, out: array<Byte>, width: nat)
    returns (result: Option<nat>)
    requires keys.sealer.Valid()
    requires width == 16 || width == 32 || width == 64
    modifies out, keys.sealer
    ensures keys.sealer.Valid()
    ensures Encoded(result, Wrapped(slot, number, payload, clientId, flow, pid), keys.sealer.cipher, keys.xor,
                    old(keys.sealer.next), keys.sealer.next, old(out[..]), out[..])
  {
    hide Varint, VarintField, OptionalField, BytesField, Message, Head, Inner;
    ghost var f := Wrapped(slot, number, payload, clientId, flow, pid);
    MessageInPieces(f);
    var innerLen := WrappedLen(number, payload, clientId, flow, f);
    var w, ok, liteLen := BeginLite(out, slot, LITE_WRAPPED, innerLen, pid);
    if ok {
      ok := PutWrapped(w, number, payload, clientId, flow, f);
    }
    if !ok {
      return None;
    }
    result := FinishLite(w, pid, keys, width, f);
  }

  /** The length of the inner message, known before it is written. */
  method WrappedLen(number: U64, payload: seq<Byte>, clientId: U32, flow: Option<U32>, ghost f: Fast) returns (n: nat)
    requires f == Wrapped(f.slot, number, payload, clientId, flow, f.pid)
    ensures n == |Inner(f)|
  {
    hide Varint, VarintField, OptionalField, BytesField;
    var numberLen := VarintFieldLen(WRAPPED_SEQ, number);
    var payloadLen := BytesFieldLen(WRAPPED_PAYLOAD, payload);
    var clientLen := VarintFieldLen(WRAPPED_CLIENT, clientId);
    var flowLen := OptionalFieldLen(WRAPPED_FLOW, flow);
    n := numberLen + payloadLen + clientLen + flowLen;
  }

  method PutWrapped(w: Writer, number: U64, payload: seq<Byte>, clientId: U32, flow: Option<U32>, ghost f: Fast)
    returns (ok: bool)
    requires w.Valid() && f == Wrapped(f.slot, number, payload, clientId, flow, f.pid)
    modifies w, w.out
    ensures w.Valid() && ok == old(w.Fits(Inner(f)))
    ensures ok ==> w.written == old(w.written) + Inner(f)
  {
    hide VarintField, OptionalField, BytesField;
    ok := w.PutVarintField(WRAPPED_SEQ, number);
    if ok {
      ok := w.PutBytesField(WRAPPED_PAYLOAD, payload);
    }
    if ok {
      ok := w.PutVarintField(WRAPPED_CLIENT, clientId);
    }
    if ok {
      ok := w.PutOptionalField(WRAPPED_FLOW, flow);
    }
  }

  method EncodeOrdered(slot: U32, flow: U32, number: U64, payload: seq<Byte>, pid: Option<U32>,
                       keys: SendKeys, out: array<Byte>, width: nat)
    returns (result: Option<nat>)
    requires keys.sealer.Valid()
    requires width == 16 || width == 32 || width == 64
    modifies out, keys.sealer
    ensures keys.sealer.Valid()
    ensures Encoded(result, Ordered(slot, flow, number, payload, pid), keys.sealer.cipher, keys.xor,
                    old(keys.sealer.next), keys.sealer.next, old(out[..]), out[..])
  {
    hide Varint, VarintField, OptionalField, BytesField, Message, Head, Inner;
    ghost var f := Ordered(slot, flow, number, payload, pid);
    MessageInPieces(f);
    var innerLen := OrderedLen(flow, number, payload, f);
    var w, ok, liteLen := BeginLite(out, slot, LITE_ORDERED, innerLen, pid);
    if ok {
      ok := PutOrdered(w, flow, number, payload, f);
    }
    if !ok {
      return None;
    }
    result := FinishLite(w, pid, keys, width, f);
  }

  method OrderedLen(flow: U32, number: U64, payload: seq<Byte>, ghost f: Fast) returns (n: nat)
    requires f == Ordered(f.slot, flow, number, payload, f.pid)
    ensures n == |Inner(f)|
  {
    hide Varint, VarintField, BytesField;
    var flowLen := VarintFieldLen(ORDERED_FLOW, flow);
    var numberLen := VarintFieldLen(ORDERED_SEQ, number);
    var payloadLen := BytesFieldLen(ORDERED_PAYLOAD, payload);
    n := flowLen + numberLen + payloadLen;
  }

  method PutOrdered(w: Writer, flow: U32, number: U64, payload: seq<Byte>, ghost f: Fast) returns (ok: bool)
    requires w.Valid() && f == Ordered(f.slot, flow, number, payload, f.pid)
    modifies w, w.out
    ensures w.Valid() && ok == old(w.Fits(Inner(f)))
    ensures ok ==> w.written == old(w.written) + Inner(f)
  {
    hide VarintField, BytesField;
    ok := w.PutVarintField(ORDERED_FLOW, flow);
    if ok {
      ok := w.PutVarintField(ORDERED_SEQ, number);
    }
    if ok {
      ok := w.PutBytesField(ORDERED_PAYLOAD, payload);
    }
  }

  // ---------------------------------------------------------------- the reader

  class Reader {
    const buf: seq<Byte>
    var pos: nat

    ghost predicate Valid()
      reads this
    {
      pos <= |buf|
    }

    ghost function Rest(): seq<Byte>
      requires Valid()
      reads this
    {
      buf[pos..]
    }

    constructor (buf: seq<Byte>)
      ensures Valid() && Rest() == buf
    {
      this.buf := buf;
      pos := 0;
    }

    predicate Done()
      reads this
    {
      pos == |buf|
    }

    method TakeByte() returns (b: Option<Byte>)
      requires Valid()
      modifies this
      ensures Valid()
      ensures old(Rest()) == [] ==> b == None && Rest() == []
      ensures old(Rest()) != [] ==> b == Some(old(Rest())[0]) && Rest() == old(Rest())[1..]
    {
      if pos >= |buf| {
        return None;
      }
      b := Some(buf[pos]);
      pos := pos + 1;
    }

    method TakeVarint() returns (v: Option<U64>)
      requires Valid()
      modifies this
      ensures Valid()
      ensures match ReadVarint(old(Rest()), 0, 0)
              case None => v == None
              case Some((n, rest)) => v == Some(n) && Rest() == rest
    {
      hide ReadVarint, Accumulated;
      var low: U64 := 0;
      var k := 0;
      while k < 10
        invariant Valid() && 0 <= k <= 10
        invariant ReadVarint(Rest(), k, low) == ReadVarint(old(Rest()), 0, 0)
        invariant |Rest()| <= old(|Rest()|)
        decreases 10 - k
      {
        ReadVarintStep(Rest(), k, low);
        var b := TakeByte();
        if b.None? {
          return None;
        }
        low := Accumulated(low, b.value, k);
        if b.value < 128 {
          return Some(low);
        }
        k := k + 1;
      }
      ReadVarintStep(Rest(), k, low);
      return None;
    }

    method TakeBytes() returns (data: Option<seq<Byte>>)
      requires Valid()
      modifies this
      ensures Valid()
      ensures match ReadBytes(old(Rest()))
              case None => data == None
              case Some((bytes, rest)) => data == Some(bytes) && Rest() == rest
    {
      hide ReadVarint;
      var len := TakeVarint();
      if len.None? || pos + len.value > |buf| {
        return None;
      }
      assert Rest()[..len.value] == buf[pos..pos + len.value] && Rest()[len.value..] == buf[pos + len.value..];
      data := Some(buf[pos..pos + len.value]);
      pos := pos + len.value;
    }
  }

  lemma ReadVarintStep(s: seq<Byte>, k: nat, low: nat)
    ensures ReadVarint(s, k, low) ==
            if k >= 10 || s == [] then None
            else var v := Accumulated(low, s[0], k);
              if s[0] < 128 then Some((v, s[1..])) else ReadVarint(s[1..], k + 1, v)
  {
    hide Power128, Accumulated;
  }

  // ---------------------------------------------------------------- parsing

  method ReadLite(lite: seq<Byte>) returns (parts: Option<LiteParts>)
    ensures parts == LiteFields(lite, NO_LITE)
  {
    hide ReadVarint, ReadBytes;
    var r := new Reader(lite);
    var slot: Option<U32> := None;
    var body: Option<(Byte, seq<Byte>)> := None;
    var pid: Option<U32> := None;
    while !r.Done()
      invariant r.Valid()
      invariant LiteFields(r.Rest(), LiteParts(slot, body, pid)) == LiteFields(lite, NO_LITE)
      decreases |r.Rest()|
    {
      var tag := r.TakeByte();
      if tag.value == LITE_SLOT && slot.None? {
        var v := r.TakeVarint();
        if v.None? {
          return None;
        }
        slot := Some(v.value % TWO_32);
      } else if tag.value in {LITE_DATA, LITE_WRAPPED, LITE_ORDERED} && body.None? {
        var data := r.TakeBytes();
        if data.None? {
          return None;
        }
        body := Some((tag.value, data.value));
      } else if tag.value == LITE_PID && pid.None? {
        var v := r.TakeVarint();
        if v.None? {
          return None;
        }
        pid := Some(v.value % TWO_32);
      } else {
        return None;
      }
    }
    return Some(LiteParts(slot, body, pid));
  }

  method ReadData(inner: seq<Byte>) returns (parts: Option<Option<seq<Byte>>>)
    ensures parts == DataFields(inner, None)
  {
    hide ReadVarint, ReadBytes;
    var r := new Reader(inner);
    var payload: Option<seq<Byte>> := None;
    while !r.Done()
      invariant r.Valid()
      invariant DataFields(r.Rest(), payload) == DataFields(inner, None)
      decreases |r.Rest()|
    {
      var tag := r.TakeByte();
      if tag.value != DATA_PAYLOAD || payload.Some? {
        return None;
      }
      payload := r.TakeBytes();
      if payload.None? {
        return None;
      }
    }
    return Some(payload);
  }

  method ReadOrdered(inner: seq<Byte>) returns (parts: Option<OrderedParts>)
    ensures parts == OrderedFields(inner, NO_ORDERED)
  {
    hide ReadVarint, ReadBytes;
    var r := new Reader(inner);
    var p := NO_ORDERED;
    while !r.Done()
      invariant r.Valid()
      invariant OrderedFields(r.Rest(), p) == OrderedFields(inner, NO_ORDERED)
      decreases |r.Rest()|
    {
      var tag := r.TakeByte();
      if tag.value == ORDERED_FLOW && p.flow.None? {
        var v := r.TakeVarint();
        if v.None? {
          return None;
        }
        p := p.(flow := Some(v.value % TWO_32));
      } else if tag.value == ORDERED_SEQ && p.number.None? {
        var v := r.TakeVarint();
        if v.None? {
          return None;
        }
        p := p.(number := v);
      } else if tag.value == ORDERED_PAYLOAD && p.payload.None? {
        var data := r.TakeBytes();
        if data.None? {
          return None;
        }
        p := p.(payload := data);
      } else {
        return None;
      }
    }
    return Some(p);
  }

  method ReadWrapped(inner: seq<Byte>) returns (parts: Option<WrappedParts>)
    ensures parts == WrappedFields(inner, NO_WRAPPED)
  {
    hide ReadVarint, ReadBytes;
    var r := new Reader(inner);
    var p := NO_WRAPPED;
    while !r.Done()
      invariant r.Valid()
      invariant WrappedFields(r.Rest(), p) == WrappedFields(inner, NO_WRAPPED)
      decreases |r.Rest()|
    {
      var tag := r.TakeByte();
      if tag.value == WRAPPED_SEQ && p.number.None? {
        var v := r.TakeVarint();
        if v.None? {
          return None;
        }
        p := p.(number := v);
      } else if tag.value == WRAPPED_PAYLOAD && p.payload.None? {
        var data := r.TakeBytes();
        if data.None? {
          return None;
        }
        p := p.(payload := data);
      } else if tag.value == WRAPPED_CLIENT && p.client.None? {
        var v := r.TakeVarint();
        if v.None? {
          return None;
        }
        p := p.(client := Some(v.value % TWO_32));
      } else if tag.value == WRAPPED_FLOW && p.flow.None? {
        var v := r.TakeVarint();
        if v.None? {
          return None;
        }
        p := p.(flow := Some(v.value % TWO_32));
      } else {
        return None;
      }
    }
    return Some(p);
  }

  /** Takes apart an unmasked packet: one of the three forms without unknown or repeated fields, or nothing. */
  method Parse(buf: seq<Byte>) returns (result: Option<Fast>)
    ensures result == Parsed(buf)
  {
    hide ReadVarint, ReadBytes, LiteFields, DataFields, OrderedFields, WrappedFields;
    var top := new Reader(buf);
    var tag := top.TakeByte();
    if tag != Some(PEER_LITE) {
      return None;
    }
    var lite := top.TakeBytes();
    if lite.None? || !top.Done() {
      return None;
    }
    var parts := ReadLite(lite.value);
    if parts.None? || parts.value.body.None? {
      return None;
    }
    var slot: U32 := Or(parts.value.slot, 0);
    var inner := parts.value.body.value;
    if inner.0 == LITE_DATA {
      var payload := ReadData(inner.1);
      if payload.None? {
        return None;
      }
      return Some(Data(slot, Or(payload.value, []), parts.value.pid));
    }
    if inner.0 == LITE_ORDERED {
      var p := ReadOrdered(inner.1);
      if p.None? {
        return None;
      }
      return Some(Ordered(slot, Or(p.value.flow, 0), Or(p.value.number, 0), Or(p.value.payload, []), parts.value.pid));
    }
    var p := ReadWrapped(inner.1);
    if p.None? {
      return None;
    }
    return Some(Wrapped(slot, Or(p.value.number, 0), Or(p.value.payload, []), Or(p.value.client, 0), p.value.flow,
                        parts.value.pid));
  }

  // ---------------------------------------------------------------- from one end to the other

  /**
   What an encoder leaves in the buffer, unmasked with the same key, is genuine to an opener with the same
   cipher, and the message in it parses as the very packet that was encoded.
   */
  lemma EncodedPacketsArrive(f: Fast, cipher: Cipher, counter: nat, key: Xor.Key)
    requires counter <= MAX_COUNTER && |Message(f)| < TWO_64
    ensures var packet := Masked(Masked(SealedPacket(cipher, counter, Message(f)), key), key);
            && Genuine(cipher, packet)
            && SignedCounter(packet) == counter
            && Parsed(MessageOf(packet)) == Some(f)
  {
    hide Genuine, SignedCounter, MessageOf, SealedPacket, Masked, Parsed, Message;
    UnmaskingRestores(SealedPacket(cipher, counter, Message(f)), key);
    AuthRuns.SealedIsGenuine(cipher, counter, Message(f));
    MessageReadsBack(f);
  }
}
