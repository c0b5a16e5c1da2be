/**
 The three packet forms of the fast path as bytes (wire.rs): Protocol Buffers fields with variable-length
 integers, written in a fixed order, read back in any order without repetitions or unknown fields.
 */
module WireFormat {
  import opened Prelude
  import opened Packets

  const VARINT: nat := 0
  const LENGTH: nat := 2

  function Key(field: nat, wireType: nat): (r: Byte)
    requires field < 16 && wireType < 8
  {
    field * 8 + wireType
  }

  const PEER_LITE: Byte := Key(2, LENGTH)
  const LITE_SLOT: Byte := Key(1, VARINT)
  const LITE_DATA: Byte := Key(3, LENGTH)
  const LITE_WRAPPED: Byte := Key(7, LENGTH)
  const LITE_ORDERED: Byte := Key(8, LENGTH)
  const LITE_PID: Byte := Key(15, VARINT)
  const DATA_PAYLOAD: Byte := Key(1, LENGTH)
  const WRAPPED_SEQ: Byte := Key(1, VARINT)
  const WRAPPED_PAYLOAD: Byte := Key(2, LENGTH)
  const WRAPPED_CLIENT: Byte := Key(3, VARINT)
  const WRAPPED_FLOW: Byte := Key(4, VARINT)
  const ORDERED_FLOW: Byte := Key(1, VARINT)
  const ORDERED_SEQ: Byte := Key(2, VARINT)
  const ORDERED_PAYLOAD: Byte := Key(3, LENGTH)

  /** A data packet in one of its three forms. */
  datatype Fast =
    | Data(slot: U32, payload: seq<Byte>, pid: Option<U32>)
    | Wrapped(slot: U32, number: U64, payload: seq<Byte>, clientId: U32, wrappedFlow: Option<U32>, pid: Option<U32>)
    | Ordered(slot: U32, flow: U32, number: U64, payload: seq<Byte>, pid: Option<U32>)

  // ---------------------------------------------------------------- writing

  /** Seven bits to a byte, lowest first; the top bit says that more follow. */
  function Varint(n: nat): (r: seq<Byte>)
    ensures |r| > 0
  {
    if n < 128 then [n] else [n % 128 + 128] + Varint(n / 128)
  }

  function Tagged(tag: Byte, n: nat): seq<Byte> {
    [tag] + Varint(n)
  }

  function Block(tag: Byte, data: seq<Byte>): seq<Byte> {
    Tagged(tag, |data|) + data
  }

  /** Plain fields are left out when they are zero or empty. */
  function VarintField(tag: Byte, n: nat): seq<Byte> {
    if n == 0 then [] else Tagged(tag, n)
  }

  function BytesField(tag: Byte, data: seq<Byte>): seq<Byte> {
    if data == [] then [] else Block(tag, data)
  }

  /** Optional fields are written whenever they are set, zero included. */
  function OptionalField(tag: Byte, o: Option<nat>): seq<Byte> {
    match o case None => [] case Some(n) => Tagged(tag, n)
  }

  function InnerTag(f: Fast): Byte {
    match f
    case Data(_, _, _) => LITE_DATA
    case Wrapped(_, _, _, _, _, _) => LITE_WRAPPED
    case Ordered(_, _, _, _, _) => LITE_ORDERED
  }

  function Inner(f: Fast): seq<Byte> {
    match f
    case Data(_, payload, _) => BytesField(DATA_PAYLOAD, payload)
    case Wrapped(_, number, payload, clientId, flow, _) =>
      VarintField(WRAPPED_SEQ, number)
      + (BytesField(WRAPPED_PAYLOAD, payload)
         + (VarintField(WRAPPED_CLIENT, clientId) + OptionalField(WRAPPED_FLOW, flow)))
    case Ordered(_, flow, number, payload, _) =>
      VarintField(ORDERED_FLOW, flow) + (VarintField(ORDERED_SEQ, number) + BytesField(ORDERED_PAYLOAD, payload))
  }

  function Lite(f: Fast): seq<Byte> {
    VarintField(LITE_SLOT, f.slot) + (Block(InnerTag(f), Inner(f)) + OptionalField(LITE_PID, f.pid))
  }

  function Message(f: Fast): seq<Byte> {
    Block(PEER_LITE, Lite(f))
  }

  // ---------------------------------------------------------------- reading

  function Power128(k: nat): (p: nat)
    ensures p > 0
  {
    if k == 0 then 1 else 128 * Power128(k - 1)
  }

  /** Seven more bits put in front of what was read so far; bits past the 64th are dropped. */
  function Accumulated(low: nat, b: Byte, k: nat): U64 {
    (low + b % 128 * Power128(k)) % TWO_64
  }

  /** A variable-length integer of at most ten bytes and what follows it. */
  function ReadVarint(s: seq<Byte>, k: nat, low: nat): (r: Option<(U64, seq<Byte>)>)
    ensures r.Some? ==> |r.value.1| < |s|
    decreases |s|
  {
    if k >= 10 || s == [] then
      None
    else
      var v := Accumulated(low, s[0], k);
      if s[0] < 128 then Some((v, s[1..])) else ReadVarint(s[1..], k + 1, v)
  }

  function ReadBytes(s: seq<Byte>): (r: Option<(seq<Byte>, seq<Byte>)>)
    ensures r.Some? ==> |r.value.1| < |s|
  {
    match ReadVarint(s, 0, 0)
    case None => None
    case Some((len, rest)) => if len > |rest| then None else Some((rest[..len], rest[len..]))
  }

  datatype LiteParts = LiteParts(slot: Option<U32>, body: Option<(Byte, seq<Byte>)>, pid: Option<U32>)

  function LiteFields(s: seq<Byte>, p: LiteParts): Option<LiteParts>
    decreases |s|
  {
    if s == [] then
      Some(p)
    else if s[0] == LITE_SLOT && p.slot.None? then
      match ReadVarint(s[1..], 0, 0)
      case None => None
      case Some((v, rest)) => LiteFields(rest, p.(slot := Some(v % TWO_32)))
    else if s[0] in {LITE_DATA, LITE_WRAPPED, LITE_ORDERED} && p.body.None? then
      match ReadBytes(s[1..])
      case None => None
      case Some((data, rest)) => LiteFields(rest, p.(body := Some((s[0], data))))
    else if s[0] == LITE_PID && p.pid.None? then
      match ReadVarint(s[1..], 0, 0)
      case None => None
      case Some((v, rest)) => LiteFields(rest, p.(pid := Some(v % TWO_32)))
    else
      None
  }

  function DataFields(s: seq<Byte>, payload: Option<seq<Byte>>): Option<Option<seq<Byte>>>
    decreases |s|
  {
    if s == [] then
      Some(payload)
    else if s[0] == DATA_PAYLOAD && payload.None? then
      match ReadBytes(s[1..])
      case None => None
      case Some((data, rest)) => DataFields(rest, Some(data))
    else
      None
  }

  datatype OrderedParts = OrderedParts(flow: Option<U32>, number: Option<U64>, payload: Option<seq<Byte>>)

  function OrderedFields(s: seq<Byte>, p: OrderedParts): Option<OrderedParts>
    decreases |s|
  {
    if s == [] then
      Some(p)
    else if s[0] == ORDERED_FLOW && p.flow.None? then
      match ReadVarint(s[1..], 0, 0)
      case None => None
      case Some((v, rest)) => OrderedFields(rest, p.(flow := Some(v % TWO_32)))
    else if s[0] == ORDERED_SEQ && p.number.None? then
      match ReadVarint(s[1..], 0, 0)
      case None => None
      case Some((v, rest)) => OrderedFields(rest, p.(number := Some(v)))
    else if s[0] == ORDERED_PAYLOAD && p.payload.None? then
      match ReadBytes(s[1..])
      case None => None
      case Some((data, rest)) => OrderedFields(rest, p.(payload := Some(data)))
    else
      None
  }

  datatype WrappedParts =
    WrappedParts(number: Option<U64>, payload: Option<seq<Byte>>, client: Option<U32>, flow: Option<U32>)

  function WrappedFields(s: seq<Byte>, p: WrappedParts): Option<WrappedParts>
    decreases |s|
  {
    if s == [] then
      Some(p)
    else if s[0] == WRAPPED_SEQ && p.number.None? then
      match ReadVarint(s[1..], 0, 0)
      case None => None
      case Some((v, rest)) => WrappedFields(rest, p.(number := Some(v)))
    else if s[0] == WRAPPED_PAYLOAD && p.payload.None? then
      match ReadBytes(s[1..])
      case None => None
      case Some((data, rest)) => WrappedFields(rest, p.(payload := Some(data)))
    else if s[0] == WRAPPED_CLIENT && p.client.None? then
      match ReadVarint(s[1..], 0, 0)
      case None => None
      case Some((v, rest)) => WrappedFields(rest, p.(client := Some(v % TWO_32)))
    else if s[0] == WRAPPED_FLOW && p.flow.None? then
      match ReadVarint(s[1..], 0, 0)
      case None => None
      case Some((v, rest)) => WrappedFields(rest, p.(flow := Some(v % TWO_32)))
    else
      None
  }

  function Or<T>(o: Option<T>, otherwise: T): T {
    match o case None => otherwise case Some(v) => v
  }

  const NO_LITE: LiteParts := LiteParts(None, None, None)
  const NO_ORDERED: OrderedParts := OrderedParts(None, None, None)
  const NO_WRAPPED: WrappedParts := WrappedParts(None, None, None, None)

  function ParseInner(slot: U32, tag: Byte, inner: seq<Byte>, pid: Option<U32>): Option<Fast> {
    if tag == LITE_DATA then
      match DataFields(inner, None)
      case None => None
      case Some(payload) => Some(Data(slot, Or(payload, []), pid))
    else if tag == LITE_ORDERED then
      match OrderedFields(inner, NO_ORDERED)
      case None => None
      case Some(p) => Some(Ordered(slot, Or(p.flow, 0), Or(p.number, 0), Or(p.payload, []), pid))
    else
      match WrappedFields(inner, NO_WRAPPED)
      case None => None
      case Some(p) => Some(Wrapped(slot, Or(p.number, 0), Or(p.payload, []), Or(p.client, 0), p.flow, pid))
  }

  function ParseLite(lite: seq<Byte>): Option<Fast> {
    match LiteFields(lite, NO_LITE)
    case None => None
    case Some(p) =>
      if p.body.None? then None else ParseInner(Or(p.slot, 0), p.body.value.0, p.body.value.1, p.pid)
  }

  function Parsed(buf: seq<Byte>): Option<Fast> {
    if buf == [] || buf[0] != PEER_LITE then
      None
    else
      match ReadBytes(buf[1..])
      case None => None
      case Some((lite, rest)) => if rest != [] then None else ParseLite(lite)
  }

  // ---------------------------------------------------------------- reading back what was written

  lemma TenSeptets()
    ensures Power128(10) >= TWO_64
  {
    assert Power128(5) == 0x8_0000_0000;
    assert Power128(10) == 128 * 128 * 128 * 128 * 128 * Power128(5);
  }

  lemma PowersAreSmall(k: nat)
    requires Power128(k) < TWO_64
    ensures k < 10
  {
    hide Power128;
    TenSeptets();
    if k >= 10 {
      PowersGrow(10, k);
    }
  }

  lemma {:induction false} PowersGrow(a: nat, b: nat)
    requires a <= b
    ensures Power128(a) <= Power128(b)
    decreases b
  {
    if a < b {
      PowersGrow(a, b - 1);
    }
  }

  lemma SplitByte(n: nat, p: nat)
    ensures n % 128 * p + n / 128 * (128 * p) == n * p
  {
    assert n == n % 128 + n / 128 * 128;
  }

  lemma Grows(n: nat, p: nat)
    requires n > 0
    ensures p <= n * p
  {
  }

  lemma FitsTenBytes(n: nat, k: nat)
    requires n * Power128(k) < TWO_64 && (k > 0 ==> n > 0)
    ensures k < 10
  {
    hide Power128;
    if n > 0 {
      Grows(n, Power128(k));
      PowersAreSmall(k);
    }
  }

  lemma SmallStays(x: nat)
    requires x < TWO_64
    ensures x % TWO_64 == x
  {
  }

  lemma NothingIsDropped(low: nat, b: Byte, k: nat, sum: nat)
    requires sum == low + b % 128 * Power128(k) && sum < TWO_64
    ensures Accumulated(low, b, k) == sum
  {
    hide Power128;
    SmallStays(sum);
  }

  lemma ReadLastByte(b: Byte, k: nat, low: nat, rest: seq<Byte>)
    requires b < 128 && k < 10 && low + b * Power128(k) < TWO_64
    ensures ReadVarint([b] + rest, k, low) == Some((low + b * Power128(k), rest))
  {
    hide Power128, Accumulated;
    assert b % 128 == b;
    NothingIsDropped(low, b, k, low + b * Power128(k));
    assert ([b] + rest)[1..] == rest;
  }

  lemma ReadOneMoreByte(b: Byte, k: nat, low: nat, more: seq<Byte>)
    requires b >= 128 && k < 10 && low + b % 128 * Power128(k) < TWO_64
    ensures ReadVarint([b] + more, k, low) == ReadVarint(more, k + 1, low + b % 128 * Power128(k))
  {
    hide Power128, Accumulated;
    NothingIsDropped(low, b, k, low + b % 128 * Power128(k));
    ReadStep(b, k, low, more);
  }

  lemma ReadStep(b: Byte, k: nat, low: nat, more: seq<Byte>)
    requires b >= 128 && k < 10
    ensures ReadVarint([b] + more, k, low) == ReadVarint(more, k + 1, Accumulated(low, b, k))
  {
    hide Power128, Accumulated;
    assert ([b] + more)[1..] == more;
  }

  lemma {:induction false} VarintReadsBack(n: nat, k: nat, low: nat, rest: seq<Byte>)
    requires low + n * Power128(k) < TWO_64
    requires k > 0 ==> n > 0
    ensures ReadVarint(Varint(n) + rest, k, low) == Some((low + n * Power128(k), rest))
    decreases n
  {
    hide ReadVarint, Power128;
    FitsTenBytes(n, k);
    if n < 128 {
      ReadLastByte(n, k, low, rest);
    } else {
      var p, b := Power128(k), n % 128 + 128;
      assert b % 128 == n % 128;
      SplitByte(n, p);
      NextPower(k);
      LastIsSmaller(n, p);
      ReadOneMoreByte(b, k, low, Varint(n / 128) + rest);
      assert Varint(n) + rest == [b] + (Varint(n / 128) + rest);
      VarintReadsBack(n / 128, k + 1, low + n % 128 * p, rest);
    }
  }

  lemma NextPower(k: nat)
    ensures Power128(k + 1) == 128 * Power128(k)
  {
  }

  lemma LastIsSmaller(n: nat, p: nat)
    ensures 0 <= n % 128 * p <= n * p
  {
    SplitByte(n, p);
    assert 0 <= n / 128 * (128 * p);
  }

  lemma TaggedReadsBack(tag: Byte, n: U64, rest: seq<Byte>)
    ensures Tagged(tag, n) + rest != [] && (Tagged(tag, n) + rest)[0] == tag
    ensures ReadVarint((Tagged(tag, n) + rest)[1..], 0, 0) == Some((n, rest))
  {
    VarintReadsBack(n, 0, 0, rest);
    assert (Tagged(tag, n) + rest)[1..] == Varint(n) + rest;
  }

  lemma BlockReadsBack(tag: Byte, data: seq<Byte>, rest: seq<Byte>)
    requires |data| < TWO_64
    ensures Block(tag, data) + rest != [] && (Block(tag, data) + rest)[0] == tag
    ensures ReadBytes((Block(tag, data) + rest)[1..]) == Some((data, rest))
  {
    var s := Block(tag, data) + rest;
    TaggedReadsBack(tag, |data|, data + rest);
    assert s == Tagged(tag, |data|) + (data + rest);
    assert (data + rest)[..|data|] == data && (data + rest)[|data|..] == rest;
  }

  // Each written field brings the reader to the rest with exactly that field filled in.

  function Set(n: nat): Option<nat> {
    if n == 0 then None else Some(n)
  }

  function Present(data: seq<Byte>): Option<seq<Byte>> {
    if data == [] then None else Some(data)
  }

  lemma WrappedNumberReadsBack(n: U64, rest: seq<Byte>, p: WrappedParts)
    requires p.number.None?
    ensures WrappedFields(VarintField(WRAPPED_SEQ, n) + rest, p) == WrappedFields(rest, p.(number := Set(n)))
  {
    hide Tagged, ReadVarint;
    if n == 0 {
      assert VarintField(WRAPPED_SEQ, n) + rest == rest;
    } else {
      TaggedReadsBack(WRAPPED_SEQ, n, rest);
    }
  }

  lemma WrappedPayloadReadsBack(data: seq<Byte>, rest: seq<Byte>, p: WrappedParts)
    requires p.payload.None? && |data| < TWO_64
    ensures WrappedFields(BytesField(WRAPPED_PAYLOAD, data) + rest, p)
            == WrappedFields(rest, p.(payload := Present(data)))
  {
    hide Block, ReadBytes;
    if data == [] {
      assert BytesField(WRAPPED_PAYLOAD, data) + rest == rest;
    } else {
      BlockReadsBack(WRAPPED_PAYLOAD, data, rest);
    }
  }

  lemma WrappedClientReadsBack(n: U32, rest: seq<Byte>, p: WrappedParts)
    requires p.client.None?
    ensures WrappedFields(VarintField(WRAPPED_CLIENT, n) + rest, p) == WrappedFields(rest, p.(client := Set(n)))
  {
    hide Tagged, ReadVarint;
    if n == 0 {
      assert VarintField(WRAPPED_CLIENT, n) + rest == rest;
    } else {
      TaggedReadsBack(WRAPPED_CLIENT, n, rest);
    }
  }

  lemma WrappedFlowReadsBack(o: Option<U32>, p: WrappedParts)
    requires p.flow.None?
    ensures WrappedFields(OptionalField(WRAPPED_FLOW, o), p) == Some(p.(flow := o))
  {
    hide Tagged, ReadVarint;
    if o.Some? {
      TaggedReadsBack(WRAPPED_FLOW, o.value, []);
      assert Tagged(WRAPPED_FLOW, o.value) + [] == OptionalField(WRAPPED_FLOW, o);
      assert WrappedFields([], p.(flow := o)) == Some(p.(flow := o));
    }
  }

  lemma WrappedReadsBack(f: Fast)
    requires f.Wrapped? && |f.payload| < TWO_64
    ensures WrappedFields(Inner(f), NO_WRAPPED)
            == Some(WrappedParts(Set(f.number), Present(f.payload), Set(f.clientId), f.wrappedFlow))
  {
    hide WrappedFields, VarintField, BytesField, OptionalField;
    var flow := OptionalField(WRAPPED_FLOW, f.wrappedFlow);
    var client := VarintField(WRAPPED_CLIENT, f.clientId) + flow;
    WrappedNumberReadsBack(f.number, BytesField(WRAPPED_PAYLOAD, f.payload) + client, NO_WRAPPED);
    var p := NO_WRAPPED.(number := Set(f.number));
    WrappedPayloadReadsBack(f.payload, client, p);
    p := p.(payload := Present(f.payload));
    WrappedClientReadsBack(f.clientId, flow, p);
    WrappedFlowReadsBack(f.wrappedFlow, p.(client := Set(f.clientId)));
  }

  lemma OrderedFlowReadsBack(n: U32, rest: seq<Byte>, p: OrderedParts)
    requires p.flow.None?
    ensures OrderedFields(VarintField(ORDERED_FLOW, n) + rest, p) == OrderedFields(rest, p.(flow := Set(n)))
  {
    hide Tagged, ReadVarint;
    if n == 0 {
      assert VarintField(ORDERED_FLOW, n) + rest == rest;
    } else {
      TaggedReadsBack(ORDERED_FLOW, n, rest);
    }
  }

  lemma OrderedNumberReadsBack(n: U64, rest: seq<Byte>, p: OrderedParts)
    requires p.number.None?
    ensures OrderedFields(VarintField(ORDERED_SEQ, n) + rest, p) == OrderedFields(rest, p.(number := Set(n)))
  {
    hide Tagged, ReadVarint;
    if n == 0 {
      assert VarintField(ORDERED_SEQ, n) + rest == rest;
    } else {
      TaggedReadsBack(ORDERED_SEQ, n, rest);
    }
  }

  lemma OrderedPayloadReadsBack(data: seq<Byte>, p: OrderedParts)
    requires p.payload.None? && |data| < TWO_64
    ensures OrderedFields(BytesField(ORDERED_PAYLOAD, data), p) == Some(p.(payload := Present(data)))
  {
    hide Block, ReadBytes;
    if data != [] {
      BlockReadsBack(ORDERED_PAYLOAD, data, []);
      assert Block(ORDERED_PAYLOAD, data) + [] == BytesField(ORDERED_PAYLOAD, data);
      assert OrderedFields([], p.(payload := Present(data))) == Some(p.(payload := Present(data)));
    }
  }

  lemma OrderedReadsBack(f: Fast)
    requires f.Ordered? && |f.payload| < TWO_64
    ensures OrderedFields(Inner(f), NO_ORDERED) == Some(OrderedParts(Set(f.flow), Set(f.number), Present(f.payload)))
  {
    hide OrderedFields, VarintField, BytesField;
    var payload := BytesField(ORDERED_PAYLOAD, f.payload);
    OrderedFlowReadsBack(f.flow, VarintField(ORDERED_SEQ, f.number) + payload, NO_ORDERED);
    var p := NO_ORDERED.(flow := Set(f.flow));
    OrderedNumberReadsBack(f.number, payload, p);
    OrderedPayloadReadsBack(f.payload, p.(number := Set(f.number)));
  }

  lemma DataReadsBack(f: Fast)
    requires f.Data? && |f.payload| < TWO_64
    ensures DataFields(Inner(f), None) == Some(Present(f.payload))
  {
    hide Block, ReadBytes;
    if f.payload != [] {
      BlockReadsBack(DATA_PAYLOAD, f.payload, []);
      assert Block(DATA_PAYLOAD, f.payload) + [] == Inner(f);
      assert DataFields([], Present(f.payload)) == Some(Present(f.payload));
    }
  }

  lemma InnerReadsBack(f: Fast)
    requires |f.payload| < TWO_64
    ensures ParseInner(f.slot, InnerTag(f), Inner(f), f.pid) == Some(f)
  {
    hide Inner, DataFields, OrderedFields, WrappedFields;
    match f
    case Data(_, _, _) => DataReadsBack(f);
    case Wrapped(_, _, _, _, _, _) => WrappedReadsBack(f);
    case Ordered(_, _, _, _, _) => OrderedReadsBack(f);
  }

  lemma LiteSlotReadsBack(n: U32, rest: seq<Byte>, p: LiteParts)
    requires p.slot.None?
    ensures LiteFields(VarintField(LITE_SLOT, n) + rest, p) == LiteFields(rest, p.(slot := Set(n)))
  {
    hide Tagged, ReadVarint, ReadBytes;
    if n == 0 {
      assert VarintField(LITE_SLOT, n) + rest == rest;
    } else {
      TaggedReadsBack(LITE_SLOT, n, rest);
    }
  }

  lemma LiteBodyReadsBack(tag: Byte, data: seq<Byte>, rest: seq<Byte>, p: LiteParts)
    requires p.body.None? && |data| < TWO_64 && tag in {LITE_DATA, LITE_WRAPPED, LITE_ORDERED}
    ensures LiteFields(Block(tag, data) + rest, p) == LiteFields(rest, p.(body := Some((tag, data))))
  {
    hide Block, ReadVarint, ReadBytes;
    BlockReadsBack(tag, data, rest);
  }

  lemma LitePidReadsBack(o: Option<U32>, p: LiteParts)
    requires p.pid.None?
    ensures LiteFields(OptionalField(LITE_PID, o), p) == Some(p.(pid := o))
  {
    hide Tagged, ReadVarint, ReadBytes;
    if o.Some? {
      TaggedReadsBack(LITE_PID, o.value, []);
      assert Tagged(LITE_PID, o.value) + [] == OptionalField(LITE_PID, o);
      assert LiteFields([], p.(pid := o)) == Some(p.(pid := o));
    }
  }

  lemma LiteReadsBack(f: Fast)
    requires |f.payload| < TWO_64 && |Inner(f)| < TWO_64
    ensures ParseLite(Lite(f)) == Some(f)
  {
    hide LiteFields, VarintField, Block, OptionalField, Inner, ParseInner;
    var pid := OptionalField(LITE_PID, f.pid);
    LiteSlotReadsBack(f.slot, Block(InnerTag(f), Inner(f)) + pid, NO_LITE);
    var p := NO_LITE.(slot := Set(f.slot));
    LiteBodyReadsBack(InnerTag(f), Inner(f), pid, p);
    LitePidReadsBack(f.pid, p.(body := Some((InnerTag(f), Inner(f)))));
    InnerReadsBack(f);
  }

  /** A message whose lengths a machine can hold is read back as exactly the packet it was made from. */
  lemma MessageReadsBack(f: Fast)
    requires |Message(f)| < TWO_64
    ensures Parsed(Message(f)) == Some(f)
  {
    hide Inner, ParseLite, ReadBytes, ReadVarint;
    PartsAreShorter(f);
    BlockReadsBack(PEER_LITE, Lite(f), []);
    assert Block(PEER_LITE, Lite(f)) + [] == Message(f);
    LiteReadsBack(f);
  }

  lemma PartsAreShorter(f: Fast)
    ensures |f.payload| <= |Inner(f)| <= |Lite(f)| <= |Message(f)|
  {
  }

  /** Different packets never look alike on the wire; in particular a zero `pid` differs from none. */
  lemma MessagesAreDistinct(f: Fast, g: Fast)
    requires |Message(f)| < TWO_64
    requires Message(f) == Message(g)
    ensures f == g
  {
    MessageReadsBack(f);
    MessageReadsBack(g);
  }
}
