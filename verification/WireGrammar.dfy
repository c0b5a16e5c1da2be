/**
 The three packet forms as a grammar of bytes, with the numbers of the fields written out: what a written message
 consists of, and exactly which byte strings are accepted as which packet.
 */
module WireGrammar {
  import opened Prelude
  import opened Packets
  import opened WireFormat

  // ---------------------------------------------------------------- numbers

  /** Seven bits to a byte, lowest first. */
  function Septets(v: seq<Byte>): nat {
    if v == [] then 0 else v[0] % 128 + 128 * Septets(v[1..])
  }

  /** One to `room` bytes, of which exactly the last is below 128. */
  predicate IsChain(v: seq<Byte>, room: int) {
    && 1 <= |v| <= room
    && v[|v| - 1] < 128
    && forall i | 0 <= i < |v| - 1 :: v[i] >= 128
  }

  /** At most ten bytes that stand for `n`; of what they say only 64 bits count. */
  predicate IsNumber(v: seq<Byte>, n: nat) {
    IsChain(v, 10) && n == Septets(v) % 0x1_0000_0000_0000_0000
  }

  lemma ChainTail(v: seq<Byte>, room: int)
    requires |v| > 1
    ensures IsChain(v, room) <==> v[0] >= 128 && IsChain(v[1..], room - 1)
  {
    var t := v[1..];
    assert t[|t| - 1] == v[|v| - 1];
    assert forall i | 0 <= i < |t| :: t[i] == v[i + 1];
    if v[0] >= 128 && IsChain(t, room - 1) {
      forall i | 0 <= i < |v| - 1
        ensures v[i] >= 128
      {
        assert i > 0 ==> v[i] == t[i - 1];
      }
    }
  }

  lemma ModuloOfSum(a: nat, b: nat, m: nat)
    requires m > 0
    ensures (a % m + b) % m == (a + b) % m
  {
    var q, r := a / m, a % m;
    assert a == m * q + r;
    var q', r' := (r + b) / m, (r + b) % m;
    assert r + b == m * q' + r';
    assert a + b == m * (q + q') + r' by {
      assert m * (q + q') == m * q + m * q';
    }
    Remainder(a + b, m, q + q', r');
  }

  lemma Remainder(x: nat, m: nat, q: nat, r: nat)
    requires r < m && x == m * q + r
    ensures x % m == r
  {
    assert q * m == m * q;
    Quotient(x, m, q, r);
  }

  lemma SeptetStep(low: nat, b: Byte, k: nat, rest: nat)
    ensures
      (Accumulated(low, b, k) + rest * Power128(k + 1)) % TWO_64
      == (low + (b % 128 + 128 * rest) * Power128(k)) % TWO_64
  {
    hide Power128;
    NextPower(k);
    var p := Power128(k);
    assert rest * (128 * p) == 128 * rest * p;
    assert (b % 128 + 128 * rest) * p == b % 128 * p + 128 * rest * p;
    ModuloOfSum(low + b % 128 * p, rest * (128 * p), TWO_64);
  }

  lemma NoMore(low: nat, b: Byte, k: nat)
    ensures Accumulated(low, b, k) == (low + (b % 128 + 128 * 0) * Power128(k)) % TWO_64
  {
  }

  lemma SeptetsOf(v: seq<Byte>)
    requires v != []
    ensures Septets(v) == v[0] % 128 + 128 * (if |v| == 1 then 0 else Septets(v[1..]))
  {
  }

  /** A chain of bytes is read as the number it stands for, whatever follows. */
  lemma {:induction false} ChainIsRead(v: seq<Byte>, k: nat, low: nat, rest: seq<Byte>)
    requires k < 10 && IsChain(v, 10 - k)
    ensures ReadVarint(v + rest, k, low) == Some(((low + Septets(v) * Power128(k)) % TWO_64, rest))
    decreases |v|
  {
    hide Power128, Accumulated, Septets, IsChain;
    var s := v + rest;
    ChainEnds(v, 10 - k);
    SeptetsOf(v);
    assert s[0] == v[0] && s[1..] == v[1..] + rest;
    if |v| == 1 {
      NoMore(low, v[0], k);
      assert s[1..] == rest;
    } else {
      ChainTail(v, 10 - k);
      ChainEnds(v[1..], 9 - k);
      ChainIsRead(v[1..], k + 1, Accumulated(low, v[0], k), rest);
      SeptetStep(low, v[0], k, Septets(v[1..]));
    }
  }

  lemma ChainEnds(v: seq<Byte>, room: int)
    requires IsChain(v, room)
    ensures 1 <= |v| <= room && (|v| == 1 ==> v[0] < 128) && (|v| > 1 ==> v[0] >= 128)
  {
  }

  /** What is read as a number begins with such a chain. */
  lemma {:induction false} ReadIsChain(s: seq<Byte>, k: nat, low: nat) returns (v: seq<Byte>)
    requires ReadVarint(s, k, low).Some?
    ensures k < 10 && IsChain(v, 10 - k) && s == v + ReadVarint(s, k, low).value.1
    decreases |s|
  {
    hide Accumulated;
    if s[0] < 128 {
      v := [s[0]];
    } else {
      var t := ReadIsChain(s[1..], k + 1, Accumulated(low, s[0], k));
      v := [s[0]] + t;
      assert v[1..] == t;
      ChainTail(v, 10 - k);
    }
  }

  lemma NumberIsRead(v: seq<Byte>, n: nat, rest: seq<Byte>)
    requires IsNumber(v, n)
    ensures ReadVarint(v + rest, 0, 0) == Some((n, rest))
  {
    hide ReadVarint, Septets;
    ChainIsRead(v, 0, 0, rest);
    assert Power128(0) == 1;
  }

  lemma ReadIsNumber(s: seq<Byte>) returns (v: seq<Byte>)
    requires ReadVarint(s, 0, 0).Some?
    ensures s == v + ReadVarint(s, 0, 0).value.1 && IsNumber(v, ReadVarint(s, 0, 0).value.0)
  {
    v := ReadIsChain(s, 0, 0);
    var rest := ReadVarint(s, 0, 0).value.1;
    NumberIsRead(v, Septets(v) % TWO_64, rest);
  }

  /** Every number that is written is such a chain, and stands for itself. */
  lemma {:induction false} WrittenIsChain(n: nat, room: nat)
    requires room > 0 && n < Power128(room)
    ensures IsChain(Varint(n), room) && Septets(Varint(n)) == n
    decreases n
  {
    if n >= 128 {
      var v := Varint(n);
      assert v[1..] == Varint(n / 128);
      assert Power128(room) == 128 * Power128(room - 1) && Power128(0) == 1;
      WrittenIsChain(n / 128, room - 1);
      ChainTail(v, room);
    } else {
      assert Varint(n)[1..] == [];
    }
  }

  lemma WrittenIsNumber(n: U64)
    ensures IsNumber(Varint(n), n)
  {
    TenSeptets();
    WrittenIsChain(n, 10);
  }

  // ---------------------------------------------------------------- fields

  datatype Kind = Numeric | Counted | Unknown

  datatype Field = Number(tag: Byte, value: U64) | Bytes(tag: Byte, data: seq<Byte>)

  /** The bytes of one field: its tag, and a number, or a length and as many bytes. */
  ghost predicate IsField(s: seq<Byte>, f: Field) {
    && s != [] && s[0] == f.tag
    && match f
      case Number(_, n) => IsNumber(s[1..], n)
      case Bytes(_, data) => exists v :: IsNumber(v, |data|) && s[1..] == v + data
  }

  /** The bytes of these fields, one after the other, each of the kind its tag says. */
  ghost predicate AreFields(s: seq<Byte>, fields: seq<Field>, kinds: Byte -> Kind)
    decreases |fields|
  {
    if fields == [] then s == []
    else
      && kinds(fields[0].tag) == (if fields[0].Number? then Numeric else Counted)
      && exists k :: 0 < k <= |s| && IsField(s[..k], fields[0]) && AreFields(s[k..], fields[1..], kinds)
  }

  function ReadField(s: seq<Byte>, kinds: Byte -> Kind): (r: Option<(Field, seq<Byte>)>)
    requires s != []
    ensures r.Some? ==> |r.value.1| < |s|
  {
    match kinds(s[0])
    case Numeric => (match ReadVarint(s[1..], 0, 0)
                     case None => None
                     case Some((n, rest)) => Some((Number(s[0], n), rest)))
    case Counted => (match ReadBytes(s[1..])
                     case None => None
                     case Some((data, rest)) => Some((Bytes(s[0], data), rest)))
    case Unknown => None
  }

  function ReadFields(s: seq<Byte>, kinds: Byte -> Kind): Option<seq<Field>>
    decreases |s|
  {
    if s == [] then Some([])
    else
      match ReadField(s, kinds)
      case None => None
      case Some((f, rest)) =>
        (match ReadFields(rest, kinds)
         case None => None
         case Some(more) => Some([f] + more))
  }

  lemma FieldIsRead(s: seq<Byte>, f: Field, rest: seq<Byte>, kinds: Byte -> Kind)
    requires IsField(s, f) && kinds(f.tag) == if f.Number? then Numeric else Counted
    ensures s + rest != [] && ReadField(s + rest, kinds) == Some((f, rest))
  {
    hide IsNumber, ReadVarint;
    assert (s + rest)[1..] == s[1..] + rest;
    match f
    case Number(_, n) => NumberIsRead(s[1..], n, rest);
    case Bytes(_, data) =>
      var v :| IsNumber(v, |data|) && s[1..] == v + data;
      assert s[1..] + rest == v + (data + rest);
      NumberIsRead(v, |data|, data + rest);
      assert (data + rest)[..|data|] == data && (data + rest)[|data|..] == rest;
  }

  lemma ReadIsField(s: seq<Byte>, kinds: Byte -> Kind)
    requires s != [] && ReadField(s, kinds).Some?
    ensures
      var (f, rest) := ReadField(s, kinds).value;
      var k := |s| - |rest|;
      && kinds(f.tag) == (if f.Number? then Numeric else Counted)
      && 0 < k <= |s| && s[k..] == rest && IsField(s[..k], f)
  {
    hide IsNumber, ReadVarint;
    var (f, rest) := ReadField(s, kinds).value;
    var v := ReadIsNumber(s[1..]);
    var k := |s| - |rest|;
    match f
    case Number(_, n) =>
      assert s == [s[0]] + v + rest && s[..k] == [s[0]] + v;
      assert s[..k][1..] == v;
    case Bytes(_, data) =>
      assert s == [s[0]] + (v + data) + rest && s[..k] == [s[0]] + (v + data);
      assert s[..k][1..] == v + data;
  }

  /** The reader of fields accepts exactly the byte strings that are made of fields, and gives these fields. */
  lemma {:induction false} FieldsAreRead(s: seq<Byte>, fields: seq<Field>, kinds: Byte -> Kind)
    ensures ReadFields(s, kinds) == Some(fields) <==> AreFields(s, fields, kinds)
    decreases |s|, |fields|
  {
    hide IsField, ReadField;
    if AreFields(s, fields, kinds) && fields != [] {
      var k :| 0 < k <= |s| && IsField(s[..k], fields[0]) && AreFields(s[k..], fields[1..], kinds);
      FieldIsRead(s[..k], fields[0], s[k..], kinds);
      assert s[..k] + s[k..] == s;
      FieldsAreRead(s[k..], fields[1..], kinds);
      assert [fields[0]] + fields[1..] == fields;
    }
    if s != [] && ReadFields(s, kinds) == Some(fields) {
      ReadIsField(s, kinds);
      var (f, rest) := ReadField(s, kinds).value;
      assert fields[0] == f && ReadFields(rest, kinds) == Some(fields[1..]);
      FieldsAreRead(rest, fields[1..], kinds);
    }
  }

  // ---------------------------------------------------------------- the four messages

  /** In the outer message: hole 0x08, packet id 0x78; plain, wrapped and numbered data 0x1A, 0x3A and 0x42. */
  function LiteKind(b: Byte): Kind {
    if b == 0x08 || b == 0x78 then Numeric else if b == 0x1A || b == 0x3A || b == 0x42 then Counted else Unknown
  }

  /** Each of hole, body and packet id at most once. */
  function FillLite(p: LiteParts, fields: seq<Field>): Option<LiteParts>
    decreases |fields|
  {
    if fields == [] then Some(p)
    else
      match fields[0]
      case Bytes(tag, data) =>
        if p.body.Some? then None else FillLite(p.(body := Some((tag, data))), fields[1..])
      case Number(tag, n) =>
        if tag == 0x08 then
          if p.slot.Some? then None else FillLite(p.(slot := Some(n % 0x1_0000_0000)), fields[1..])
        else
          if p.pid.Some? then None else FillLite(p.(pid := Some(n % 0x1_0000_0000)), fields[1..])
  }

  function DataKind(b: Byte): Kind {
    if b == 0x0A then Counted else Unknown
  }

  function FillData(payload: Option<seq<Byte>>, fields: seq<Field>): Option<Option<seq<Byte>>>
    decreases |fields|
  {
    if fields == [] then Some(payload)
    else if payload.Some? || fields[0].Number? then None
    else FillData(Some(fields[0].data), fields[1..])
  }

  function OrderedKind(b: Byte): Kind {
    if b == 0x08 || b == 0x10 then Numeric else if b == 0x1A then Counted else Unknown
  }

  function FillOrdered(p: OrderedParts, fields: seq<Field>): Option<OrderedParts>
    decreases |fields|
  {
    if fields == [] then Some(p)
    else
      match fields[0]
      case Bytes(_, data) =>
        if p.payload.Some? then None else FillOrdered(p.(payload := Some(data)), fields[1..])
      case Number(tag, n) =>
        if tag == 0x08 then
          if p.flow.Some? then None else FillOrdered(p.(flow := Some(n % 0x1_0000_0000)), fields[1..])
        else
          if p.number.Some? then None else FillOrdered(p.(number := Some(n)), fields[1..])
  }

  function WrappedKind(b: Byte): Kind {
    if b == 0x08 || b == 0x18 || b == 0x20 then Numeric else if b == 0x12 then Counted else Unknown
  }

  function FillWrapped(p: WrappedParts, fields: seq<Field>): Option<WrappedParts>
    decreases |fields|
  {
    if fields == [] then Some(p)
    else
      match fields[0]
      case Bytes(_, data) =>
        if p.payload.Some? then None else FillWrapped(p.(payload := Some(data)), fields[1..])
      case Number(tag, n) =>
        if tag == 0x08 then
          if p.number.Some? then None else FillWrapped(p.(number := Some(n)), fields[1..])
        else if tag == 0x18 then
          if p.client.Some? then None else FillWrapped(p.(client := Some(n % 0x1_0000_0000)), fields[1..])
        else
          if p.flow.Some? then None else FillWrapped(p.(flow := Some(n % 0x1_0000_0000)), fields[1..])
  }

  lemma ReadFieldsStep(s: seq<Byte>, kinds: Byte -> Kind)
    requires s != []
    ensures
      match ReadField(s, kinds)
      case None => ReadFields(s, kinds) == None
      case Some((f, rest)) =>
        match ReadFields(rest, kinds)
        case None => ReadFields(s, kinds) == None
        case Some(more) => ReadFields(s, kinds) == Some([f] + more) && ([f] + more)[0] == f && ([f] + more)[1..] == more
  {
    hide ReadField;
  }

  lemma {:induction false} LiteByFields(s: seq<Byte>, p: LiteParts)
    ensures
      LiteFields(s, p)
      == match ReadFields(s, LiteKind) case None => None case Some(fields) => FillLite(p, fields)
    decreases |s|
  {
    hide ReadVarint, ReadBytes, ReadFields;
    if s == [] {
      NoFields(LiteKind);
    } else {
      ReadFieldsStep(s, LiteKind);
      if ReadField(s, LiteKind).Some? {
        var (f, rest) := ReadField(s, LiteKind).value;
        match f
        case Bytes(tag, data) => LiteByFields(rest, p.(body := Some((tag, data))));
        case Number(tag, n) =>
          LiteByFields(rest, if tag == 0x08 then p.(slot := Some(n % TWO_32)) else p.(pid := Some(n % TWO_32)));
      }
    }
  }

  lemma NoFields(kinds: Byte -> Kind)
    ensures ReadFields([], kinds) == Some([])
  {
  }

  lemma {:induction false} DataByFields(s: seq<Byte>, payload: Option<seq<Byte>>)
    ensures
      DataFields(s, payload)
      == match ReadFields(s, DataKind) case None => None case Some(fields) => FillData(payload, fields)
    decreases |s|
  {
    hide ReadVarint, ReadBytes, ReadFields;
    if s == [] {
      NoFields(DataKind);
    } else {
      ReadFieldsStep(s, DataKind);
      if ReadField(s, DataKind).Some? {
        var (f, rest) := ReadField(s, DataKind).value;
        DataByFields(rest, Some(f.data));
      }
    }
  }

  lemma {:induction false} OrderedByFields(s: seq<Byte>, p: OrderedParts)
    ensures
      OrderedFields(s, p)
      == match ReadFields(s, OrderedKind) case None => None case Some(fields) => FillOrdered(p, fields)
    decreases |s|
  {
    hide ReadVarint, ReadBytes, ReadFields;
    if s == [] {
      NoFields(OrderedKind);
    } else {
      ReadFieldsStep(s, OrderedKind);
      if ReadField(s, OrderedKind).Some? {
        var (f, rest) := ReadField(s, OrderedKind).value;
        match f
        case Bytes(_, data) => OrderedByFields(rest, p.(payload := Some(data)));
        case Number(tag, n) =>
          OrderedByFields(rest, if tag == 0x08 then p.(flow := Some(n % TWO_32)) else p.(number := Some(n)));
      }
    }
  }

  lemma {:induction false} WrappedByFields(s: seq<Byte>, p: WrappedParts)
    ensures
      WrappedFields(s, p)
      == match ReadFields(s, WrappedKind) case None => None case Some(fields) => FillWrapped(p, fields)
    decreases |s|
  {
    hide ReadVarint, ReadBytes, ReadFields;
    if s == [] {
      NoFields(WrappedKind);
    } else {
      ReadFieldsStep(s, WrappedKind);
      if ReadField(s, WrappedKind).Some? {
        var (f, rest) := ReadField(s, WrappedKind).value;
        match f
        case Bytes(_, data) => WrappedByFields(rest, p.(payload := Some(data)));
        case Number(tag, n) =>
          WrappedByFields(rest, if tag == 0x08 then p.(number := Some(n))
                                else if tag == 0x18 then p.(client := Some(n % TWO_32))
                                else p.(flow := Some(n % TWO_32)));
      }
    }
  }

  // ---------------------------------------------------------------- whole messages

  /** The fields of the inner message give the packet; what is missing counts as zero or empty. */
  ghost predicate InnerIs(slot: U32, tag: Byte, inner: seq<Byte>, pid: Option<U32>, fields: seq<Field>, f: Fast) {
    if tag == 0x1A then
      && AreFields(inner, fields, DataKind)
      && var payload := FillData(None, fields);
        payload.Some? && f == Data(slot, Or(payload.value, []), pid)
    else if tag == 0x42 then
      && AreFields(inner, fields, OrderedKind)
      && var p := FillOrdered(NO_ORDERED, fields);
        p.Some? && f == Ordered(slot, Or(p.value.flow, 0), Or(p.value.number, 0), Or(p.value.payload, []), pid)
    else
      && AreFields(inner, fields, WrappedKind)
      && var p := FillWrapped(NO_WRAPPED, fields);
        && p.Some?
        && f == Wrapped(slot, Or(p.value.number, 0), Or(p.value.payload, []), Or(p.value.client, 0), p.value.flow, pid)
  }

  ghost predicate LiteIs(lite: seq<Byte>, outer: seq<Field>, inner: seq<Field>, f: Fast) {
    && AreFields(lite, outer, LiteKind)
    && var p := FillLite(NO_LITE, outer);
      && p.Some? && p.value.body.Some?
      && InnerIs(Or(p.value.slot, 0), p.value.body.value.0, p.value.body.value.1, p.value.pid, inner, f)
  }

  /** One field 0x12, the length of the rest, and the rest. */
  ghost predicate MessageIs(buf: seq<Byte>, length: seq<Byte>, lite: seq<Byte>, outer: seq<Field>, inner: seq<Field>,
                            f: Fast)
  {
    buf == [0x12] + length + lite && IsNumber(length, |lite|) && LiteIs(lite, outer, inner, f)
  }

  lemma InnerIsParsed(slot: U32, tag: Byte, inner: seq<Byte>, pid: Option<U32>, fields: seq<Field>, f: Fast)
    requires InnerIs(slot, tag, inner, pid, fields, f)
    ensures ParseInner(slot, tag, inner, pid) == Some(f)
  {
    hide ReadFields, AreFields, DataFields, OrderedFields, WrappedFields;
    DataByFields(inner, None);
    OrderedByFields(inner, NO_ORDERED);
    WrappedByFields(inner, NO_WRAPPED);
    FieldsAreRead(inner, fields, DataKind);
    FieldsAreRead(inner, fields, OrderedKind);
    FieldsAreRead(inner, fields, WrappedKind);
  }

  lemma ParsedIsInner(slot: U32, tag: Byte, inner: seq<Byte>, pid: Option<U32>) returns (fields: seq<Field>)
    requires ParseInner(slot, tag, inner, pid).Some?
    ensures InnerIs(slot, tag, inner, pid, fields, ParseInner(slot, tag, inner, pid).value)
  {
    hide ReadFields, AreFields, DataFields, OrderedFields, WrappedFields;
    DataByFields(inner, None);
    OrderedByFields(inner, NO_ORDERED);
    WrappedByFields(inner, NO_WRAPPED);
    var kinds := if tag == 0x1A then DataKind else if tag == 0x42 then OrderedKind else WrappedKind;
    fields := ReadFields(inner, kinds).value;
    FieldsAreRead(inner, fields, kinds);
  }

  lemma LiteIsParsed(lite: seq<Byte>, outer: seq<Field>, inner: seq<Field>, f: Fast)
    requires LiteIs(lite, outer, inner, f)
    ensures ParseLite(lite) == Some(f)
  {
    hide ReadFields, AreFields, LiteFields, InnerIs, ParseInner;
    LiteByFields(lite, NO_LITE);
    FieldsAreRead(lite, outer, LiteKind);
    var p := FillLite(NO_LITE, outer).value;
    InnerIsParsed(Or(p.slot, 0), p.body.value.0, p.body.value.1, p.pid, inner, f);
  }

  lemma ParsedIsLite(lite: seq<Byte>) returns (outer: seq<Field>, inner: seq<Field>)
    requires ParseLite(lite).Some?
    ensures LiteIs(lite, outer, inner, ParseLite(lite).value)
  {
    hide ReadFields, AreFields, LiteFields, InnerIs, ParseInner;
    LiteByFields(lite, NO_LITE);
    outer := ReadFields(lite, LiteKind).value;
    FieldsAreRead(lite, outer, LiteKind);
    var p := FillLite(NO_LITE, outer).value;
    inner := ParsedIsInner(Or(p.slot, 0), p.body.value.0, p.body.value.1, p.pid);
  }

  lemma MessageIsParsed(buf: seq<Byte>, length: seq<Byte>, lite: seq<Byte>, outer: seq<Field>, inner: seq<Field>,
                        f: Fast)
    requires MessageIs(buf, length, lite, outer, inner, f)
    ensures Parsed(buf) == Some(f)
  {
    hide LiteIs, ParseLite, IsNumber, ReadVarint;
    LiteIsParsed(lite, outer, inner, f);
    NumberIsRead(length, |lite|, lite);
    assert buf[1..] == length + lite;
    assert lite[..|lite|] == lite && lite[|lite|..] == [];
  }

  lemma ParsedIsMessage(buf: seq<Byte>)
    returns (length: seq<Byte>, lite: seq<Byte>, outer: seq<Field>, inner: seq<Field>)
    requires Parsed(buf).Some?
    ensures MessageIs(buf, length, lite, outer, inner, Parsed(buf).value)
  {
    hide LiteIs, ParseLite, IsNumber, ReadVarint;
    length := ReadIsNumber(buf[1..]);
    var (bytes, rest) := ReadBytes(buf[1..]).value;
    lite := bytes;
    assert ReadVarint(buf[1..], 0, 0).value.1 == lite + rest;
    assert buf == [buf[0]] + buf[1..];
    assert buf == [0x12] + length + lite;
    outer, inner := ParsedIsLite(lite);
  }

  /**
   The parser accepts exactly the messages of the grammar, as exactly the packet their fields give: fields in any order,
   numbers of up to ten bytes, no unknown field, no field twice, nothing after the end.
   */
  lemma ParsesExactly(buf: seq<Byte>, f: Fast)
    ensures Parsed(buf) == Some(f)
            <==> exists length, lite, outer, inner :: MessageIs(buf, length, lite, outer, inner, f)
  {
    hide MessageIs, Parsed;
    if Parsed(buf) == Some(f) {
      var length, lite, outer, inner := ParsedIsMessage(buf);
    }
    if length, lite, outer, inner :| MessageIs(buf, length, lite, outer, inner, f) {
      MessageIsParsed(buf, length, lite, outer, inner, f);
    }
  }

  // ---------------------------------------------------------------- what is written

  /** A number field, left out when it is zero. */
  function Plain(tag: Byte, n: nat): seq<Byte> {
    if n == 0 then [] else [tag] + Varint(n)
  }

  /** A number field, left out when it is not set. */
  function Optional(tag: Byte, o: Option<nat>): seq<Byte> {
    if o.None? then [] else [tag] + Varint(o.value)
  }

  /** Bytes behind their length. */
  function Measured(tag: Byte, data: seq<Byte>): seq<Byte> {
    [tag] + Varint(|data|) + data
  }

  function Payload(tag: Byte, data: seq<Byte>): seq<Byte> {
    if data == [] then [] else Measured(tag, data)
  }

  /** What the writers put down, byte for byte. */
  lemma WritesExactly(f: Fast)
    ensures
      Message(f)
      == match f
         case Data(slot, payload, pid) =>
           Measured(0x12, Plain(0x08, slot) + Measured(0x1A, Payload(0x0A, payload)) + Optional(0x78, pid))
         case Wrapped(slot, number, payload, client, flow, pid) =>
           Measured(0x12, Plain(0x08, slot)
                          + Measured(0x3A, Plain(0x08, number) + Payload(0x12, payload)
                                           + Plain(0x18, client) + Optional(0x20, flow))
                          + Optional(0x78, pid))
         case Ordered(slot, flow, number, payload, pid) =>
           Measured(0x12, Plain(0x08, slot)
                          + Measured(0x42, Plain(0x08, flow) + Plain(0x10, number) + Payload(0x1A, payload))
                          + Optional(0x78, pid))
  {
    hide Varint, VarintField, OptionalField, Plain, Payload, Optional;
    InnerIsWritten(f);
    PlainIs(LITE_SLOT, f.slot);
    OptionalIs(LITE_PID, f.pid);
    hide Inner;
    assert Lite(f) == VarintField(LITE_SLOT, f.slot) + Block(InnerTag(f), Inner(f)) + OptionalField(LITE_PID, f.pid);
  }

  lemma InnerIsWritten(f: Fast)
    ensures
      Inner(f)
      == match f
         case Data(_, payload, _) => Payload(0x0A, payload)
         case Wrapped(_, number, payload, client, flow, _) =>
           Plain(0x08, number) + Payload(0x12, payload) + Plain(0x18, client) + Optional(0x20, flow)
         case Ordered(_, flow, number, payload, _) =>
           Plain(0x08, flow) + Plain(0x10, number) + Payload(0x1A, payload)
  {
    hide VarintField, BytesField, OptionalField, Plain, Payload, Optional;
    match f
    case Data(_, payload, _) => PayloadIs(DATA_PAYLOAD, payload);
    case Wrapped(_, number, payload, client, flow, _) =>
      PlainIs(WRAPPED_SEQ, number);
      PayloadIs(WRAPPED_PAYLOAD, payload);
      PlainIs(WRAPPED_CLIENT, client);
      OptionalIs(WRAPPED_FLOW, flow);
      var a, b, c, d := Plain(0x08, number), Payload(0x12, payload), Plain(0x18, client), Optional(0x20, flow);
      assert a + (b + (c + d)) == a + b + c + d;
    case Ordered(_, flow, number, payload, _) =>
      PlainIs(ORDERED_FLOW, flow);
      PlainIs(ORDERED_SEQ, number);
      PayloadIs(ORDERED_PAYLOAD, payload);
      var a, b, c := Plain(0x08, flow), Plain(0x10, number), Payload(0x1A, payload);
      assert a + (b + c) == a + b + c;
  }

  lemma PlainIs(tag: Byte, n: nat)
    ensures VarintField(tag, n) == Plain(tag, n)
  {
    hide Varint;
  }

  lemma OptionalIs(tag: Byte, o: Option<nat>)
    ensures OptionalField(tag, o) == Optional(tag, o)
  {
    hide Varint;
  }

  lemma PayloadIs(tag: Byte, data: seq<Byte>)
    ensures BytesField(tag, data) == Payload(tag, data)
  {
    hide Varint;
  }
}
