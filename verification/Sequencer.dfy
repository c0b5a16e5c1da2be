/** Numbering of outgoing packets (`bridge::Sequencer`): TCP packets get a number within their flow bucket. */
module Sequencers {
  import opened Prelude
  import opened Packets

  const FLOW_BUCKETS: nat := 16
  const MAX_DATA_LEN: nat := 1400

  datatype Proto = Tcp | OtherProto

  /** What the IP header says; `flowHash` stands for the hash of addresses and ports. */
  datatype Info = Info(proto: Proto, flowHash: nat)

  datatype Route = Ordered(flow: nat, number: nat) | Plain | Drop

  /** A packet read from the tunnel, with its header if it is an IP packet, and the hole it will go through. */
  datatype Datagram = Datagram(payload: seq<Byte>, info: Option<Info>, hole: nat)

  type Counters = s: seq<nat> | |s| == 16 witness [0, 0, 0, 0, 0, 0, 0, 0, 0, 0, 0, 0, 0, 0, 0, 0]

  const FROM_ZERO: Counters := [0, 0, 0, 0, 0, 0, 0, 0, 0, 0, 0, 0, 0, 0, 0, 0]

  function Bucket(info: Info): (b: nat)
    ensures b < FLOW_BUCKETS
  {
    info.flowHash % FLOW_BUCKETS
  }

  predicate IsNumbered(len: nat, info: Option<Info>) {
    len <= MAX_DATA_LEN && info.Some? && info.value.proto == Tcp
  }

  function RouteOf(next: Counters, len: nat, info: Option<Info>): Route {
    if len > MAX_DATA_LEN || info.None? then Drop
    else if info.value.proto == Tcp then Ordered(Bucket(info.value), next[Bucket(info.value)])
    else Plain
  }

  function Advanced(next: Counters, len: nat, info: Option<Info>): Counters {
    if IsNumbered(len, info) then next[Bucket(info.value) := next[Bucket(info.value)] + 1] else next
  }

  class Sequencer {
    const next: array<nat>

    ghost predicate Valid()
      reads this, next
    {
      next.Length == FLOW_BUCKETS
    }

    ghost function Value(): Counters
      reads this, next
      requires Valid()
    {
      next[..]
    }

    constructor ()
      ensures Valid() && fresh(next) && Value() == FROM_ZERO
    {
      next := new nat[FLOW_BUCKETS](_ => 0);
    }

    method RouteInspected(len: nat, info: Option<Info>) returns (route: Route)
      requires Valid()
      modifies next
      ensures Valid()
      ensures route == RouteOf(old(Value()), len, info)
      ensures Value() == Advanced(old(Value()), len, info)
    {
      if len > MAX_DATA_LEN {
        return Drop;
      }
      match info
      case Some(i) =>
        if i.proto == Tcp {
          var flow := i.flowHash % FLOW_BUCKETS;
          var number := next[flow];
          next[flow] := next[flow] + 1;
          route := Ordered(flow, number);
        } else {
          route := Plain;
        }
      case None =>
        route := Drop;
    }
  }

  // ---------------------------------------------------------------- a whole stream of packets

  /** What the far end receives of a datagram, if it is sent at all. */
  function Wire(d: Datagram, route: Route): seq<Incoming> {
    match route
    case Ordered(flow, number) => [Incoming(d.hole, d.payload, None, Some(Order(flow, number)))]
    case Plain => [Incoming(d.hole, d.payload, None, None)]
    case Drop => []
  }

  function Sent(next: Counters, inputs: seq<Datagram>): seq<Incoming>
    decreases |inputs|
  {
    if inputs == [] then []
    else
      var d := inputs[0];
      Wire(d, RouteOf(next, |d.payload|, d.info)) + Sent(Advanced(next, |d.payload|, d.info), inputs[1..])
  }

  predicate InBucket(p: Incoming, b: nat) {
    Numbered(p) && KeyOf(p) == Flow(b)
  }

  /** The numbered packets of bucket `b`, in order. */
  function Stream(packets: seq<Incoming>, b: nat): seq<Incoming>
    decreases |packets|
  {
    if packets == [] then []
    else (if InBucket(packets[0], b) then [packets[0]] else []) + Stream(packets[1..], b)
  }

  /** The payloads of the TCP datagrams that fall into bucket `b`, in the order they were read. */
  function TcpPayloads(inputs: seq<Datagram>, b: nat): seq<seq<Byte>>
    decreases |inputs|
  {
    if inputs == [] then []
    else
      var d := inputs[0];
      (if IsNumbered(|d.payload|, d.info) && Bucket(d.info.value) == b then [d.payload] else [])
      + TcpPayloads(inputs[1..], b)
  }

  function Payloads(packets: seq<Incoming>): (r: seq<seq<Byte>>)
    ensures |r| == |packets|
  {
    seq(|packets|, i requires 0 <= i < |packets| => packets[i].payload)
  }

  lemma {:induction false} StreamOfConcat(a: seq<Incoming>, c: seq<Incoming>, b: nat)
    ensures Stream(a + c, b) == Stream(a, b) + Stream(c, b)
    decreases |a|
  {
    if a == [] {
      assert a + c == c;
    } else {
      assert (a + c)[1..] == a[1..] + c;
      StreamOfConcat(a[1..], c, b);
    }
  }

  lemma {:induction false} StreamIsOfBucket(packets: seq<Incoming>, b: nat)
    ensures forall p :: p in Stream(packets, b) <==> p in packets && InBucket(p, b)
    decreases |packets|
  {
    if packets != [] {
      StreamIsOfBucket(packets[1..], b);
      assert packets == [packets[0]] + packets[1..];
    }
  }

  /** The packets carry consecutive numbers of bucket `b`, from `first`. */
  ghost predicate Consecutive(s: seq<Incoming>, b: nat, first: nat) {
    forall c: nat | c < |s| :: Carries(s[c], Flow(b), first + c)
  }

  lemma ConsecutiveMore(p: Incoming, rest: seq<Incoming>, b: nat, first: nat)
    requires Carries(p, Flow(b), first) && Consecutive(rest, b, first + 1)
    ensures Consecutive([p] + rest, b, first)
  {
    forall c: nat | c < |[p] + rest|
      ensures Carries(([p] + rest)[c], Flow(b), first + c)
    {
      if c > 0 {
        assert ([p] + rest)[c] == rest[c - 1];
        assert Carries(rest[c - 1], Flow(b), first + 1 + (c - 1));
      }
    }
  }

  /** The sender's numbering: the packets of a bucket carry consecutive numbers from the bucket's counter. */
  lemma {:induction false} StreamIsConsecutive(next: Counters, inputs: seq<Datagram>, b: nat)
    requires b < FLOW_BUCKETS
    ensures Consecutive(Stream(Sent(next, inputs), b), b, next[b])
    decreases |inputs|
  {
    if inputs != [] {
      var d := inputs[0];
      var wire := Wire(d, RouteOf(next, |d.payload|, d.info));
      var after := Advanced(next, |d.payload|, d.info);
      var rest := Stream(Sent(after, inputs[1..]), b);
      StreamOfConcat(wire, Sent(after, inputs[1..]), b);
      StreamIsConsecutive(after, inputs[1..], b);
      StreamOfWire(next, d, b);
      if after[b] == next[b] {
        assert Stream(wire, b) + rest == rest;
      } else {
        assert wire == [wire[0]];
        ConsecutiveMore(wire[0], rest, b, next[b]);
      }
    }
  }

  lemma StreamOfWire(next: Counters, d: Datagram, b: nat)
    requires b < FLOW_BUCKETS
    ensures
      var wire := Wire(d, RouteOf(next, |d.payload|, d.info));
      var after := Advanced(next, |d.payload|, d.info);
      if IsNumbered(|d.payload|, d.info) && Bucket(d.info.value) == b
      then after[b] == next[b] + 1 && Stream(wire, b) == wire && |wire| == 1 && Carries(wire[0], Flow(b), next[b])
           && wire[0].payload == d.payload
      else after[b] == next[b] && Stream(wire, b) == []
  {
    var wire := Wire(d, RouteOf(next, |d.payload|, d.info));
    if wire != [] {
      assert wire[1..] == [];
    }
  }

  /** Each bucket carries exactly its TCP payloads, in the order they were read. */
  lemma {:induction false} StreamCarriesPayloads(next: Counters, inputs: seq<Datagram>, b: nat)
    requires b < FLOW_BUCKETS
    ensures Payloads(Stream(Sent(next, inputs), b)) == TcpPayloads(inputs, b)
    decreases |inputs|
  {
    if inputs != [] {
      var d := inputs[0];
      var wire := Wire(d, RouteOf(next, |d.payload|, d.info));
      var after := Advanced(next, |d.payload|, d.info);
      StreamOfConcat(wire, Sent(after, inputs[1..]), b);
      StreamCarriesPayloads(after, inputs[1..], b);
      StreamOfWire(next, d, b);
      assert Payloads(Stream(wire, b) + Stream(Sent(after, inputs[1..]), b))
          == Payloads(Stream(wire, b)) + Payloads(Stream(Sent(after, inputs[1..]), b));
    }
  }

  /** Every numbered packet that is sent belongs to one of the 16 buckets. */
  lemma {:induction false} SentIsInBuckets(next: Counters, inputs: seq<Datagram>)
    ensures forall p | p in Sent(next, inputs) && Numbered(p) :: KeyOf(p).Flow? && KeyOf(p).flow < FLOW_BUCKETS
    decreases |inputs|
  {
    if inputs != [] {
      SentIsInBuckets(Advanced(next, |inputs[0].payload|, inputs[0].info), inputs[1..]);
    }
  }

  // ---------------------------------------------------------------- the three kinds of packets

  /**
   What is too long or no IP packet is dropped; a TCP packet is numbered in the bucket of its flow, one of 16; anything
   else goes without a number.
   */
  lemma RoutesByKind(next: Counters, len: nat, info: Option<Info>)
    ensures RouteOf(next, len, info) == Drop <==> len > 1400 || info.None?
    ensures RouteOf(next, len, info) == Plain <==> len <= 1400 && info.Some? && info.value.proto != Tcp
    ensures len <= 1400 && info.Some? && info.value.proto == Tcp ==>
              RouteOf(next, len, info) == Ordered(info.value.flowHash % 16, next[info.value.flowHash % 16])
  {
  }

  function Unnumbered(packets: seq<Incoming>): seq<Incoming>
    decreases |packets|
  {
    if packets == [] then []
    else (if packets[0].order.None? then [packets[0]] else []) + Unnumbered(packets[1..])
  }

  /** The payloads of the IP datagrams that are not TCP and not too long, in the order they were read. */
  function OtherPayloads(inputs: seq<Datagram>): seq<seq<Byte>>
    decreases |inputs|
  {
    if inputs == [] then []
    else
      var d := inputs[0];
      (if |d.payload| <= 1400 && d.info.Some? && d.info.value.proto != Tcp then [d.payload] else [])
      + OtherPayloads(inputs[1..])
  }

  lemma {:induction false} UnnumberedOfConcat(a: seq<Incoming>, c: seq<Incoming>)
    ensures Unnumbered(a + c) == Unnumbered(a) + Unnumbered(c)
    decreases |a|
  {
    if a == [] {
      assert a + c == c;
    } else {
      assert (a + c)[1..] == a[1..] + c;
      UnnumberedOfConcat(a[1..], c);
    }
  }

  /** What goes without a number is sent too, in the order it was read, and nothing else is. */
  lemma {:induction false} OthersAreSentToo(next: Counters, inputs: seq<Datagram>)
    ensures Payloads(Unnumbered(Sent(next, inputs))) == OtherPayloads(inputs)
    decreases |inputs|
  {
    if inputs != [] {
      var d := inputs[0];
      var wire, after := Wire(d, RouteOf(next, |d.payload|, d.info)), Advanced(next, |d.payload|, d.info);
      UnnumberedOfConcat(wire, Sent(after, inputs[1..]));
      OthersAreSentToo(after, inputs[1..]);
      if wire != [] {
        assert wire == [wire[0]] && wire[1..] == [];
      }
      assert Payloads(Unnumbered(wire) + Unnumbered(Sent(after, inputs[1..])))
          == Payloads(Unnumbered(wire)) + Payloads(Unnumbered(Sent(after, inputs[1..])));
    }
  }
}
