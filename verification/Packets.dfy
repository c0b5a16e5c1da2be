/** Packets as they come off a hole (`multilink::Incoming`). */
module Packets {
  import opened Prelude

  type Byte = b: int | 0 <= b < 256

  /** What a wrapped packet says about the client behind a router. */
  datatype WrappedInfo = WrappedInfo(clientId: nat, number: nat)

  /** The number the sender gave the packet: a flow bucket and a position in it. */
  datatype Order = Order(flow: nat, number: nat)

  datatype Incoming = Incoming(slot: nat, payload: seq<Byte>, wrapped: Option<WrappedInfo>, order: Option<Order>)

  /** Whose order is being restored: a flow bucket of the peer, or of one client behind it. */
  datatype SessionKey = Flow(flow: nat) | Client(client: nat, clientFlow: nat)

  predicate Numbered(p: Incoming) {
    p.order.Some?
  }

  function KeyOf(p: Incoming): SessionKey
    requires Numbered(p)
  {
    match p.wrapped
    case Some(info) => Client(info.clientId, p.order.value.flow)
    case None => Flow(p.order.value.flow)
  }

  function CounterOf(p: Incoming): nat
    requires Numbered(p)
  {
    p.order.value.number
  }

  /** The packet belongs to session `key` under number `counter`. */
  predicate Carries(p: Incoming, key: SessionKey, counter: nat) {
    Numbered(p) && KeyOf(p) == key && CounterOf(p) == counter
  }
}
