/** The server's routing table: which address in the tunnel belongs to which client of which peer (hub.rs). */
module Hubs {
  import opened Prelude
  import opened Sequencers

  /** Who is behind an address: a peer, and possibly a client behind that peer. */
  datatype Owner = Owner(peer: nat, client: Option<nat>)

  /** A set of holes to a peer; a peer that comes back has a new one. */
  datatype Link = Link(peer: nat, instance: nat)

  /** Where packets to an address go, and the flow counters of the packets sent there. */
  datatype Target = Target(link: Link, client: Option<nat>, next: Counters)

  datatype Table = Table(byAddr: map<nat, Target>, byOwner: map<Owner, nat>)

  const NO_ROUTES: Table := Table(map[], map[])

  function OwnerOf(t: Target): Owner {
    Owner(t.link.peer, t.client)
  }

  /** The table in one direction: `owner` has `address`. */
  predicate Has(t: Table, owner: Owner, address: nat) {
    owner in t.byOwner && t.byOwner[owner] == address
  }

  /** The table in the other direction: packets to `address` go to `owner`. */
  predicate Leads(t: Table, address: nat, owner: Owner) {
    address in t.byAddr && OwnerOf(t.byAddr[address]) == owner
  }

  /** Both directions say the same. */
  ghost predicate Inverse(t: Table) {
    && (forall o :: o in t.byOwner ==> Leads(t, t.byOwner[o], o))
    && (forall a :: a in t.byAddr ==> Has(t, OwnerOf(t.byAddr[a]), a))
  }

  // ---------------------------------------------------------------- the operations

  function Removed<K, V>(m: map<K, V>, k: K): map<K, V> {
    m - {k}
  }

  function Assigned(t: Table, address: nat, link: Link, client: Option<nat>): Table {
    var owner := Owner(link.peer, client);
    if owner in t.byOwner && t.byOwner[owner] == address && address in t.byAddr then
      t
    else
      var byAddr := if owner in t.byOwner then Removed(t.byAddr, t.byOwner[owner]) else t.byAddr;
      var byOwner := t.byOwner[owner := address];
      var previous := if address in byAddr then Some(OwnerOf(byAddr[address])) else None;
      Table(byAddr[address := Target(link, client, FROM_ZERO)],
            if previous.Some? && previous.value != owner then Removed(byOwner, previous.value) else byOwner)
  }

  function Without(t: Table, peer: nat): Table {
    Table(map a | a in t.byAddr && t.byAddr[a].link.peer != peer :: t.byAddr[a],
          map o | o in t.byOwner && o.peer != peer :: t.byOwner[o])
  }

  /** The counters behind `dst` after one more packet was sent there. */
  function Counted(t: Table, dst: nat, len: nat, info: Option<Info>): Table {
    if dst !in t.byAddr then t
    else t.(byAddr := t.byAddr[dst := t.byAddr[dst].(next := Advanced(t.byAddr[dst].next, len, info))])
  }

  /** On the way from `t` to `Without(t, peer)`: the owners in `gone` are still there. */
  ghost predicate PartlyWithout(t: Table, now: Table, peer: nat, gone: set<Owner>) {
    && Inverse(now)
    && (forall o :: o in gone <==> o in now.byOwner && o.peer == peer)
    && (forall o :: o in now.byOwner ==> Has(t, o, now.byOwner[o]))
    && (forall o :: o in t.byOwner && o.peer != peer ==> o in now.byOwner)
    && (forall a :: a in now.byAddr ==> a in t.byAddr && now.byAddr[a] == t.byAddr[a])
    && (forall a :: a in t.byAddr && t.byAddr[a].link.peer != peer ==> a in now.byAddr)
  }

  lemma StartRemoving(t: Table, peer: nat, gone: set<Owner>)
    requires Inverse(t) && gone == set o | o in t.byOwner && o.peer == peer
    ensures PartlyWithout(t, t, peer, gone)
  {
  }

  lemma RemoveOne(t: Table, now: Table, peer: nat, gone: set<Owner>, owner: Owner)
    requires PartlyWithout(t, now, peer, gone) && owner in gone
    ensures owner in now.byOwner
    ensures PartlyWithout(t, Table(now.byAddr - {now.byOwner[owner]}, now.byOwner - {owner}), peer, gone - {owner})
  {
    assert Leads(now, now.byOwner[owner], owner);
  }

  lemma AllRemoved(t: Table, now: Table, peer: nat)
    requires PartlyWithout(t, now, peer, {})
    ensures now == Without(t, peer)
  {
    forall a | a in now.byAddr
      ensures now.byAddr[a].link.peer != peer
    {
      assert Has(now, OwnerOf(now.byAddr[a]), a);
    }
    assert now.byOwner == Without(t, peer).byOwner;
    assert now.byAddr == Without(t, peer).byAddr;
  }

  class Routes {
    var byAddr: map<nat, Target>
    var byOwner: map<Owner, nat>

    ghost function Value(): Table
      reads this
    {
      Table(byAddr, byOwner)
    }

    constructor ()
      ensures Value() == NO_ROUTES
    {
      byAddr, byOwner := map[], map[];
    }

    method Assign(address: nat, link: Link, client: Option<nat>)
      modifies this
      ensures Value() == Assigned(old(Value()), address, link, client)
    {
      var owner := Owner(link.peer, client);
      if owner in byOwner && byOwner[owner] == address && address in byAddr {
        return;
      }
      if owner in byOwner {
        byAddr := byAddr - {byOwner[owner]};
      }
      byOwner := byOwner[owner := address];
      var previous := if address in byAddr then Some(OwnerOf(byAddr[address])) else None;
      byAddr := byAddr[address := Target(link, client, FROM_ZERO)];
      if previous.Some? && previous.value != owner {
        byOwner := byOwner - {previous.value};
      }
    }

    /** Forgets a peer with every client behind it, one entry after the other. */
    method RemovePeer(peer: nat)
      requires Inverse(Value())
      modifies this
      ensures Value() == Without(old(Value()), peer)
    {
      hide Inverse, PartlyWithout, Without;
      var gone := set o | o in byOwner && o.peer == peer;
      StartRemoving(Value(), peer, gone);
      while gone != {}
        invariant PartlyWithout(old(Value()), Value(), peer, gone)
        decreases |gone|
      {
        var owner :| owner in gone;
        RemoveOne(old(Value()), Value(), peer, gone, owner);
        var address := byOwner[owner];
        byOwner := byOwner - {owner};
        byAddr := byAddr - {address};
        gone := gone - {owner};
      }
      AllRemoved(old(Value()), Value(), peer);
    }

    /** A packet from the tunnel: the link and client it goes to, and its number, or nothing. */
    method Uplink(dst: nat, len: nat, info: Option<Info>) returns (where: Option<(Link, Option<nat>, Route)>)
      modifies this
      ensures Value() == Counted(old(Value()), dst, len, info)
      ensures where == if dst !in old(byAddr) then None
                       else var target := old(byAddr)[dst];
                         Some((target.link, target.client, RouteOf(target.next, len, info)))
    {
      if dst !in byAddr {
        return None;
      }
      var target := byAddr[dst];
      where := Some((target.link, target.client, RouteOf(target.next, len, info)));
      byAddr := byAddr[dst := target.(next := Advanced(target.next, len, info))];
    }

    /** A packet from a peer is let into the tunnel only under the address its owner was given. */
    method Downlink(owner: Owner, src: Option<nat>) returns (allowed: bool)
      ensures allowed <==> src.Some? && Has(Value(), owner, src.value)
    {
      allowed := src.Some? && owner in byOwner && byOwner[owner] == src.value;
    }
  }

  // ---------------------------------------------------------------- what assigning means

  /**
   Afterwards the owner has the address and no other; whoever had the address before has none; every other
   pair is as it was.
   */
  lemma AssignedPairs(t: Table, address: nat, link: Link, client: Option<nat>, o: Owner, a: nat)
    requires Inverse(t)
    ensures Has(Assigned(t, address, link, client), o, a) <==>
            if o == Owner(link.peer, client) then a == address else a != address && Has(t, o, a)
  {
    var owner := Owner(link.peer, client);
    if o in t.byOwner {
      assert Leads(t, t.byOwner[o], o);
    }
    if address in t.byAddr {
      assert Has(t, OwnerOf(t.byAddr[address]), address);
    }
  }

  lemma AssignedLeads(t: Table, address: nat, link: Link, client: Option<nat>, a: nat, o: Owner)
    requires Inverse(t)
    ensures Leads(Assigned(t, address, link, client), a, o) <==>
            if o == Owner(link.peer, client) then a == address else a != address && Leads(t, a, o)
  {
    var owner := Owner(link.peer, client);
    if a in t.byAddr {
      assert Has(t, OwnerOf(t.byAddr[a]), a);
    }
    if owner in t.byOwner {
      assert Leads(t, t.byOwner[owner], owner);
    }
  }

  lemma PairsAgree(t: Table, o: Owner, a: nat)
    requires Inverse(t)
    ensures Has(t, o, a) <==> Leads(t, a, o)
  {
    if Has(t, o, a) {
      assert Leads(t, t.byOwner[o], o);
    }
    if Leads(t, a, o) {
      assert Has(t, OwnerOf(t.byAddr[a]), a);
    }
  }

  lemma AssignKeepsInverse(t: Table, address: nat, link: Link, client: Option<nat>)
    requires Inverse(t)
    ensures Inverse(Assigned(t, address, link, client))
  {
    hide Assigned, Inverse;
    var after := Assigned(t, address, link, client);
    forall o, a
      ensures Has(after, o, a) <==> Leads(after, a, o)
    {
      AssignedPairs(t, address, link, client, o, a);
      AssignedLeads(t, address, link, client, a, o);
      PairsAgree(t, o, a);
    }
    AgreementIsInverse(after);
  }

  lemma AgreementIsInverse(t: Table)
    requires forall o, a :: Has(t, o, a) <==> Leads(t, a, o)
    ensures Inverse(t)
  {
    forall o | o in t.byOwner
      ensures Leads(t, t.byOwner[o], o)
    {
      assert Has(t, o, t.byOwner[o]);
    }
    forall a | a in t.byAddr
      ensures Has(t, OwnerOf(t.byAddr[a]), a)
    {
      assert Leads(t, a, OwnerOf(t.byAddr[a]));
    }
  }

  /** Assigning again what is already so keeps link and counters: the numbering of the flows goes on. */
  lemma AssigningAgainChangesNothing(t: Table, address: nat, link: Link, client: Option<nat>)
    requires Inverse(t) && Leads(t, address, Owner(link.peer, client))
    ensures Assigned(t, address, link, client) == t
  {
    PairsAgree(t, Owner(link.peer, client), address);
  }

  // ---------------------------------------------------------------- runs

  datatype Op =
    | Assign(address: nat, link: Link, client: Option<nat>)
    | RemovePeer(peer: nat)
    | Uplink(dst: nat, len: nat, info: Option<Info>)

  function Step(t: Table, op: Op): Table {
    match op
    case Assign(address, link, client) => Assigned(t, address, link, client)
    case RemovePeer(peer) => Without(t, peer)
    case Uplink(dst, len, info) => Counted(t, dst, len, info)
  }

  function After(ops: seq<Op>): Table {
    if ops == [] then NO_ROUTES else Step(After(ops[..|ops| - 1]), ops[|ops| - 1])
  }

  lemma RemoveKeepsInverse(t: Table, peer: nat)
    requires Inverse(t)
    ensures Inverse(Without(t, peer))
  {
    var after := Without(t, peer);
    forall o | o in after.byOwner
      ensures Leads(after, after.byOwner[o], o)
    {
      assert Leads(t, t.byOwner[o], o);
    }
    forall a | a in after.byAddr
      ensures Has(after, OwnerOf(after.byAddr[a]), a)
    {
      assert Has(t, OwnerOf(t.byAddr[a]), a);
    }
  }

  lemma UplinkKeepsInverse(t: Table, dst: nat, len: nat, info: Option<Info>)
    requires Inverse(t)
    ensures Inverse(Counted(t, dst, len, info))
  {
    var after := Counted(t, dst, len, info);
    forall o | o in after.byOwner
      ensures Leads(after, after.byOwner[o], o)
    {
      assert Leads(t, t.byOwner[o], o);
    }
    forall a | a in after.byAddr
      ensures Has(after, OwnerOf(after.byAddr[a]), a)
    {
      assert Has(t, OwnerOf(t.byAddr[a]), a);
    }
  }

  lemma {:induction false} EveryTableIsInverse(ops: seq<Op>)
    ensures Inverse(After(ops))
  {
    hide Assigned, Without, Counted, Inverse;
    if ops == [] {
      NoRoutesAgree();
    } else {
      var before := After(ops[..|ops| - 1]);
      EveryTableIsInverse(ops[..|ops| - 1]);
      match ops[|ops| - 1]
      case Assign(address, link, client) => AssignKeepsInverse(before, address, link, client);
      case RemovePeer(peer) => RemoveKeepsInverse(before, peer);
      case Uplink(dst, len, info) => UplinkKeepsInverse(before, dst, len, info);
    }
  }

  lemma NoRoutesAgree()
    ensures Inverse(NO_ROUTES)
  {
  }

  /**
   After any run, a source address let in from a client of a peer is exactly one whose replies go back to that
   client of that peer.
   */
  lemma RepliesGoBack(ops: seq<Op>, owner: Owner, src: nat)
    ensures Has(After(ops), owner, src) <==> Leads(After(ops), src, owner)
  {
    hide After, Inverse;
    EveryTableIsInverse(ops);
    PairsAgree(After(ops), owner, src);
  }

  // ---------------------------------------------------------------- what the operations leave alone

  /**
   A new assignment: packets to the address go to this link and client, numbered from 0 in each of the 16 buckets; the
   owner's former address leads nowhere; every other address leads where it led, with its numbering.
   */
  lemma AssignedTargets(t: Table, address: nat, link: Link, client: Option<nat>, a: nat)
    requires Inverse(t) && !Leads(t, address, Owner(link.peer, client))
    ensures
      var after := Assigned(t, address, link, client).byAddr;
      && address in after
      && after[address] == Target(link, client, [0, 0, 0, 0, 0, 0, 0, 0, 0, 0, 0, 0, 0, 0, 0, 0])
      && (a != address ==>
            && (a in after <==> a in t.byAddr && !Has(t, Owner(link.peer, client), a))
            && (a in after ==> after[a] == t.byAddr[a]))
  {
    PairsAgree(t, Owner(link.peer, client), address);
  }

  /** Of a removed peer nothing is left, in either direction; of the others everything is. */
  lemma RemovedPeerIsGone(t: Table, peer: nat, o: Owner, a: nat)
    ensures
      var after := Without(t, peer);
      && (Has(after, o, a) <==> Has(t, o, a) && o.peer != peer)
      && (Leads(after, a, o) <==> Leads(t, a, o) && o.peer != peer)
      && (a in after.byAddr ==> a in t.byAddr && after.byAddr[a] == t.byAddr[a])
  {
  }

  /** A packet changes one counter at most: that of its bucket behind its destination, if it is numbered. */
  lemma UplinkCountsOne(t: Table, dst: nat, len: nat, info: Option<Info>, a: nat, b: nat)
    requires a in t.byAddr && b < 16
    ensures
      var after := Counted(t, dst, len, info);
      var counts := a == dst && len <= 1400 && info.Some? && info.value.proto == Tcp && b == info.value.flowHash % 16;
      && after.byOwner == t.byOwner && after.byAddr.Keys == t.byAddr.Keys
      && after.byAddr[a].link == t.byAddr[a].link && after.byAddr[a].client == t.byAddr[a].client
      && after.byAddr[a].next[b] == t.byAddr[a].next[b] + (if counts then 1 else 0)
  {
  }
}
