/** The order in which ports are tried when a hole is punched (port_utils.rs, punch.rs). */
module Ports {
  import opened Prelude

  const TOP: nat := 0xFFFF

  type Port = p: nat | p <= TOP

  function Distance(p: int, q: int): nat {
    if p >= q then p - q else q - p
  }

  /** Nearer the center first; at equal distance the higher port. */
  predicate Before(p: Port, q: Port, center: Port) {
    Distance(p, center) < Distance(q, center) || (Distance(p, center) == Distance(q, center) && p > q)
  }

  /** The ports no further than `d` from the center, on either side as far as the bounds go. */
  predicate Within(p: Port, center: Port, low: Port, high: Port, d: nat) {
    p == center || (Distance(p, center) <= d && (center < p <= high || (low <= p < center && p != 0)))
  }

  predicate Ordered(ports: seq<Port>, center: Port) {
    forall i, j :: 0 <= i < j < |ports| ==> Before(ports[i], ports[j], center)
  }

  predicate Lists(ports: seq<Port>, center: Port, low: Port, high: Port, d: nat) {
    Ordered(ports, center) && forall p: Port :: p in ports <==> Within(p, center, low, high, d)
  }

  /** One more port, further out than all before. */
  lemma Extended(ports: seq<Port>, center: Port, p: Port)
    requires Ordered(ports, center) && forall q :: q in ports ==> Before(q, p, center)
    ensures Ordered(ports + [p], center)
    ensures forall q :: q in ports + [p] <==> q in ports || q == p
  {
  }

  /** Outwards from `center`, the two sides in turn, until both bounds are reached. */
  method ZigzagPorts(center: Port, low: Port, high: Port) returns (ports: seq<Port>)
    ensures Lists(ports, center, low, high, TOP)
  {
    hide Ordered;
    var downSteps, upSteps := Minus(center, low), Minus(high, center);
    var steps := Max(downSteps, upSteps);
    ports := [center];
    OneIsOrdered(center);
    var d := 1;
    while d <= steps
      invariant 1 <= d <= steps + 1
      invariant Lists(ports, center, low, high, d - 1)
    {
      if d <= upSteps && center + d <= TOP {
        Extended(ports, center, center + d);
        ports := ports + [center + d];
      }
      if d <= downSteps && center >= d && center - d != 0 {
        Extended(ports, center, center - d);
        ports := ports + [center - d];
      }
      d := d + 1;
    }
  }

  lemma OneIsOrdered(center: Port)
    ensures Ordered([center], center)
  {
  }

  /** When the center lies between the bounds and is a real port, every port of the range is tried once. */
  lemma EveryPortOnce(ports: seq<Port>, center: Port, low: Port, high: Port)
    requires Lists(ports, center, low, high, TOP) && 1 <= center && low <= center <= high
    ensures forall p: Port :: p in ports <==> low <= p <= high && p != 0
    ensures forall i, j :: 0 <= i < j < |ports| ==>
              ports[i] != ports[j] && Distance(ports[i], center) <= Distance(ports[j], center)
  {
    forall i, j | 0 <= i < j < |ports|
      ensures ports[i] != ports[j] && Distance(ports[i], center) <= Distance(ports[j], center)
    {
      assert Before(ports[i], ports[j], center);
    }
  }

  /** A real port between the two, or no further than the margin from either. */
  predicate IsSwept(p: Port, myPort: Port, peerPort: Port, margin: Port) {
    && 1 <= p
    && (p + margin >= myPort || p + margin >= peerPort)
    && (p <= myPort + margin || p <= peerPort + margin)
  }

  /** The range that covers both ports with a margin, within the valid ports. */
  function SweepBounds(myPort: Port, peerPort: Port, margin: Port): (r: (Port, Port))
    ensures 1 <= r.0 && (1 <= peerPort ==> r.0 <= peerPort <= r.1) && (1 <= myPort ==> r.0 <= myPort <= r.1)
    ensures forall p: Port :: 1 <= p && (Distance(p, myPort) <= margin || Distance(p, peerPort) <= margin) ==>
                                r.0 <= p <= r.1
    ensures forall p: Port :: IsSwept(p, myPort, peerPort, margin) <==> r.0 <= p <= r.1
  {
    (Max(Minus(Min(myPort, peerPort), margin), 1), Min(Max(myPort, peerPort) + margin, TOP))
  }

  // ---------------------------------------------------------------- several candidates in turn

  datatype Endpoint = Endpoint(ip: nat, port: Port)

  /** Place `position` of list `list`. */
  datatype Place = Place(list: nat, position: nat)

  predicate Earlier(a: Place, b: Place) {
    a.position < b.position || (a.position == b.position && a.list < b.list)
  }

  /** Places in order: all first positions, then all second ones, and so on, up to `end`. */
  ghost predicate TakesTurns<T>(plan: seq<Place>, lists: seq<seq<T>>, end: Place) {
    && (forall k, l :: 0 <= k < l < |plan| ==> Earlier(plan[k], plan[l]))
    && (forall p :: p in plan <==> p.list < |lists| && p.position < |lists[p.list]| && Earlier(p, end))
  }

  ghost predicate Follows<T>(order: seq<T>, plan: seq<Place>, lists: seq<seq<T>>) {
    |order| == |plan| && forall k :: 0 <= k < |plan| ==>
                                       && plan[k].list < |lists|
                                       && plan[k].position < |lists[plan[k].list]|
                                       && order[k] == lists[plan[k].list][plan[k].position]
  }

  /** `order` takes from the lists in turn until all of them are through. */
  ghost predicate Interleaves<T>(order: seq<T>, lists: seq<seq<T>>) {
    exists plan, end: Place ::
      && TakesTurns(plan, lists, end)
      && Follows(order, plan, lists)
      && forall l :: l in lists ==> |l| <= end.position
  }

  method Interleave<T>(lists: seq<seq<T>>, longest: nat) returns (order: seq<T>)
    requires forall l :: l in lists ==> |l| <= longest
    ensures Interleaves(order, lists)
  {
    ghost var plan: seq<Place> := [];
    order := [];
    var step := 0;
    while step < longest
      invariant 0 <= step <= longest
      invariant TakesTurns(plan, lists, Place(0, step)) && Follows(order, plan, lists)
    {
      order, plan := OneRound(lists, step, order, plan);
      NextRound(plan, lists, step);
      step := step + 1;
    }
    AllThrough(order, plan, lists, longest);
  }

  lemma AllThrough<T>(order: seq<T>, plan: seq<Place>, lists: seq<seq<T>>, longest: nat)
    requires TakesTurns(plan, lists, Place(0, longest)) && Follows(order, plan, lists)
    requires forall l :: l in lists ==> |l| <= longest
    ensures Interleaves(order, lists)
  {
    var end := Place(0, longest);
    assert forall l :: l in lists ==> |l| <= end.position;
  }

  lemma NextRound<T>(plan: seq<Place>, lists: seq<seq<T>>, step: nat)
    requires TakesTurns(plan, lists, Place(|lists|, step))
    ensures TakesTurns(plan, lists, Place(0, step + 1))
  {
  }

  /** The place at position `step` of every list that has one. */
  method OneRound<T>(lists: seq<seq<T>>, step: nat, sent: seq<T>, ghost done: seq<Place>)
    returns (order: seq<T>, ghost plan: seq<Place>)
    requires TakesTurns(done, lists, Place(0, step)) && Follows(sent, done, lists)
    ensures TakesTurns(plan, lists, Place(|lists|, step)) && Follows(order, plan, lists)
  {
    order, plan := sent, done;
    var i := 0;
    while i < |lists|
      invariant 0 <= i <= |lists|
      invariant TakesTurns(plan, lists, Place(i, step)) && Follows(order, plan, lists)
    {
      OneTurn(plan, lists, i, step);
      if step < |lists[i]| {
        order, plan := order + [lists[i][step]], plan + [Place(i, step)];
      }
      i := i + 1;
    }
  }

  lemma OneTurn<T>(plan: seq<Place>, lists: seq<seq<T>>, i: nat, step: nat)
    requires i < |lists| && TakesTurns(plan, lists, Place(i, step))
    ensures TakesTurns(if step < |lists[i]| then plan + [Place(i, step)] else plan, lists, Place(i + 1, step))
  {
    var longer := if step < |lists[i]| then plan + [Place(i, step)] else plan;
    forall p
      ensures p in longer <==> p.list < |lists| && p.position < |lists[p.list]| && Earlier(p, Place(i + 1, step))
    {
      assert Earlier(p, Place(i + 1, step)) <==> Earlier(p, Place(i, step)) || p == Place(i, step);
    }
    forall k, l | 0 <= k < l < |longer|
      ensures Earlier(longer[k], longer[l])
    {
      if l == |plan| {
        assert plan[k] in plan;
      }
    }
  }

  /**
   Nobody waits: when position `j` of one list is reached, every other list has been served up to the position
   before, as far as it goes. In particular each list is served in its own order.
   */
  lemma NobodyWaits<T>(plan: seq<Place>, lists: seq<seq<T>>, end: Place, k: nat, b: nat, i: nat)
    requires TakesTurns(plan, lists, end) && k < |plan|
    requires b < |lists| && i < |lists[b]| && i < plan[k].position
    ensures exists l :: 0 <= l < k && plan[l] == Place(b, i)
  {
    var p := Place(b, i);
    assert plan[k] in plan;
    assert p in plan;
    assert p != plan[k] && !Earlier(plan[k], p);
    var l :| 0 <= l < |plan| && plan[l] == p;
  }

  /** How many places of list `b` the plan has. */
  function Count(plan: seq<Place>, b: nat): nat {
    if plan == [] then 0
    else Count(plan[..|plan| - 1], b) + if plan[|plan| - 1].list == b then 1 else 0
  }

  /** Of each list, exactly the first places are in the plan so far, as many as counted. */
  lemma {:induction false} CountedAreFirst<T>(plan: seq<Place>, lists: seq<seq<T>>, end: Place, n: nat, b: nat, j: nat)
    requires TakesTurns(plan, lists, end) && n <= |plan|
    ensures Place(b, j) in plan[..n] <==> j < Count(plan[..n], b)
    decreases n, 0
  {
    if n > 0 {
      var p := plan[n - 1];
      assert plan[..n] == plan[..n - 1] + [p] && plan[..n][..n - 1] == plan[..n - 1];
      CountedAreFirst(plan, lists, end, n - 1, b, j);
      if p.list == b {
        NextIsCounted(plan, lists, end, n - 1);
      }
    }
  }

  /** The next place taken of a list is the first one not taken yet. */
  lemma {:induction false} NextIsCounted<T>(plan: seq<Place>, lists: seq<seq<T>>, end: Place, n: nat)
    requires TakesTurns(plan, lists, end) && n < |plan|
    ensures plan[n].position == Count(plan[..n], plan[n].list)
    decreases n, 1
  {
    var p := plan[n];
    assert p in plan;
    CountedAreFirst(plan, lists, end, n, p.list, p.position);
    forall k | 0 <= k < n
      ensures plan[..n][k] != p
    {
      assert Earlier(plan[k], plan[n]);
    }
    if p.position > 0 {
      NobodyWaits(plan, lists, end, n, p.list, p.position - 1);
      var l :| 0 <= l < n && plan[l] == Place(p.list, p.position - 1);
      assert plan[..n][l] == plan[l];
      CountedAreFirst(plan, lists, end, n, p.list, p.position - 1);
    }
  }

  /** `order` takes the first `counts[b]` elements of each list `b`, each list in its own order. */
  ghost predicate Merges<T>(order: seq<T>, lists: seq<seq<T>>, counts: seq<nat>)
    decreases |order|
  {
    && |counts| == |lists|
    && if order == [] then forall b :: 0 <= b < |lists| ==> counts[b] == 0
      else exists b :: 0 <= b < |lists| && LastFrom(order, lists, counts, b)
                       && Merges(order[..|order| - 1], lists, counts[b := counts[b] - 1])
  }

  /** The last element of `order` is the last one taken of list `b`. */
  ghost predicate LastFrom<T>(order: seq<T>, lists: seq<seq<T>>, counts: seq<nat>, b: nat)
    requires |counts| == |lists| && b < |lists| && order != []
  {
    0 < counts[b] <= |lists[b]| && order[|order| - 1] == lists[b][counts[b] - 1]
  }

  /** Of no list more than one element more has been taken than of any other that is not through. */
  predicate Fair<T>(lists: seq<seq<T>>, counts: seq<nat>)
    requires |counts| == |lists|
  {
    forall a, b :: 0 <= a < |lists| && 0 <= b < |lists| && counts[b] < |lists[b]| ==> counts[a] <= counts[b] + 1
  }

  function Counts(plan: seq<Place>, lists: nat): (r: seq<nat>)
    ensures |r| == lists
  {
    seq(lists, b requires 0 <= b < lists => Count(plan, b))
  }

  lemma {:induction false} PrefixMerges<T>(order: seq<T>, plan: seq<Place>, lists: seq<seq<T>>, end: Place, n: nat)
    requires TakesTurns(plan, lists, end) && Follows(order, plan, lists) && n <= |order|
    ensures Merges(order[..n], lists, Counts(plan[..n], |lists|))
  {
    if n > 0 {
      PrefixMerges(order, plan, lists, end, n - 1);
      NextIsCounted(plan, lists, end, n - 1);
      var b, counts := plan[n - 1].list, Counts(plan[..n], |lists|);
      assert plan[..n][..n - 1] == plan[..n - 1] && order[..n][..n - 1] == order[..n - 1];
      assert counts[b := counts[b] - 1] == Counts(plan[..n - 1], |lists|);
      assert LastFrom(order[..n], lists, counts, b);
    }
  }

  lemma ServedBefore<T>(plan: seq<Place>, lists: seq<seq<T>>, end: Place, n: nat, k: nat, b: nat, i: nat)
    requires TakesTurns(plan, lists, end) && k < n <= |plan|
    requires b < |lists| && i < |lists[b]| && i < plan[k].position
    ensures i < Count(plan[..n], b)
  {
    NobodyWaits(plan, lists, end, k, b, i);
    var l :| 0 <= l < k && plan[l] == Place(b, i);
    assert plan[..n][l] == plan[l];
    CountedAreFirst(plan, lists, end, n, b, i);
  }

  lemma PrefixIsFair<T>(plan: seq<Place>, lists: seq<seq<T>>, end: Place, n: nat)
    requires TakesTurns(plan, lists, end) && n <= |plan|
    ensures Fair(lists, Counts(plan[..n], |lists|))
  {
    var counts := Counts(plan[..n], |lists|);
    forall a, b | 0 <= a < |lists| && 0 <= b < |lists| && counts[b] < |lists[b]| && counts[a] > 0
      ensures counts[a] <= counts[b] + 1
    {
      CountedAreFirst(plan, lists, end, n, a, counts[a] - 1);
      var k :| 0 <= k < n && plan[k] == Place(a, counts[a] - 1);
      CountedAreFirst(plan, lists, end, n, b, counts[b]);
      if counts[b] < counts[a] - 1 {
        ServedBefore(plan, lists, end, n, k, b, counts[b]);
      }
    }
  }

  /** In the end every list is through. */
  lemma AllCounted<T>(plan: seq<Place>, lists: seq<seq<T>>, end: Place, b: nat)
    requires TakesTurns(plan, lists, end) && b < |lists| && |lists[b]| <= end.position
    ensures Count(plan, b) == |lists[b]|
  {
    assert plan[..|plan|] == plan;
    CountedAreFirst(plan, lists, end, |plan|, b, |lists[b]|);
    assert Place(b, |lists[b]|) !in plan;
    if |lists[b]| > 0 {
      CountedAreFirst(plan, lists, end, |plan|, b, |lists[b]| - 1);
      assert Place(b, |lists[b]| - 1) in plan;
    }
  }

  /** `counts` says how far each list is after `sent`: a first part of each, in its own order, as evenly as possible. */
  ghost predicate ServesEvenly<T>(sent: seq<T>, lists: seq<seq<T>>, counts: seq<nat>) {
    Merges(sent, lists, counts) && |counts| == |lists| && Fair(lists, counts)
  }

  /**
   Whenever the sending is cut off: of each list a first part has been sent in its own order, and the parts differ by at
   most one unless a list is through.
   */
  lemma NobodyIsBehind<T>(order: seq<T>, lists: seq<seq<T>>, n: nat)
    requires Interleaves(order, lists) && n <= |order|
    ensures exists counts :: ServesEvenly(order[..n], lists, counts)
  {
    hide TakesTurns, Merges, Fair;
    var plan, end: Place :| TakesTurns(plan, lists, end) && Follows(order, plan, lists)
                            && forall l :: l in lists ==> |l| <= end.position;
    PrefixMerges(order, plan, lists, end, n);
    PrefixIsFair(plan, lists, end, n);
    assert ServesEvenly(order[..n], lists, Counts(plan[..n], |lists|));
  }

  function Lengths<T>(lists: seq<seq<T>>): (r: seq<nat>)
    ensures |r| == |lists|
  {
    seq(|lists|, b requires 0 <= b < |lists| => |lists[b]|)
  }

  /** At the end all lists are through: everything has been sent, each list in its own order. */
  lemma EverybodyIsServed<T>(order: seq<T>, lists: seq<seq<T>>)
    requires Interleaves(order, lists)
    ensures Merges(order, lists, Lengths(lists))
  {
    hide TakesTurns, Merges;
    var plan, end: Place :| TakesTurns(plan, lists, end) && Follows(order, plan, lists)
                            && forall l :: l in lists ==> |l| <= end.position;
    PrefixMerges(order, plan, lists, end, |order|);
    assert plan[..|order|] == plan && order[..|order|] == order;
    forall b | 0 <= b < |lists|
      ensures Count(plan, b) == |lists[b]|
    {
      assert lists[b] in lists;
      AllCounted(plan, lists, end, b);
    }
    assert Counts(plan, |lists|) == Lengths(lists);
  }

  /** The sweeps of all candidates, interleaved. */
  ghost predicate IsSweepOrder(order: seq<Endpoint>, candidates: seq<Endpoint>, myPort: Port, margin: Port) {
    exists lists: seq<seq<Endpoint>> ::
      && |lists| == |candidates|
      && (forall i :: 0 <= i < |candidates| ==> IsSweepOf(lists[i], candidates[i], myPort, margin))
      && Interleaves(order, lists)
  }

  method SweepOrder(candidates: seq<Endpoint>, myPort: Port, margin: Port) returns (order: seq<Endpoint>)
    ensures IsSweepOrder(order, candidates, myPort, margin)
  {
    var all: seq<seq<Endpoint>> := [];
    var longest: nat := 0;
    var i := 0;
    while i < |candidates|
      invariant 0 <= i <= |candidates| && |all| == i
      invariant forall j :: 0 <= j < i ==> IsSweepOf(all[j], candidates[j], myPort, margin)
      invariant forall l :: l in all ==> |l| <= longest
    {
      var bounds := SweepBounds(myPort, candidates[i].port, margin);
      var ports := ZigzagPorts(candidates[i].port, bounds.0, bounds.1);
      var list := seq(|ports|, k requires 0 <= k < |ports| => Endpoint(candidates[i].ip, ports[k]));
      SweepBuilt(list, ports, candidates[i], myPort, margin);
      all := all + [list];
      longest := if |list| > longest then |list| else longest;
      i := i + 1;
    }
    order := Interleave(all, longest);
  }

  /** The list of one candidate: its address with the ports of the range around it, zigzag from its own. */
  ghost predicate IsSweepOf(list: seq<Endpoint>, candidate: Endpoint, myPort: Port, margin: Port) {
    var bounds := SweepBounds(myPort, candidate.port, margin);
    exists ports :: Lists(ports, candidate.port, bounds.0, bounds.1, TOP) && Numbered(list, candidate.ip, ports)
  }

  predicate Numbered(list: seq<Endpoint>, ip: nat, ports: seq<Port>) {
    |list| == |ports| && forall k :: 0 <= k < |list| ==> list[k] == Endpoint(ip, ports[k])
  }

  lemma SweepBuilt(list: seq<Endpoint>, ports: seq<Port>, candidate: Endpoint, myPort: Port, margin: Port)
    requires Numbered(list, candidate.ip, ports)
    requires var bounds := SweepBounds(myPort, candidate.port, margin);
             Lists(ports, candidate.port, bounds.0, bounds.1, TOP)
    ensures IsSweepOf(list, candidate, myPort, margin)
  {
  }
}
