/**
 Two managers opening a hole each at the same moment (`p2p::Core::on_peer`): both sides run the same
 code, and neither may wait for the other forever. Side A has opened `x`, side B has opened `y`; both
 share the same answered holes. Announcements are repeated; a side announces a hole in answer once it
 has accepted it.
 */
module LastPlace {
  import opened Prelude
  import opened Holes
  import opened P2pCore
  import P2pRuns

  /** The numbers of the two new holes and the four sessions opened for them. */
  datatype Race = Race(shared: set<Slot>, x: Slot, y: Slot, xAtA: nat, yAtB: nat, xAtB: nat, yAtA: nat)

  datatype Pair = Pair(a: CoreState, b: CoreState)

  /** A record that reaches its side: the two announcements, and the two answers to them. */
  datatype Delivery = AnnounceX | AnnounceY | AnswerX | AnswerY

  ghost predicate Together(p: Pair, r: Race, max: nat) {
    && r.x !in r.shared && r.y !in r.shared && r.x != r.y && |r.shared| < max
    && p.a.pool.maxTotal == max && p.b.pool.maxTotal == max
    && (r.y, r.yAtB) !in p.a.closed && (r.x, r.xAtA) !in p.b.closed
  }

  /** Both have just opened a hole: one unanswered hole each, beside the shared ones. */
  ghost predicate Simultaneous(p: Pair, r: Race, max: nat) {
    && Together(p, r, max)
    && p.a.holes.Keys == r.shared + {r.x} && Matched(p.a.holes) == r.shared
    && p.b.holes.Keys == r.shared + {r.y} && Matched(p.b.holes) == r.shared
  }

  /** An answer exists once the answering side has accepted the hole. */
  predicate Possible(p: Pair, r: Race, d: Delivery) {
    match d
    case AnswerX => r.x in p.b.holes
    case AnswerY => r.y in p.a.holes
    case _ => true
  }

  ghost function Delivered(p: Pair, r: Race, d: Delivery, now: nat): Pair {
    match d
    case AnnounceX => p.(b := OnPeer(p.b, now, PeerSession(r.x, r.xAtA), 0).state)
    case AnnounceY => p.(a := OnPeer(p.a, now, PeerSession(r.y, r.yAtB), 0).state)
    case AnswerX => p.(a := OnPeer(p.a, now, PeerSession(r.x, r.xAtB), 0).state)
    case AnswerY => p.(b := OnPeer(p.b, now, PeerSession(r.y, r.yAtA), 0).state)
  }

  // ---------------------------------------------------------------- what a side looks like

  /** A side with its own hole `own`, answered or not, and the other's hole `other`, accepted or not. */
  ghost predicate SideIs(holes: HoleMap, shared: set<Slot>, own: Slot, other: Slot, answered: bool, accepted: bool) {
    && holes.Keys == shared + {own} + (if accepted then {other} else {})
    && Matched(holes) == shared + (if answered then {own} else {}) + (if accepted then {other} else {})
  }

  lemma SideSize(holes: HoleMap, shared: set<Slot>, own: Slot, other: Slot, answered: bool, accepted: bool)
    requires SideIs(holes, shared, own, other, answered, accepted)
    requires own !in shared && other !in shared && own != other
    ensures |Matched(holes)| == |shared| + (if answered then 1 else 0) + (if accepted then 1 else 0)
  {
  }

  /** Recording a session of the peer for a hole. */
  lemma MatchedMore(holes: HoleMap, id: Slot, record: Record)
    requires record.peerSession.Some?
    ensures holes[id := record].Keys == holes.Keys + {id}
    ensures Matched(holes[id := record]) == Matched(holes) + {id}
  {
  }

  /** An announcement is accepted exactly when the answered holes leave a place; unanswered ones do not count. */
  lemma AnnouncementArrives(s: CoreState, now: nat, shared: set<Slot>, own: Slot, other: Slot, session: nat,
                            answered: bool, accepted: bool)
    requires SideIs(s.holes, shared, own, other, answered, accepted)
    requires own !in shared && other !in shared && own != other && (other, session) !in s.closed
    ensures
      var t := OnPeer(s, now, PeerSession(other, session), 0).state;
      && t.pool == s.pool && t.closed == s.closed
      && SideIs(t.holes, shared, own, other, answered,
                accepted || |shared| + (if answered then 1 else 0) < s.pool.maxTotal)
  {
    hide Matched;
    SideSize(s.holes, shared, own, other, answered, accepted);
    if accepted {
      MatchedMore(s.holes, other, s.holes[other].(peerSession := Some(session)));
    } else {
      assert other !in s.holes;
      MatchedMore(s.holes, other, Record(now, 0, Some(session)));
    }
  }

  /** The answer to the own hole is always taken. */
  lemma AnswerArrives(s: CoreState, now: nat, shared: set<Slot>, own: Slot, other: Slot, session: nat,
                      answered: bool, accepted: bool)
    requires SideIs(s.holes, shared, own, other, answered, accepted)
    requires own !in shared && other !in shared && own != other
    ensures
      var t := OnPeer(s, now, PeerSession(own, session), 0).state;
      && t.pool == s.pool && t.closed == s.closed
      && SideIs(t.holes, shared, own, other, true, accepted)
  {
    hide Matched;
    MatchedMore(s.holes, own, s.holes[own].(peerSession := Some(session)));
  }

  // ---------------------------------------------------------------- the exchange

  /**
   How far the exchange is: which announcement arrived at least once, whether B accepted `x` and A accepted
   `y`, and whether A has the answer to `x` and B the answer to `y`.
   */
  datatype Progress = Progress(cameX: bool, cameY: bool, acceptedX: bool, acceptedY: bool, answeredX: bool,
                               answeredY: bool)

  const NOTHING_YET := Progress(false, false, false, false, false, false)

  predicate LeavesPlace(shared: nat, answered: bool, max: nat) {
    shared + (if answered then 1 else 0) < max
  }

  function Moves(g: Progress, d: Delivery, shared: nat, max: nat): Progress {
    match d
    case AnnounceX => g.(cameX := true, acceptedX := g.acceptedX || LeavesPlace(shared, g.answeredY, max))
    case AnnounceY => g.(cameY := true, acceptedY := g.acceptedY || LeavesPlace(shared, g.answeredX, max))
    case AnswerX => g.(answeredX := true)
    case AnswerY => g.(answeredY := true)
  }

  ghost predicate At(p: Pair, r: Race, g: Progress, max: nat) {
    && Together(p, r, max)
    && SideIs(p.a.holes, r.shared, r.x, r.y, g.answeredX, g.acceptedY)
    && SideIs(p.b.holes, r.shared, r.y, r.x, g.answeredY, g.acceptedX)
  }

  /**
   An answer comes only from a side that accepted; a refusal happens only on the last place, to a side whose own hole
   won.
   */
  predicate Consistent(g: Progress, shared: nat, max: nat) {
    && shared < max
    && (g.answeredX ==> g.acceptedX) && (g.answeredY ==> g.acceptedY)
    && (g.acceptedX ==> g.cameX) && (g.acceptedY ==> g.cameY)
    && (g.cameX && !g.acceptedX ==> g.answeredY && shared + 1 == max)
    && (g.cameY && !g.acceptedY ==> g.answeredX && shared + 1 == max)
  }

  lemma DeliveryMoves(p: Pair, r: Race, g: Progress, max: nat, d: Delivery, now: nat)
    requires At(p, r, g, max) && Consistent(g, |r.shared|, max) && Possible(p, r, d)
    ensures
      var n := Moves(g, d, |r.shared|, max);
      At(Delivered(p, r, d, now), r, n, max) && Consistent(n, |r.shared|, max)
  {
    match d
    case AnnounceX => AnnouncementArrives(p.b, now, r.shared, r.y, r.x, r.xAtA, g.answeredY, g.acceptedX);
    case AnnounceY => AnnouncementArrives(p.a, now, r.shared, r.x, r.y, r.yAtB, g.answeredX, g.acceptedY);
    case AnswerX => AnswerArrives(p.a, now, r.shared, r.x, r.y, r.xAtB, g.answeredX, g.acceptedY);
    case AnswerY => AnswerArrives(p.b, now, r.shared, r.y, r.x, r.yAtA, g.answeredY, g.acceptedX);
  }

  ghost predicate IsExchange(p: Pair, r: Race, ds: seq<Delivery>, now: nat)
    decreases |ds|
  {
    ds != [] ==> Possible(p, r, ds[0]) && IsExchange(Delivered(p, r, ds[0], now), r, ds[1..], now)
  }

  ghost function AfterAll(p: Pair, r: Race, ds: seq<Delivery>, now: nat): Pair
    decreases |ds|
  {
    if ds == [] then p else AfterAll(Delivered(p, r, ds[0], now), r, ds[1..], now)
  }

  function MovesAll(g: Progress, ds: seq<Delivery>, shared: nat, max: nat): Progress
    decreases |ds|
  {
    if ds == [] then g else MovesAll(Moves(g, ds[0], shared, max), ds[1..], shared, max)
  }

  lemma {:induction false} ExchangeMoves(p: Pair, r: Race, g: Progress, max: nat, ds: seq<Delivery>, now: nat)
    requires At(p, r, g, max) && Consistent(g, |r.shared|, max) && IsExchange(p, r, ds, now)
    ensures
      var n := MovesAll(g, ds, |r.shared|, max);
      && At(AfterAll(p, r, ds, now), r, n, max) && Consistent(n, |r.shared|, max)
      && n.cameX == (g.cameX || AnnounceX in ds) && n.cameY == (g.cameY || AnnounceY in ds)
    decreases |ds|
  {
    hide At, Delivered, Consistent, Possible;
    if ds != [] {
      assert ds == [ds[0]] + ds[1..];
      DeliveryMoves(p, r, g, max, ds[0], now);
      ExchangeMoves(Delivered(p, r, ds[0], now), r, Moves(g, ds[0], |r.shared|, max), max, ds[1..], now);
    }
  }

  /** What the holes of both sides show of the progress. */
  lemma AtShows(p: Pair, r: Race, g: Progress, max: nat)
    requires At(p, r, g, max)
    ensures g.acceptedX == (r.x in p.b.holes) && g.acceptedY == (r.y in p.a.holes)
    ensures g.answeredX == (r.x in Matched(p.a.holes)) && g.answeredY == (r.y in Matched(p.b.holes))
    ensures Matched(p.a.holes) == r.shared + (if g.answeredX then {r.x} else {}) + (if g.acceptedY then {r.y} else {})
    ensures Matched(p.b.holes) == r.shared + (if g.answeredY then {r.y} else {}) + (if g.acceptedX then {r.x} else {})
    ensures r.x !in r.shared && r.y !in r.shared
  {
    hide Matched;
  }

  lemma StartsFresh(p: Pair, r: Race, max: nat)
    requires Simultaneous(p, r, max)
    ensures At(p, r, NOTHING_YET, max) && Consistent(NOTHING_YET, |r.shared|, max) && |r.shared| < max
  {
    hide Matched;
  }

  /**
   Progress on the last place. Whatever the order of deliveries, once each announcement has arrived at least
   once, at least one of the two holes is open at both sides; with two free places both are.
   */
  lemma LastPlaceProgress(p: Pair, r: Race, max: nat, ds: seq<Delivery>, now: nat)
    requires Simultaneous(p, r, max) && IsExchange(p, r, ds, now)
    requires AnnounceX in ds && AnnounceY in ds
    ensures
      var q := AfterAll(p, r, ds, now);
      && (r.x in q.b.holes || r.y in q.a.holes)
      && (|r.shared| + 2 <= max ==> r.x in q.b.holes && r.y in q.a.holes)
  {
    hide Simultaneous, At, AfterAll, MovesAll, IsExchange;
    StartsFresh(p, r, max);
    ExchangeMoves(p, r, NOTHING_YET, max, ds, now);
    AtShows(AfterAll(p, r, ds, now), r, MovesAll(NOTHING_YET, ds, |r.shared|, max), max);
  }

  /** `d` is delivered before `e` is for the first time. */
  predicate Ahead(ds: seq<Delivery>, d: Delivery, e: Delivery)
    decreases |ds|
  {
    ds != [] && ds[0] != e && (ds[0] == d || Ahead(ds[1..], d, e))
  }

  /** A hole is refused exactly when only one place was left and the answer to the own hole has taken it. */
  predicate Taken(ds: seq<Delivery>, announcement: Delivery, answer: Delivery, shared: nat, max: nat) {
    announcement in ds && (shared + 2 <= max || !Ahead(ds, answer, announcement))
  }

  lemma {:induction false} TakenY(g: Progress, ds: seq<Delivery>, shared: nat, max: nat)
    requires shared < max
    ensures MovesAll(g, ds, shared, max).answeredX == (g.answeredX || AnswerX in ds)
    ensures MovesAll(g, ds, shared, max).acceptedY
            <==> g.acceptedY || (Taken(ds, AnnounceY, AnswerX, shared, max) && (shared + 2 <= max || !g.answeredX))
    decreases |ds|
  {
    if ds != [] {
      assert ds == [ds[0]] + ds[1..];
      TakenY(Moves(g, ds[0], shared, max), ds[1..], shared, max);
    }
  }

  lemma {:induction false} TakenX(g: Progress, ds: seq<Delivery>, shared: nat, max: nat)
    requires shared < max
    ensures MovesAll(g, ds, shared, max).answeredY == (g.answeredY || AnswerY in ds)
    ensures MovesAll(g, ds, shared, max).acceptedX
            <==> g.acceptedX || (Taken(ds, AnnounceX, AnswerY, shared, max) && (shared + 2 <= max || !g.answeredY))
    decreases |ds|
  {
    if ds != [] {
      assert ds == [ds[0]] + ds[1..];
      TakenX(Moves(g, ds[0], shared, max), ds[1..], shared, max);
    }
  }

  /**
   Exactly when each side takes the other's hole: its announcement came, and there were two free places or it came
   before the answer to the own hole. (On the very last place an answer that overtakes the announcement makes the side
   full, and it refuses.)
   */
  lemma AcceptedUnlessOvertaken(p: Pair, r: Race, max: nat, ds: seq<Delivery>, now: nat)
    requires Simultaneous(p, r, max) && IsExchange(p, r, ds, now)
    ensures
      var q := AfterAll(p, r, ds, now);
      && (r.y in q.a.holes <==> Taken(ds, AnnounceY, AnswerX, |r.shared|, max))
      && (r.x in q.b.holes <==> Taken(ds, AnnounceX, AnswerY, |r.shared|, max))
      && (r.x in Matched(q.a.holes) <==> AnswerX in ds)
      && (r.y in Matched(q.b.holes) <==> AnswerY in ds)
  {
    hide Simultaneous, At, AfterAll, MovesAll, IsExchange, Consistent, Matched, Taken;
    StartsFresh(p, r, max);
    ExchangeMoves(p, r, NOTHING_YET, max, ds, now);
    AtShows(AfterAll(p, r, ds, now), r, MovesAll(NOTHING_YET, ds, |r.shared|, max), max);
    TakenX(NOTHING_YET, ds, |r.shared|, max);
    TakenY(NOTHING_YET, ds, |r.shared|, max);
  }

  /**
   Both holes end up open on both sides, whatever the order, if and only if two places were left or neither answer was
   ahead of the announcement it competes with.
   */
  lemma BothAcceptedExactly(p: Pair, r: Race, max: nat, ds: seq<Delivery>, now: nat)
    requires Simultaneous(p, r, max) && IsExchange(p, r, ds, now)
    requires AnnounceX in ds && AnnounceY in ds
    ensures
      var q := AfterAll(p, r, ds, now);
      r.x in q.b.holes && r.y in q.a.holes
      <==> |r.shared| + 2 <= max || (!Ahead(ds, AnswerX, AnnounceY) && !Ahead(ds, AnswerY, AnnounceX))
  {
    hide Simultaneous, AfterAll, IsExchange;
    AcceptedUnlessOvertaken(p, r, max, ds, now);
  }

  /** On the very last place there always is an exchange in which one of the two holes is refused. */
  lemma LastPlaceCanBeRefused(p: Pair, r: Race, max: nat, now: nat)
    requires Simultaneous(p, r, max) && |r.shared| + 1 == max
    ensures
      var ds := [AnnounceX, AnswerX, AnnounceY];
      && IsExchange(p, r, ds, now)
      && r.x in AfterAll(p, r, ds, now).b.holes && r.y !in AfterAll(p, r, ds, now).a.holes
  {
    hide Simultaneous, At, Delivered, Consistent, Matched;
    var ds := [AnnounceX, AnswerX, AnnounceY];
    var q := Delivered(p, r, AnnounceX, now);
    StartsFresh(p, r, max);
    DeliveryMoves(p, r, NOTHING_YET, max, AnnounceX, now);
    AtShows(q, r, Moves(NOTHING_YET, AnnounceX, |r.shared|, max), max);
    assert ds[1..] == [AnswerX, AnnounceY] && ds[1..][1..] == [AnnounceY] && ds[1..][1..][1..] == [];
    assert IsExchange(Delivered(q, r, AnswerX, now), r, [AnnounceY], now);
    assert IsExchange(q, r, [AnswerX, AnnounceY], now);
    assert !Ahead(ds, AnswerY, AnnounceX) && Ahead(ds[1..], AnswerX, AnnounceY);
    AcceptedUnlessOvertaken(p, r, max, ds, now);
  }

  /** A manager that, `START_GRACE` after its start, evaluated its still empty hole set. */
  ghost function FirstEvaluation(pool: PoolPolicy, firstId: Slot): CoreState
    requires MaxHoles(pool) <= SLOTS
  {
    P2pRuns.Run(P2pRuns.History(Fresh(pool, firstId, 0), []), [P2pRuns.Evaluation(START_GRACE, [], _ => 0)]).state
  }

  lemma OpensItsFirstHole(pool: PoolPolicy, firstId: Slot)
    requires pool.minActive == pool.maxTotal == 1
    ensures
      var s := FirstEvaluation(pool, firstId);
      s.pool == pool && s.closed == [] && s.holes == map[firstId := Record(START_GRACE, 0, None)]
  {
    var s, e := Fresh(pool, firstId, 0), P2pRuns.Evaluation(START_GRACE, [], _ => 0);
    var h := P2pRuns.After(P2pRuns.History(s, []), e);
    assert [e][1..] == [] && P2pRuns.Run(h, []) == h;
    assert FirstFree(s.holes, firstId, 0, firstId);
    FirstFreeIsFree(s.holes, firstId, 0, firstId);
    PlanOpensOne(pool);
    assert [Open][..0] == [];
    assert Execute(s, START_GRACE, [], _ => 0) == Evaluated(s, [], 0);
    assert h.state == OpenOne(s, START_GRACE, 0);
  }

  lemma PlanOpensOne(pool: PoolPolicy)
    requires pool.minActive == 1
    ensures Plan([], START_GRACE, pool) == [Open]
  {
  }

  /**
   Two managers run into such a race by themselves: with room for one hole, after the first evaluation of each. Three
   deliveries later one hole is accepted and the other refused.
   */
  lemma ALastPlaceRace(pool: PoolPolicy, r: Race, now: nat)
    requires pool.minActive == pool.maxTotal == 1 && r.x != r.y && r.shared == {}
    ensures
      var p := Pair(FirstEvaluation(pool, r.x), FirstEvaluation(pool, r.y));
      var ds := [AnnounceX, AnswerX, AnnounceY];
      && Simultaneous(p, r, 1) && IsExchange(p, r, ds, now)
      && r.x in AfterAll(p, r, ds, now).b.holes && r.y !in AfterAll(p, r, ds, now).a.holes
  {
    hide FirstEvaluation, IsExchange, AfterAll;
    OpensItsFirstHole(pool, r.x);
    OpensItsFirstHole(pool, r.y);
    LastPlaceCanBeRefused(Pair(FirstEvaluation(pool, r.x), FirstEvaluation(pool, r.y)), r, 1, now);
  }

  /** The answers the sides owe each other: one for every hole they accepted. */
  function Owed(acceptedX: bool, acceptedY: bool): seq<Delivery> {
    (if acceptedX then [AnswerX] else []) + (if acceptedY then [AnswerY] else [])
  }

  lemma {:induction false} ExchangeExtended(p: Pair, r: Race, ds: seq<Delivery>, es: seq<Delivery>, now: nat)
    requires IsExchange(p, r, ds, now) && IsExchange(AfterAll(p, r, ds, now), r, es, now)
    ensures IsExchange(p, r, ds + es, now)
    ensures AfterAll(p, r, ds + es, now) == AfterAll(AfterAll(p, r, ds, now), r, es, now)
    decreases |ds|
  {
    hide Delivered, Possible;
    if ds == [] {
      assert ds + es == es;
    } else {
      assert (ds + es)[1..] == ds[1..] + es;
      ExchangeExtended(Delivered(p, r, ds[0], now), r, ds[1..], es, now);
    }
  }

  lemma OneFirst(p: Pair, r: Race, d: Delivery, rest: seq<Delivery>, now: nat)
    requires Possible(p, r, d) && IsExchange(Delivered(p, r, d, now), r, rest, now)
    ensures IsExchange(p, r, [d] + rest, now)
  {
    hide Delivered, Possible;
    assert ([d] + rest)[1..] == rest;
  }

  lemma AnswerXFirst(p: Pair, r: Race, g: Progress, max: nat, now: nat)
    requires At(p, r, g, max) && Consistent(g, |r.shared|, max) && g.acceptedX
    ensures Possible(p, r, AnswerX)
    ensures At(Delivered(p, r, AnswerX, now), r, g.(answeredX := true), max)
    ensures Consistent(g.(answeredX := true), |r.shared|, max)
  {
    hide At, Delivered, Consistent, Matched;
    AtShows(p, r, g, max);
    DeliveryMoves(p, r, g, max, AnswerX, now);
  }

  lemma AnswerYLast(p: Pair, r: Race, g: Progress, max: nat, now: nat)
    requires At(p, r, g, max) && g.acceptedY
    ensures IsExchange(p, r, [AnswerY] + [], now)
  {
    hide At, Delivered, Matched;
    AtShows(p, r, g, max);
    OneFirst(p, r, AnswerY, [], now);
  }

  /** The owed answers can be delivered. */
  lemma OwedIsPossible(p: Pair, r: Race, g: Progress, max: nat, now: nat)
    requires At(p, r, g, max) && Consistent(g, |r.shared|, max)
    ensures IsExchange(p, r, Owed(g.acceptedX, g.acceptedY), now)
  {
    hide At, Delivered, Consistent, Matched, Possible, IsExchange;
    var q, h := p, g;
    if g.acceptedX {
      AnswerXFirst(p, r, g, max, now);
      q, h := Delivered(p, r, AnswerX, now), g.(answeredX := true);
    }
    if g.acceptedY {
      AnswerYLast(q, r, h, max, now);
      assert [AnswerY] + [] == Owed(false, true);
    } else {
      NothingToDeliver(q, r, now);
    }
    if g.acceptedX {
      OneFirst(p, r, AnswerX, Owed(false, g.acceptedY), now);
      assert [AnswerX] + Owed(false, g.acceptedY) == Owed(true, g.acceptedY);
    }
  }

  lemma NothingToDeliver(p: Pair, r: Race, now: nat)
    ensures IsExchange(p, r, Owed(false, false), now)
  {
  }

  /**
   After any exchange in which both announcements came, the owed answers can be delivered; once they are, both sides
   count the same holes as answered: all shared ones and one or both new ones.
   */
  lemma BothSidesAgree(p: Pair, r: Race, max: nat, ds: seq<Delivery>, now: nat)
    requires Simultaneous(p, r, max) && IsExchange(p, r, ds, now)
    requires AnnounceX in ds && AnnounceY in ds
    ensures
      var q := AfterAll(p, r, ds, now);
      var all := ds + Owed(r.x in q.b.holes, r.y in q.a.holes);
      && IsExchange(p, r, all, now)
      && SidesAgree(AfterAll(p, r, all, now), r, max)
  {
    hide Simultaneous, At, AfterAll, MovesAll, IsExchange, Matched, Consistent, SidesAgree, Owed;
    var q, g := AfterAll(p, r, ds, now), MovesAll(NOTHING_YET, ds, |r.shared|, max);
    var owed := Owed(r.x in q.b.holes, r.y in q.a.holes);
    StartsFresh(p, r, max);
    ExchangeMoves(p, r, NOTHING_YET, max, ds, now);
    AtShows(q, r, g, max);
    OwedIsPossible(q, r, g, max, now);
    ExchangeExtended(p, r, ds, owed, now);
    ExchangeMoves(q, r, g, max, owed, now);
    OwedCompletes(g, |r.shared|, max);
    AgreedShows(AfterAll(q, r, owed, now), r, MovesAll(g, owed, |r.shared|, max), max);
  }

  /** The same answered holes on both sides, more than before, and both new ones when there was room for two. */
  ghost predicate SidesAgree(q: Pair, r: Race, max: nat) {
    && Matched(q.a.holes) == Matched(q.b.holes) && r.shared < Matched(q.a.holes) <= r.shared + {r.x, r.y}
    && (|r.shared| + 2 <= max ==> Matched(q.a.holes) == r.shared + {r.x, r.y})
  }

  lemma OwedCompletes(g: Progress, shared: nat, max: nat)
    requires Consistent(g, shared, max) && g.cameX && g.cameY
    ensures
      var n := MovesAll(g, Owed(g.acceptedX, g.acceptedY), shared, max);
      && n.acceptedX == n.answeredX && n.acceptedY == n.answeredY && n.cameX && n.cameY
  {
    var owed := Owed(g.acceptedX, g.acceptedY);
    if g.acceptedX {
      assert owed[1..] == Owed(false, g.acceptedY);
    }
    assert [AnswerY][1..] == [];
  }

  lemma SameSets(s: set<Slot>, x: Slot, y: Slot, withX: bool, withY: bool, a: set<Slot>, b: set<Slot>)
    requires x !in s && y !in s && (withX || withY)
    requires a == s + (if withX then {x} else {}) + (if withY then {y} else {})
    requires b == s + (if withY then {y} else {}) + (if withX then {x} else {})
    ensures a == b && s < a <= s + {x, y} && (withX && withY ==> a == s + {x, y})
  {
    if withX && withY {
      assert a == s + {x, y} && b == s + {x, y} && x in a;
    } else if withX {
      assert a == s + {x} && b == s + {x} && x in a;
    } else {
      assert a == s + {y} && b == s + {y} && y in a;
    }
  }

  lemma AgreedShows(q: Pair, r: Race, g: Progress, max: nat)
    requires At(q, r, g, max) && Consistent(g, |r.shared|, max)
    requires g.cameX && g.cameY && g.acceptedX == g.answeredX && g.acceptedY == g.answeredY
    ensures SidesAgree(q, r, max)
  {
    hide At, Matched;
    AtShows(q, r, g, max);
    SameSets(r.shared, r.x, r.y, g.acceptedX, g.acceptedY, Matched(q.a.holes), Matched(q.b.holes));
  }
}
