/**
 The decisions of the P2P hole manager (`p2p::Core`): which holes to open in answer to the peer, which
 of its own accord, and which closed holes to remember.
 */
module P2pCore {
  import opened Prelude
  import opened Holes

  const START_GRACE: nat := 3000
  const CLOSED_MEMORY: nat := 256
  const SLOTS: nat := 0x1_0000_0000

  type Slot = n: nat | n < 0x1_0000_0000

  /** The peer's record of a hole: its number and the session the peer opened for it. */
  datatype PeerSession = PeerSession(slot: Slot, sessionId: nat)

  datatype Record = Record(openedAt: nat, maxAge: nat, peerSession: Option<nat>)

  datatype Effect =
    | Spawn(id: Slot, firstPeer: Option<PeerSession>)
    | Forward(id: Slot, session: PeerSession)
    | Drain(hole: nat)

  type HoleMap = map<Slot, Record>

  datatype CoreState = CoreState(pool: PoolPolicy, holes: HoleMap, closed: seq<(Slot, nat)>, nextId: Slot,
                                 lastOpen: nat, started: nat)

  function MaxHoles(pool: PoolPolicy): nat {
    pool.maxTotal * 2
  }

  function Fresh(pool: PoolPolicy, firstId: Slot, now: nat): CoreState {
    CoreState(pool, map[], [], firstId, now, now)
  }

  /** The holes whose peer has answered. */
  ghost function Matched(holes: HoleMap): set<Slot> {
    set id | id in holes && holes[id].peerSession.Some?
  }

  /** The own holes the peer has not answered yet. */
  ghost function Unanswered(holes: HoleMap): set<Slot> {
    set id | id in holes && holes[id].peerSession.None?
  }

  // ---------------------------------------------------------------- the steps

  datatype PeerResult = PeerResult(state: CoreState, effect: Option<Effect>)

  ghost function OnPeer(s: CoreState, now: nat, session: PeerSession, age: nat): PeerResult {
    var id := session.slot;
    if id in s.holes then
      PeerResult(s.(holes := s.holes[id := s.holes[id].(peerSession := Some(session.sessionId))]),
                 Some(Forward(id, session)))
    else if (id, session.sessionId) in s.closed || |Matched(s.holes)| >= s.pool.maxTotal then PeerResult(s, None)
    else
      PeerResult(s.(holes := s.holes[id := Record(now, age, Some(session.sessionId))]), Some(Spawn(id, Some(session))))
  }

  function OnEnded(s: CoreState, id: Slot): CoreState {
    if id !in s.holes then s
    else
      var left := s.(holes := s.holes - {id});
      match s.holes[id].peerSession
      case None => left
      case Some(session) =>
        var closed := s.closed + [(id, session)];
        left.(closed := if |closed| > CLOSED_MEMORY then closed[1..] else closed)
  }

  /** The `j`-th number from `from` on, around the number space. */
  function Number(from: Slot, j: nat): Slot {
    (from + j) % SLOTS
  }

  /** `id` is the first number from `from` on, around the number space, that no hole has. */
  ghost predicate FirstFree(holes: HoleMap, from: Slot, k: nat, id: Slot) {
    id == Number(from, k) && id !in holes && forall j: nat | j < k :: Number(from, j) in holes
  }

  ghost predicate Bounded(s: CoreState) {
    && MaxHoles(s.pool) <= SLOTS
    && |Unanswered(s.holes)| <= MaxHoles(s.pool)
    && |s.holes| <= s.pool.maxTotal * 3
    && |s.closed| <= CLOSED_MEMORY
  }

  /** The numbers met while looking for a free one. */
  ghost function Tried(from: Slot, k: nat): set<Slot> {
    set j: nat | j < k :: Number(from, j)
  }

  lemma {:induction false} TriedAreDistinct(from: Slot, k: nat)
    requires k <= SLOTS
    ensures |Tried(from, k)| == k
  {
    if k > 0 {
      TriedAreDistinct(from, k - 1);
      assert Tried(from, k) == Tried(from, k - 1) + {Number(from, k - 1)};
      forall j: nat | j < k - 1
        ensures Number(from, j) != Number(from, k - 1)
      {
        NumberIsInjective(from, j, k - 1);
      }
    }
  }

  lemma NumberIsInjective(from: Slot, i: nat, j: nat)
    requires i < j < SLOTS
    ensures Number(from, i) != Number(from, j)
  {
  }

  /** While fewer holes than numbers exist, the search meets a free number before it comes around. */
  lemma SearchStops(holes: HoleMap, from: Slot, k: nat)
    requires |holes| < SLOTS && forall j: nat | j < k :: Number(from, j) in holes
    ensures k <= |holes|
  {
    var n := Min(k, |holes| + 1);
    assert Tried(from, n) <= holes.Keys;
    SubsetIsSmaller(Tried(from, n), holes.Keys);
    TriedAreDistinct(from, n);
  }

  lemma {:induction false} FreeExists(holes: HoleMap, from: Slot, k: nat)
    requires |holes| < SLOTS && forall j: nat | j < k :: Number(from, j) in holes
    ensures exists n, id :: FirstFree(holes, from, n, id)
    decreases |holes| + 1 - k
  {
    SearchStops(holes, from, k);
    if Number(from, k) in holes {
      SearchStops(holes, from, k + 1);
      FreeExists(holes, from, k + 1);
    } else {
      assert FirstFree(holes, from, k, Number(from, k));
    }
  }

  lemma FirstFreeIsUnique(holes: HoleMap, from: Slot, k: nat, id: Slot, k': nat, id': Slot)
    requires FirstFree(holes, from, k, id) && FirstFree(holes, from, k', id')
    ensures k == k' && id == id'
  {
  }

  ghost function Free(holes: HoleMap, from: Slot): (id: Slot)
    requires |holes| < SLOTS
    ensures id !in holes && exists k :: FirstFree(holes, from, k, id)
  {
    FreeExists(holes, from, 0);
    var k: nat, id: Slot :| FirstFree(holes, from, k, id);
    id
  }

  lemma FirstFreeIsFree(holes: HoleMap, from: Slot, k: nat, id: Slot)
    requires |holes| < SLOTS && FirstFree(holes, from, k, id)
    ensures id == Free(holes, from)
  {
    hide FirstFree;
    var other: nat :| FirstFree(holes, from, other, Free(holes, from));
    FirstFreeIsUnique(holes, from, k, id, other, Free(holes, from));
  }

  datatype Evaluated = Evaluated(state: CoreState, effects: seq<Effect>, picked: nat)

  /** Opens one own hole under the first free number. */
  ghost function OpenOne(s: CoreState, now: nat, age: nat): CoreState
    requires |s.holes| < SLOTS
  {
    var id := Free(s.holes, s.nextId);
    s.(holes := s.holes[id := Record(now, age, None)], nextId := Number(id, 1), lastOpen := now)
  }

  /** Carries out a plan; `ages` are the ages picked one after another for the holes opened. */
  ghost function Execute(s: CoreState, now: nat, actions: seq<Action>, ages: nat -> nat): (r: Evaluated)
    requires MaxHoles(s.pool) <= SLOTS
    ensures r.state.pool == s.pool && r.state.closed == s.closed && r.state.started == s.started
    decreases |actions|
  {
    if actions == [] then Evaluated(s, [], 0)
    else
      var e := Execute(s, now, actions[..|actions| - 1], ages);
      match actions[|actions| - 1]
      case Retire(id) => e.(effects := e.effects + [Drain(id)])
      case Open =>
        if |e.state.holes| < MaxHoles(s.pool) then
          Evaluated(OpenOne(e.state, now, ages(e.picked)),
                    e.effects + [Spawn(Free(e.state.holes, e.state.nextId), None)],
                    e.picked + 1)
        else e
  }

  ghost function Evaluate(s: CoreState, now: nat, infos: seq<HoleInfo>, ages: nat -> nat): Evaluated
    requires MaxHoles(s.pool) <= SLOTS
  {
    if Minus(now, s.started) < START_GRACE then Evaluated(s, [], 0)
    else Execute(s, now, Plan(infos, Minus(now, s.lastOpen), s.pool), ages)
  }

  class Core {
    const pool: PoolPolicy
    const started: nat
    const maxHoles: nat
    var holes: map<Slot, Record>
    var closed: seq<(Slot, nat)>
    var nextId: Slot
    var lastOpen: nat

    ghost predicate Valid() {
      maxHoles == MaxHoles(pool) <= SLOTS
    }

    ghost function Value(): CoreState
      reads this
    {
      CoreState(pool, holes, closed, nextId, lastOpen, started)
    }

    constructor (pool: PoolPolicy, firstId: Slot, now: nat)
      requires MaxHoles(pool) <= SLOTS
      ensures Valid() && Value() == Fresh(pool, firstId, now)
    {
      this.pool, started, maxHoles := pool, now, pool.maxTotal * 2;
      holes, closed, nextId, lastOpen := map[], [], firstId, now;
    }

    method HandlePeer(now: nat, session: PeerSession, age: nat) returns (effect: Option<Effect>)
      requires Valid()
      modifies this`holes
      ensures PeerResult(Value(), effect) == OnPeer(old(Value()), now, session, age)
    {
      var id := session.slot;
      if id in holes {
        holes := holes[id := holes[id].(peerSession := Some(session.sessionId))];
        return Some(Forward(id, session));
      }
      var matched := CountMatched();
      if (id, session.sessionId) in closed || matched >= pool.maxTotal {
        return None;
      }
      holes := holes[id := Record(now, age, Some(session.sessionId))];
      effect := Some(Spawn(id, Some(session)));
    }

    method CountMatched() returns (n: nat)
      ensures n == |Matched(holes)|
    {
      var keys := holes.Keys;
      ghost var counted: set<Slot> := {};
      n := 0;
      while keys != {}
        invariant keys <= holes.Keys && n == |counted|
        invariant counted == set id | id in holes && id !in keys && holes[id].peerSession.Some?
        decreases |keys|
      {
        var id :| id in keys;
        if holes[id].peerSession.Some? {
          n := n + 1;
          counted := counted + {id};
        }
        keys := keys - {id};
      }
      assert counted == Matched(holes);
    }

    method HandleEnded(id: Slot)
      modifies this`holes, this`closed
      ensures Value() == OnEnded(old(Value()), id)
    {
      if id in holes {
        var record := holes[id];
        holes := holes - {id};
        if record.peerSession.Some? {
          closed := closed + [(id, record.peerSession.value)];
          if |closed| > CLOSED_MEMORY {
            closed := closed[1..];
          }
        }
      }
    }

    method HandleEvaluate(now: nat, infos: seq<HoleInfo>, ages: nat -> nat) returns (effects: seq<Effect>)
      requires Valid()
      modifies this`holes, this`nextId, this`lastOpen
      ensures
        var e := Evaluate(old(Value()), now, infos, ages);
        Value() == e.state && effects == e.effects
    {
      effects := [];
      if Minus(now, started) < START_GRACE {
        return;
      }
      var actions := Plan(infos, Minus(now, lastOpen), pool);
      var picked := 0;
      for i := 0 to |actions|
        invariant Evaluated(Value(), effects, picked) == Execute(old(Value()), now, actions[..i], ages)
      {
        assert actions[..i + 1][..|actions[..i + 1]| - 1] == actions[..i];
        match actions[i]
        case Open =>
          if |holes| < maxHoles {
            var id := TakeNumber();
            lastOpen := now;
            holes := holes[id := Record(now, ages(picked), None)];
            picked := picked + 1;
            effects := effects + [Spawn(id, None)];
          }
        case Retire(id) =>
          effects := effects + [Drain(id)];
      }
      assert actions[..|actions|] == actions;
    }

    /** The next free number; the peer may have taken some. */
    method TakeNumber() returns (id: Slot)
      requires |holes| < SLOTS
      modifies this`nextId
      ensures id == Free(holes, old(nextId)) && nextId == Number(id, 1)
    {
      ghost var from, k := nextId, 0;
      while nextId in holes
        invariant nextId == Number(from, k) && forall j: nat | j < k :: Number(from, j) in holes
        decreases |holes| + 1 - k
      {
        SearchStops(holes, from, k);
        SearchStops(holes, from, k + 1);
        nextId := (nextId + 1) % SLOTS;
        k := k + 1;
      }
      id := nextId;
      FirstFreeIsFree(holes, from, k, id);
      nextId := (nextId + 1) % SLOTS;
    }
  }
}
