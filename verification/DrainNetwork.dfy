/**
 Two ends draining the same hole over a network that loses, delays and reorders messages, with data
 still on the way. Time is in milliseconds and passes only in `Advance` steps, which may not run past
 a timer or past the latest arrival of a message in flight.
 */
module DrainNetwork {
  import opened Prelude
  import opened Drains

  datatype Side = A | B

  function Other(s: Side): Side {
    if s == A then B else A
  }

  datatype Message = DrainMessage(to: Side, sentAt: nat) | Data(to: Side, sentAt: nat)

  /**
   One end: no drain running yet, or the life of its machine. `heard` - it has received a Drain of the
   other end; `byPeer` - it was such a Drain that made it stop sending.
   */
  datatype End = End(life: Option<Life>, heard: bool, byPeer: bool)

  /**
   How long a message takes, and whether an end may be `alone`: without any active hole beside the one it drains. It
   then goes on sending data over the draining hole.
   */
  datatype Network = Network(least: nat, most: nat, alone: bool)

  /** A delay is at most a second, and delays differ by no more than a drain allows for. */
  predicate Fits(net: Network) {
    net.least <= net.most <= 1000 && net.most - net.least <= GRACE - CONFIRM_WAIT
  }

  datatype World = World(now: nat, a: End, b: End, flight: multiset<Message>) {
    function At(s: Side): End {
      if s == A then a else b
    }

    function With(s: Side, e: End): World {
      if s == A then this.(a := e) else this.(b := e)
    }
  }

  /** Nothing is being drained and nothing is on the way. */
  function Calm(now: nat): World {
    World(now, End(None, false, false), End(None, false, false), multiset{})
  }

  /** `copies` copies of a Drain survive: it goes over several holes, and any number may be lost. */
  datatype Step =
    | Advance(to: nat)
    | Decide(side: Side, copies: nat)
    | SendData(side: Side)
    | Timer(side: Side, copies: nat)
    | Deliver(message: Message, copies: nat)

  /** Data goes over the hole while it is active, and while it drains only if there is no active one. */
  predicate MaySend(e: End, net: Network) {
    e.life.None? ||
    match e.life.value.machine.phase
    case Confirming(_, _) => true
    case Draining(_, _) => net.alone
    case Closed => false
  }

  predicate IsClosed(e: End) {
    e.life.Some? && e.life.value.machine.phase.Closed?
  }

  predicate AwakeUntil(e: End, t: nat) {
    e.life.Some? ==>
      var wakeup := NextWakeup(e.life.value.machine);
      wakeup.Some? ==> t <= wakeup.value
  }

  ghost predicate Enabled(w: World, net: Network, step: Step)
  {
    match step
    case Advance(to) =>
      && w.now <= to && AwakeUntil(w.At(A), to) && AwakeUntil(w.At(B), to)
      && forall m | m in w.flight :: to <= m.sentAt + net.most
    case Decide(side, _) => w.At(side).life.None?
    case SendData(side) => MaySend(w.At(side), net)
    case Timer(side, _) => w.At(side).life.Some?
    case Deliver(m, _) => m in w.flight && m.sentAt + net.least <= w.now
  }

  function Sending(flight: multiset<Message>, to: Side, now: nat, r: Reaction, copies: nat): multiset<Message> {
    if exists i | 0 <= i < |r.actions| :: r.actions[i].SendDrain?
    then flight[DrainMessage(to, now) := flight[DrainMessage(to, now)] + copies]
    else flight
  }

  function Started(w: World, side: Side, r: Reaction, copies: nat, byPeer: bool): World {
    w.With(side, End(Some(Born(w.now, r)), byPeer, byPeer)).(flight := Sending(w.flight, Other(side), w.now, r, copies))
  }

  function Moved(w: World, side: Side, r: Reaction, copies: nat, byPeer: bool): World
    requires w.At(side).life.Some?
  {
    var e := w.At(side);
    var stopped := byPeer && e.life.value.machine.phase.Confirming?;
    w.With(side, End(Some(React(e.life.value, w.now, r)), e.heard || byPeer, e.byPeer || stopped))
     .(flight := Sending(w.flight, Other(side), w.now, r, copies))
  }

  function Next(w: World, step: Step): World
    requires step.Timer? ==> w.At(step.side).life.Some?
  {
    match step
    case Advance(to) => w.(now := to)
    case Decide(side, copies) => Started(w, side, Asking(w.now), copies, false)
    case SendData(side) => w.(flight := w.flight + multiset{Data(Other(side), w.now)})
    case Timer(side, copies) => Moved(w, side, TickReaction(w.At(side).life.value.machine, w.now), copies, false)
    case Deliver(m, copies) =>
      var rest := w.(flight := w.flight - multiset{m});
      if m.Data? then rest
      else if w.At(m.to).life.None? then Started(rest, m.to, Asked(w.now), copies, true)
      else Moved(rest, m.to, PeerDrainReaction(w.At(m.to).life.value.machine, w.now), copies, true)
  }

  // ---------------------------------------------------------------- the invariant

  /** Timers are served in time. */
  predicate OnTime(w: World, e: End) {
    e.life.Some? ==> LifeInv(e.life.value) && e.life.value.clock <= w.now && AwakeUntil(e, w.now)
  }

  predicate Stopped(e: End) {
    e.life.Some? && e.life.value.marked != []
  }

  function StoppedAt(e: End): nat
    requires Stopped(e)
  {
    e.life.value.marked[0]
  }

  /** How the end `x` came to stop sending, given the other end `y`. */
  predicate StopInv(x: End, y: End, net: Network) {
    && (x.heard ==>
          && Stopped(x) && y.life.Some?
          && (y.life.value.machine.requested ==> StoppedAt(x) <= y.life.value.start + LAST_REQUEST + net.most))
    && (x.byPeer ==> Stopped(x) && y.life.Some? && y.life.value.start + net.least <= StoppedAt(x))
    && (Stopped(x) && !x.byPeer ==>
          x.life.value.machine.requested && x.life.value.start + CONFIRM_WAIT <= StoppedAt(x))
  }

  /** What is on the way from `x`. */
  predicate SentBy(x: End, m: Message, net: Network) {
    match m
    case DrainMessage(_, at) =>
      && x.life.Some? && x.life.value.start <= at
      && (x.life.value.machine.requested ==> at <= x.life.value.start + LAST_REQUEST)
    case Data(_, at) => Stopped(x) && !net.alone ==> at <= StoppedAt(x)
  }

  ghost predicate FlightInv(w: World, net: Network)
  {
    forall m | m in w.flight :: m.sentAt <= w.now <= m.sentAt + net.most && SentBy(w.At(Other(m.to)), m, net)
  }

  ghost predicate Inv(w: World, net: Network) {
    && OnTime(w, w.At(A)) && OnTime(w, w.At(B))
    && StopInv(w.At(A), w.At(B), net) && StopInv(w.At(B), w.At(A), net)
    && FlightInv(w, net)
  }

  lemma SideFacts(w: World, net: Network, s: Side)
    requires Inv(w, net)
    ensures OnTime(w, w.At(s)) && StopInv(w.At(s), w.At(Other(s)), net) && StopInv(w.At(Other(s)), w.At(s), net)
    ensures OnTime(w, w.At(Other(s)))
  {
  }

  lemma Gather(w: World, net: Network, s: Side)
    requires OnTime(w, w.At(s)) && OnTime(w, w.At(Other(s)))
    requires StopInv(w.At(s), w.At(Other(s)), net) && StopInv(w.At(Other(s)), w.At(s), net) && FlightInv(w, net)
    ensures Inv(w, net)
  {
  }

  /** A machine that comes to life or moves sends at most one Drain, now, to the other end. */
  lemma SendingAdds(flight: multiset<Message>, to: Side, now: nat, r: Reaction, copies: nat, m: Message)
    requires m in Sending(flight, to, now, r, copies)
    ensures m in flight || (m == DrainMessage(to, now) && exists i | 0 <= i < |r.actions| :: r.actions[i].SendDrain?)
  {
  }

  lemma BornAt(now: nat, asking: bool)
    ensures
      var l := Born(now, if asking then Asking(now) else Asked(now));
      && LifeInv(l) && l.start == now && l.clock == now && l.machine.requested == asking
      && l.marked == (if asking then [] else [now])
      && NextWakeup(l.machine).Some? && now <= NextWakeup(l.machine).value
  {
    BornIsFine(now);
    assert Asked(now).actions[1..] == [MarkDraining] && [MarkDraining][1..] == [];
    assert Asking(now).actions[1..] == [];
  }

  lemma StartKeepsInv(w: World, net: Network, s: Side, copies: nat, byPeer: bool)
    requires Inv(w, net) && w.At(s).life.None?
    requires byPeer ==>
      var y := w.At(Other(s)).life;
      && y.Some? && y.value.start + net.least <= w.now
      && (y.value.machine.requested ==> w.now <= y.value.start + LAST_REQUEST + net.most)
    ensures Inv(Started(w, s, if byPeer then Asked(w.now) else Asking(w.now), copies, byPeer), net)
  {
    var r := if byPeer then Asked(w.now) else Asking(w.now);
    var t := Started(w, s, r, copies, byPeer);
    BornAt(w.now, !byPeer);
    SideFacts(w, net, s);
    StartedFlight(w, net, s, copies, byPeer);
    hide Inv, LifeInv, FlightInv, Born, Sending;
    assert StopInv(t.At(Other(s)), t.At(s), net);
    Gather(t, net, s);
  }

  lemma StartedFlight(w: World, net: Network, s: Side, copies: nat, byPeer: bool)
    requires Inv(w, net) && w.At(s).life.None?
    ensures FlightInv(Started(w, s, if byPeer then Asked(w.now) else Asking(w.now), copies, byPeer), net)
  {
    hide LifeInv, Born, Sending, StopInv;
    var r := if byPeer then Asked(w.now) else Asking(w.now);
    var t := Started(w, s, r, copies, byPeer);
    BornAt(w.now, !byPeer);
    forall m | m in t.flight
      ensures m.sentAt <= t.now <= m.sentAt + net.most && SentBy(t.At(Other(m.to)), m, net)
    {
      SendingAdds(w.flight, Other(s), w.now, r, copies, m);
    }
  }

  /** What one timely reaction of a machine does. */
  lemma MoveFacts(l: Life, now: nat, tick: bool)
    requires LifeInv(l) && l.clock <= now && (NextWakeup(l.machine).Some? ==> now <= NextWakeup(l.machine).value)
    ensures
      var r := if tick then TickReaction(l.machine, now) else PeerDrainReaction(l.machine, now);
      var n := React(l, now, r);
      && LifeInv(n) && n.clock == now && n.start == l.start && n.machine.requested == l.machine.requested
      && (NextWakeup(n.machine).Some? ==> now <= NextWakeup(n.machine).value)
      && (l.marked != [] ==> n.marked == l.marked)
      && (l.marked == [] && n.marked != [] ==> n.marked == [now] && l.machine.phase.Confirming?)
      && (l.marked == [] && n.marked != [] && tick ==> l.start + CONFIRM_WAIT <= now)
      && (l.machine.phase.Confirming? && !tick ==> n.marked == [now])
      && l.start <= now
      && (l.marked == [] && n.marked != [] ==> n.marked[0] == now)
      && (l.machine.requested && (exists i | 0 <= i < |r.actions| :: r.actions[i].SendDrain?) ==>
            now <= l.start + LAST_REQUEST)
  {
    var r := if tick then TickReaction(l.machine, now) else PeerDrainReaction(l.machine, now);
    LiveStaysFine(l, if tick then Event.Tick(now) else PeerDrain(now));
    RecordOne(l.(machine := r.machine, clock := now), now, r.actions);
  }

  lemma MoveKeepsInv(w: World, net: Network, s: Side, copies: nat, byPeer: bool)
    requires Inv(w, net) && w.At(s).life.Some?
    requires byPeer ==>
      var y := w.At(Other(s)).life;
      && y.Some? && y.value.start + net.least <= w.now
      && (y.value.machine.requested ==> w.now <= y.value.start + LAST_REQUEST + net.most)
    ensures
      var m := w.At(s).life.value.machine;
      Inv(Moved(w, s, if byPeer then PeerDrainReaction(m, w.now) else TickReaction(m, w.now), copies, byPeer), net)
  {
    var l := w.At(s).life.value;
    var r := if byPeer then PeerDrainReaction(l.machine, w.now) else TickReaction(l.machine, w.now);
    var t := Moved(w, s, r, copies, byPeer);
    SideFacts(w, net, s);
    MovedStop(w, net, s, r, byPeer);
    MovedFlight(w, net, s, r, copies, byPeer);
    MoveFacts(l, w.now, !byPeer);
    hide Inv, LifeInv, StopInv, FlightInv, Sending;
    Gather(t, net, s);
  }

  lemma MovedFlight(w: World, net: Network, s: Side, r: Reaction, copies: nat, byPeer: bool)
    requires Inv(w, net) && w.At(s).life.Some?
    requires
      var m := w.At(s).life.value.machine;
      r == if byPeer then PeerDrainReaction(m, w.now) else TickReaction(m, w.now)
    ensures FlightInv(Moved(w, s, r, copies, byPeer), net)
  {
    hide Sending, LifeInv, StopInv, NextWakeup, RecordAll, PeerDrainReaction, TickReaction;
    var t := Moved(w, s, r, copies, byPeer);
    SideFacts(w, net, s);
    MoveFacts(w.At(s).life.value, w.now, !byPeer);
    forall m | m in t.flight
      ensures m.sentAt <= t.now <= m.sentAt + net.most && SentBy(t.At(Other(m.to)), m, net)
    {
      SendingAdds(w.flight, Other(s), w.now, r, copies, m);
    }
  }

  /** How the two ends stopped stays true when one of them reacts. */
  lemma MovedStop(w: World, net: Network, s: Side, r: Reaction, byPeer: bool)
    requires Inv(w, net) && w.At(s).life.Some?
    requires
      var m := w.At(s).life.value.machine;
      r == if byPeer then PeerDrainReaction(m, w.now) else TickReaction(m, w.now)
    requires byPeer ==>
      var y := w.At(Other(s)).life;
      && y.Some? && y.value.start + net.least <= w.now
      && (y.value.machine.requested ==> w.now <= y.value.start + LAST_REQUEST + net.most)
    ensures
      var t := Moved(w, s, r, 0, byPeer);
      StopInv(t.At(s), t.At(Other(s)), net) && StopInv(t.At(Other(s)), t.At(s), net)
  {
    hide Inv, LifeInv, React, RecordAll, PeerDrainReaction, TickReaction, NextWakeup, Sending;
    var l := w.At(s).life.value;
    SideFacts(w, net, s);
    MoveFacts(l, w.now, !byPeer);
    LifeStopped(l);
  }

  lemma LifeStopped(l: Life)
    requires LifeInv(l)
    ensures l.marked == [] <==> l.machine.phase.Confirming?
    ensures l.marked != [] ==> l.marked[0] <= l.clock
  {
  }

  /** A Drain that is received was sent after its sender started, and not long after. */
  lemma ReceivedDrain(w: World, net: Network, m: Message)
    requires Inv(w, net) && m in w.flight && m.DrainMessage? && m.sentAt + net.least <= w.now
    ensures
      var y := w.At(Other(m.to)).life;
      && y.Some? && y.value.start + net.least <= w.now
      && (y.value.machine.requested ==> w.now <= y.value.start + LAST_REQUEST + net.most)
  {
  }

  lemma TakenOutKeepsInv(w: World, net: Network, m: Message)
    requires Inv(w, net)
    ensures Inv(w.(flight := w.flight - multiset{m}), net)
  {
  }

  lemma SendDataKeepsInv(w: World, net: Network, s: Side)
    requires Inv(w, net) && MaySend(w.At(s), net)
    ensures Inv(Next(w, SendData(s)), net)
  {
    var t := Next(w, SendData(s));
    forall m | m in t.flight
      ensures m.sentAt <= t.now <= m.sentAt + net.most && SentBy(t.At(Other(m.to)), m, net)
    {
      assert m in w.flight || m == Data(Other(s), w.now);
    }
  }

  lemma StepKeepsInv(w: World, net: Network, step: Step)
    requires Inv(w, net) && Enabled(w, net, step)
    ensures Inv(Next(w, step), net)
  {
    hide Inv, Moved, Started;
    match step
    case Advance(to) =>
      AdvanceKeepsInv(w, net, to);
    case Decide(side, copies) =>
      StartKeepsInv(w, net, side, copies, false);
    case SendData(side) =>
      SendDataKeepsInv(w, net, side);
    case Timer(side, copies) =>
      MoveKeepsInv(w, net, side, copies, false);
    case Deliver(m, copies) =>
      DeliveryKeepsInv(w, net, m, copies);
  }

  lemma AdvanceKeepsInv(w: World, net: Network, to: nat)
    requires Inv(w, net) && Enabled(w, net, Advance(to))
    ensures Inv(w.(now := to), net)
  {
    hide LifeInv, StopInv, NextWakeup;
  }

  lemma DeliveryKeepsInv(w: World, net: Network, m: Message, copies: nat)
    requires Inv(w, net) && Enabled(w, net, Deliver(m, copies))
    ensures Inv(Next(w, Deliver(m, copies)), net)
  {
    hide Inv, Moved, Started;
    var rest := w.(flight := w.flight - multiset{m});
    TakenOutKeepsInv(w, net, m);
    if m.DrainMessage? {
      ReceivedDrain(w, net, m);
      if w.At(m.to).life.None? {
        StartKeepsInv(rest, net, m.to, copies, true);
      } else {
        MoveKeepsInv(rest, net, m.to, copies, true);
      }
    }
  }

  // ---------------------------------------------------------------- runs

  ghost predicate IsRun(w: World, net: Network, steps: seq<Step>)
    decreases |steps|
  {
    steps != [] ==> Enabled(w, net, steps[0]) && IsRun(Next(w, steps[0]), net, steps[1..])
  }

  ghost function After(w: World, net: Network, steps: seq<Step>): World
    requires IsRun(w, net, steps)
    decreases |steps|
  {
    if steps == [] then w else After(Next(w, steps[0]), net, steps[1..])
  }

  lemma {:induction false} RunKeepsInv(w: World, net: Network, steps: seq<Step>)
    requires Inv(w, net) && IsRun(w, net, steps)
    ensures Inv(After(w, net, steps), net)
    decreases |steps|
  {
    hide Inv, Moved, Started;
    if steps != [] {
      StepKeepsInv(w, net, steps[0]);
      RunKeepsInv(Next(w, steps[0]), net, steps[1..]);
    }
  }

  /** The two ends have heard of each other: `x` got a Drain of `y`, or `y` stopped because of one of `x`. */
  predicate Agreed(x: End, y: End) {
    x.heard || y.byPeer
  }

  /**
   Data on the way to a closed end the other has agreed with: then the delays differ by at least what a drain allows
   for, or are so long that the last request could be heard, and answered by data, only as the asking end closed.
   With delays that fit it can only be arriving at this very moment. All this while no end is alone.
   */
  lemma ClosedEndMissesNothing(w: World, net: Network, m: Message)
    requires Inv(w, net) && !net.alone
    requires m in w.flight && m.Data? && IsClosed(w.At(m.to)) && Agreed(w.At(Other(m.to)), w.At(m.to))
    ensures net.most >= net.least + (GRACE - CONFIRM_WAIT) || LAST_REQUEST + 2 * net.most >= CONFIRM_WAIT + GRACE
    ensures Fits(net) ==> w.now == m.sentAt + net.most && net.most - net.least == GRACE - CONFIRM_WAIT
  {
    SideFacts(w, net, m.to);
  }

  /** In the world after the run, a data packet is on its way to a closed end although the ends have agreed. */
  ghost predicate LateData(start: nat, net: Network, steps: seq<Step>, m: Message) {
    && IsRun(Calm(start), net, steps)
    && var w := After(Calm(start), net, steps);
      m in w.flight && m.Data? && IsClosed(w.At(m.to)) && Agreed(w.At(Other(m.to)), w.At(m.to))
  }

  /**
   No data is lost by draining while other holes are active. In every run from a calm state: when an end is closed,
   and the other end has heard at least one of its Drains (or it was itself made to stop by one of the other's), every
   data packet the other end sent is no longer on the way - except that, when delays really spread by the full
   `GRACE - CONFIRM_WAIT`, a packet may be arriving in the very moment of closing.
   */
  lemma DrainingLosesNothing(start: nat, net: Network, steps: seq<Step>, m: Message)
    requires Fits(net) && !net.alone && LateData(start, net, steps, m)
    ensures net.most - net.least == GRACE - CONFIRM_WAIT && After(Calm(start), net, steps).now == m.sentAt + net.most
  {
    RunKeepsInv(Calm(start), net, steps);
    ClosedEndMissesNothing(After(Calm(start), net, steps), net, m);
  }

  /** In the world after the run, a data packet is on its way that was sent after its sender had stopped sending. */
  ghost predicate SentAfterStopping(start: nat, net: Network, steps: seq<Step>, m: Message) {
    && IsRun(Calm(start), net, steps)
    && var w := After(Calm(start), net, steps);
      var sender := w.At(Other(m.to));
      m in w.flight && m.Data? && Stopped(sender) && StoppedAt(sender) < m.sentAt
  }

  /** An end that has other active holes stops sending data over this one for good. */
  lemma NoDataAfterStopping(start: nat, net: Network, steps: seq<Step>, m: Message)
    requires !net.alone
    ensures !SentAfterStopping(start, net, steps, m)
  {
    if IsRun(Calm(start), net, steps) {
      RunKeepsInv(Calm(start), net, steps);
    }
  }

  /** The two machines fall silent: together they send at most 16 Drains, and then are closed for good. */
  lemma BothFallSilent(start: nat, net: Network, steps: seq<Step>, s: Side)
    requires IsRun(Calm(start), net, steps)
    requires After(Calm(start), net, steps).At(s).life.Some?
    ensures
      var w := After(Calm(start), net, steps);
      var l := w.At(s).life.value;
      && l.sends <= 8
      && (w.now > l.start + CONFIRM_WAIT + GRACE ==> l.machine.phase.Closed?)
  {
    RunKeepsInv(Calm(start), net, steps);
    SideFacts(After(Calm(start), net, steps), net, s);
  }
}
