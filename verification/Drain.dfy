/**
 Draining a hole by agreement (`drain::Drain`): a clock-free state machine. Times are in milliseconds.
 */
module Drains {
  import opened Prelude

  const CONFIRM_WAIT: nat := 2000
  const RETRY: nat := 300
  const GRACE: nat := 2100

  /** How long after its start a machine that asks sends its last request: repeats come every `RETRY`. */
  const LAST_REQUEST: nat := (CONFIRM_WAIT - 1) / RETRY * RETRY

  datatype Action = SendDrain(deleteLink: bool) | MarkDraining | Close

  datatype Phase =
    | Confirming(started: nat, lastSent: nat)
    | Draining(until: nat, lastConfirm: nat)
    | Closed

  datatype Machine = Machine(requested: bool, phase: Phase)

  datatype Reaction = Reaction(machine: Machine, actions: seq<Action>)

  function Asking(now: nat): Reaction {
    Reaction(Machine(true, Confirming(now, now)), [SendDrain(false)])
  }

  function Asked(now: nat): Reaction {
    Reaction(Machine(false, Draining(now + GRACE, now)), [SendDrain(false), MarkDraining])
  }

  function PeerDrainReaction(m: Machine, now: nat): Reaction {
    match m.phase
    case Confirming(_, _) => Reaction(m.(phase := Draining(now + GRACE, now)), [MarkDraining])
    case Draining(until, lastConfirm) =>
      if !m.requested && Minus(now, lastConfirm) >= RETRY
      then Reaction(m.(phase := Draining(until, now)), [SendDrain(false)])
      else Reaction(m, [])
    case Closed => Reaction(m, [])
  }

  function TickReaction(m: Machine, now: nat): Reaction {
    match m.phase
    case Confirming(started, lastSent) =>
      if Minus(now, started) >= CONFIRM_WAIT then Reaction(m.(phase := Draining(now + GRACE, now)), [MarkDraining])
      else if Minus(now, lastSent) >= RETRY
      then Reaction(m.(phase := Confirming(started, now)), [SendDrain(Minus(now, started) >= CONFIRM_WAIT / 2)])
      else Reaction(m, [])
    case Draining(until, _) => if now >= until then Reaction(m.(phase := Closed), [Close]) else Reaction(m, [])
    case Closed => Reaction(m, [])
  }

  function NextWakeup(m: Machine): Option<nat> {
    match m.phase
    case Confirming(started, lastSent) => Some(Min(lastSent + RETRY, started + CONFIRM_WAIT))
    case Draining(until, _) => Some(until)
    case Closed => None
  }

  class Drain {
    var requested: bool
    var phase: Phase

    ghost function Value(): Machine
      reads this
    {
      Machine(requested, phase)
    }

    /** The action that goes with it is to send a request. */
    constructor Request(now: nat)
      ensures Value() == Asking(now).machine
    {
      requested, phase := true, Confirming(now, now);
    }

    /** The actions that go with it are to confirm and to stop sending. */
    constructor Receive(now: nat)
      ensures Value() == Asked(now).machine
    {
      requested, phase := false, Draining(now + GRACE, now);
    }

    method OnPeerDrain(now: nat) returns (actions: seq<Action>)
      modifies this
      ensures Reaction(Value(), actions) == PeerDrainReaction(old(Value()), now)
    {
      match phase
      case Confirming(_, _) =>
        phase := Draining(now + GRACE, now);
        actions := [MarkDraining];
      case Draining(until, lastConfirm) =>
        if !requested && Minus(now, lastConfirm) >= RETRY {
          phase := Draining(until, now);
          actions := [SendDrain(false)];
        } else {
          actions := [];
        }
      case Closed =>
        actions := [];
    }

    method OnTick(now: nat) returns (actions: seq<Action>)
      modifies this
      ensures Reaction(Value(), actions) == TickReaction(old(Value()), now)
    {
      actions := [];
      match phase
      case Confirming(started, lastSent) =>
        if Minus(now, started) >= CONFIRM_WAIT {
          phase := Draining(now + GRACE, now);
          actions := [MarkDraining];
        } else if Minus(now, lastSent) >= RETRY {
          phase := Confirming(started, now);
          actions := [SendDrain(Minus(now, started) >= CONFIRM_WAIT / 2)];
        }
      case Draining(until, _) =>
        if now >= until {
          phase := Closed;
          actions := [Close];
        }
      case Closed =>
    }

    method Wakeup() returns (at: Option<nat>)
      ensures at == NextWakeup(Value())
    {
      match phase
      case Confirming(started, lastSent) =>
        at := Some(Min(lastSent + RETRY, started + CONFIRM_WAIT));
      case Draining(until, _) =>
        at := Some(until);
      case Closed =>
        at := None;
    }
  }

  // ---------------------------------------------------------------- the life of one machine

  /** Everything a machine has done: how many Drains it sent, when it stopped sending data, when it closed. */
  datatype Life = Life(machine: Machine, start: nat, clock: nat, sends: nat, marked: seq<nat>, closed: seq<nat>)

  function Record(l: Life, now: nat, action: Action): Life {
    match action
    case SendDrain(_) => l.(sends := l.sends + 1)
    case MarkDraining => l.(marked := l.marked + [now])
    case Close => l.(closed := l.closed + [now])
  }

  function RecordAll(l: Life, now: nat, actions: seq<Action>): Life
    decreases |actions|
  {
    if actions == [] then l else RecordAll(Record(l, now, actions[0]), now, actions[1..])
  }

  function React(l: Life, now: nat, r: Reaction): Life {
    RecordAll(l.(machine := r.machine, clock := now), now, r.actions)
  }

  function Born(now: nat, r: Reaction): Life {
    RecordAll(Life(r.machine, now, now, 0, [], []), now, r.actions)
  }

  datatype Event = Tick(now: nat) | PeerDrain(now: nat)

  /** The event comes no earlier than the last one, and no later than the moment the machine asked to be woken at. */
  predicate Timely(l: Life, e: Event) {
    l.clock <= e.now && (NextWakeup(l.machine).Some? ==> e.now <= NextWakeup(l.machine).value)
  }

  function Live(l: Life, e: Event): Life {
    match e
    case Tick(now) => React(l, now, TickReaction(l.machine, now))
    case PeerDrain(now) => React(l, now, PeerDrainReaction(l.machine, now))
  }

  function LiveOn(l: Life, events: seq<Event>): Life
    decreases |events|
  {
    if events == [] then l else LiveOn(Live(l, events[0]), events[1..])
  }

  predicate TimelyRun(l: Life, events: seq<Event>)
    decreases |events|
  {
    events != [] ==> Timely(l, events[0]) && TimelyRun(Live(l, events[0]), events[1..])
  }

  /** Drains are at least `RETRY` apart, so their number is bounded by the time since the start. */
  predicate Paced(l: Life, last: nat) {
    l.start <= last <= l.clock && l.sends * RETRY <= last - l.start + RETRY
  }

  predicate MostDrains(l: Life) {
    l.sends <= if l.machine.requested then 7 else 8
  }

  predicate LifeInv(l: Life) {
    l.start <= l.clock && l.sends >= 1 &&
    match l.machine.phase
    case Confirming(started, lastSent) =>
      && l.machine.requested && started == l.start && l.marked == [] && l.closed == []
      && l.start <= lastSent <= l.clock <= l.start + CONFIRM_WAIT && lastSent < l.start + CONFIRM_WAIT
      && l.sends * RETRY == lastSent - l.start + RETRY
    case Draining(until, lastConfirm) =>
      && |l.marked| == 1 && until == l.marked[0] + GRACE && l.closed == []
      && l.start <= l.marked[0] <= l.start + CONFIRM_WAIT && l.marked[0] <= l.clock <= until
      && (if l.machine.requested then l.sends <= 7 else l.marked[0] == l.start && Paced(l, lastConfirm))
    case Closed =>
      && |l.marked| == 1 && l.start <= l.marked[0] <= l.start + CONFIRM_WAIT
      && l.closed == [l.marked[0] + GRACE] && l.closed[0] <= l.clock
      && MostDrains(l) && (!l.machine.requested ==> l.marked[0] == l.start)
  }

  lemma BornIsFine(now: nat)
    ensures LifeInv(Born(now, Asking(now))) && LifeInv(Born(now, Asked(now)))
  {
    assert Asked(now).actions[1..] == [MarkDraining];
    assert Asking(now).actions[1..] == [] && [MarkDraining][1..] == [];
  }

  lemma RecordOne(l: Life, now: nat, actions: seq<Action>)
    requires |actions| <= 1
    ensures RecordAll(l, now, actions) == if actions == [] then l else Record(l, now, actions[0])
  {
    if actions != [] {
      assert actions[1..] == [];
    }
  }

  lemma LiveStaysFine(l: Life, e: Event)
    requires LifeInv(l) && Timely(l, e)
    ensures LifeInv(Live(l, e)) && Live(l, e).start == l.start && Live(l, e).machine.requested == l.machine.requested
    ensures l.marked <= Live(l, e).marked
  {
    var r := if e.Tick? then TickReaction(l.machine, e.now) else PeerDrainReaction(l.machine, e.now);
    RecordOne(l.(machine := r.machine, clock := e.now), e.now, r.actions);
  }

  lemma {:induction false} LiveOnStaysFine(l: Life, events: seq<Event>)
    requires LifeInv(l) && TimelyRun(l, events)
    ensures LifeInv(LiveOn(l, events)) && LiveOn(l, events).start == l.start
    ensures LiveOn(l, events).machine.requested == l.machine.requested
    ensures l.marked <= LiveOn(l, events).marked
    decreases |events|
  {
    if events != [] {
      LiveStaysFine(l, events[0]);
      LiveOnStaysFine(Live(l, events[0]), events[1..]);
    }
  }

  /**
   Whatever arrives, a machine whose timer is served on time stops sending data once, at most
   `CONFIRM_WAIT` after it started, closes once, exactly `GRACE` later, and sends at most 7 (asking)
   or 8 (asked) Drains; until it is closed no more than `CONFIRM_WAIT + GRACE` have passed.
   */
  lemma EveryDrainEnds(now: nat, asking: bool, events: seq<Event>)
    requires TimelyRun(Born(now, if asking then Asking(now) else Asked(now)), events)
    ensures
      var l := LiveOn(Born(now, if asking then Asking(now) else Asked(now)), events);
      && l.sends <= (if asking then 7 else 8)
      && |l.closed| <= |l.marked| <= 1
      && (l.marked != [] ==> now <= l.marked[0] <= now + CONFIRM_WAIT)
      && (l.closed != [] ==> l.closed[0] == l.marked[0] + GRACE)
      && (l.closed != [] <==> l.machine.phase == Closed)
      && (l.machine.phase != Closed ==> l.clock <= now + CONFIRM_WAIT + GRACE)
  {
    BornIsFine(now);
    LiveOnStaysFine(Born(now, if asking then Asking(now) else Asked(now)), events);
  }

  /** Once a machine has stopped sending data, the moment it will close never moves. */
  lemma DeadlineIsFixed(l: Life, events: seq<Event>)
    requires LifeInv(l) && TimelyRun(l, events) && l.machine.phase.Draining?
    ensures
      var m := LiveOn(l, events).machine;
      m.phase == Closed || (m.phase.Draining? && m.phase.until == l.machine.phase.until)
  {
    LiveOnStaysFine(l, events);
    assert LiveOn(l, events).marked[0] == l.marked[0];
  }

  // ---------------------------------------------------------------- the machine told by what it has done

  function ReactionTo(m: Machine, e: Event): Reaction {
    match e
    case Tick(now) => TickReaction(m, now)
    case PeerDrain(now) => PeerDrainReaction(m, now)
  }

  predicate SendsDrain(actions: seq<Action>) {
    exists i | 0 <= i < |actions| :: actions[i].SendDrain?
  }

  /** The moments at which Drains are sent while these events come. */
  function Drains(l: Life, events: seq<Event>): seq<nat>
    decreases |events|
  {
    if events == [] then []
    else
      (if SendsDrain(ReactionTo(l.machine, events[0]).actions) then [events[0].now] else [])
      + Drains(Live(l, events[0]), events[1..])
  }

  /** The last of the moments, the first of which is `start`. */
  function LastDrain(start: nat, sent: seq<nat>): nat {
    if sent == [] then start else sent[|sent| - 1]
  }

  function Created(now: nat, asking: bool): Reaction {
    if asking then Asking(now) else Asked(now)
  }

  /** What an end does next, from what it did before: when it was created, last sent a Drain, stopped and closed. */
  function Answer(start: nat, asking: bool, last: nat, marked: seq<nat>, closed: seq<nat>, e: Event): seq<Action> {
    if marked == [] then
      match e
      case PeerDrain(_) => [MarkDraining]
      case Tick(now) =>
        if now >= start + 2000 then [MarkDraining]
        else if now >= last + 300 then [SendDrain(now >= start + 1000)]
        else []
    else if closed == [] then
      match e
      case PeerDrain(now) => if !asking && now >= last + 300 then [SendDrain(false)] else []
      case Tick(now) => if now >= marked[0] + 2100 then [Close] else []
    else []
  }

  /** The state of a machine is what it has done. */
  ghost predicate StateIs(l: Life, start: nat, asking: bool, last: nat) {
    && l.machine.requested == asking
    && match l.machine.phase
      case Confirming(started, lastSent) =>
        started == start && lastSent == last && l.marked == [] && l.closed == [] && asking
      case Draining(until, lastConfirm) =>
        |l.marked| == 1 && until == l.marked[0] + 2100 && l.closed == [] && (!asking ==> lastConfirm == last)
      case Closed => l.marked != [] && l.closed != []
  }

  lemma CreatedState(start: nat, asking: bool)
    ensures StateIs(Born(start, Created(start, asking)), start, asking, start)
    ensures Created(start, asking).actions == if asking then [SendDrain(false)] else [SendDrain(false), MarkDraining]
  {
    assert Asked(start).actions[1..] == [MarkDraining];
    assert Asking(start).actions[1..] == [] && [MarkDraining][1..] == [];
    assert [] + [start] == [start];
  }

  lemma StateGoesOn(l: Life, start: nat, asking: bool, last: nat, e: Event)
    requires StateIs(l, start, asking, last)
    ensures
      StateIs(Live(l, e), start, asking, if SendsDrain(ReactionTo(l.machine, e).actions) then e.now else last)
  {
    var r := ReactionTo(l.machine, e);
    RecordOne(l.(machine := r.machine, clock := e.now), e.now, r.actions);
    assert |r.actions| == 1 && r.actions[0].SendDrain? ==> SendsDrain(r.actions);
    assert [] + [e.now] == [e.now];
  }

  lemma {:induction false} StateGoesOnAndOn(l: Life, start: nat, asking: bool, before: seq<nat>, events: seq<Event>)
    requires StateIs(l, start, asking, LastDrain(start, before))
    ensures StateIs(LiveOn(l, events), start, asking, LastDrain(start, before + Drains(l, events)))
    decreases |events|
  {
    hide StateIs, ReactionTo, Live;
    if events == [] {
      assert before + Drains(l, events) == before;
    } else {
      var first := if SendsDrain(ReactionTo(l.machine, events[0]).actions) then [events[0].now] else [];
      StateGoesOn(l, start, asking, LastDrain(start, before), events[0]);
      StateGoesOnAndOn(Live(l, events[0]), start, asking, before + first, events[1..]);
      assert before + first + Drains(Live(l, events[0]), events[1..]) == before + Drains(l, events);
    }
  }

  lemma StateAnswers(l: Life, start: nat, asking: bool, last: nat, e: Event)
    requires StateIs(l, start, asking, last)
    ensures ReactionTo(l.machine, e).actions == Answer(start, asking, last, l.marked, l.closed, e)
    ensures
      NextWakeup(l.machine)
      == if l.marked == [] then Some(if last + 300 < start + 2000 then last + 300 else start + 2000)
         else if l.closed == [] then Some(l.marked[0] + 2100)
         else None
  {
  }

  /**
   What an end does at every event, and when it asks to be woken, follows from its own history: it asks every 300 ms
   for two seconds, in the second half with a delete-link for peers of older versions, stops at the first Drain of the
   other end or after those two seconds, and closes 2.1 s later; an end that was asked confirms at once and stops, and
   confirms again whenever it is asked again 300 ms or more after its last Drain.
   */
  lemma ActionsFollowHistory(start: nat, asking: bool, events: seq<Event>, e: Event)
    ensures
      var l0 := Born(start, Created(start, asking));
      var l := LiveOn(l0, events);
      var last := LastDrain(start, Drains(l0, events));
      && Created(start, asking).actions == (if asking then [SendDrain(false)] else [SendDrain(false), MarkDraining])
      && ReactionTo(l.machine, e).actions == Answer(start, asking, last, l.marked, l.closed, e)
      && NextWakeup(l.machine)
         == if l.marked == [] then Some(if last + 300 < start + 2000 then last + 300 else start + 2000)
            else if l.closed == [] then Some(l.marked[0] + 2100)
            else None
  {
    var l0 := Born(start, Created(start, asking));
    CreatedState(start, asking);
    StateGoesOnAndOn(l0, start, asking, [], events);
    assert [] + Drains(l0, events) == Drains(l0, events);
    StateAnswers(LiveOn(l0, events), start, asking, LastDrain(start, Drains(l0, events)), e);
  }

  lemma {:induction false} DrainsExtended(l: Life, events: seq<Event>, e: Event)
    ensures
      Drains(l, events + [e])
      == Drains(l, events) + (if SendsDrain(ReactionTo(LiveOn(l, events).machine, e).actions) then [e.now] else [])
    decreases |events|
  {
    hide ReactionTo, Live;
    if events == [] {
      assert events + [e] == [e] && [e][1..] == [];
    } else {
      assert (events + [e])[1..] == events[1..] + [e];
      DrainsExtended(Live(l, events[0]), events[1..], e);
    }
  }

  /**
   A lost confirmation is made good: whenever an asked end that still drains receives a Drain, it has itself sent one
   less than 300 ms ago once it has reacted. An end that asks never answers while it drains, so the exchange ends.
   */
  lemma ConfirmationIsRecent(start: nat, asking: bool, events: seq<Event>, now: nat)
    requires
      var l := LiveOn(Born(start, Created(start, asking)), events);
      l.marked != [] && l.closed == []
    ensures
      var l0 := Born(start, Created(start, asking));
      if asking then Drains(l0, events + [PeerDrain(now)]) == Drains(l0, events)
      else now < LastDrain(start, Drains(l0, events + [PeerDrain(now)])) + 300
  {
    hide ReactionTo, LiveOn, Drains, Answer;
    var l0 := Born(start, Created(start, asking));
    ActionsFollowHistory(start, asking, events, PeerDrain(now));
    DrainsExtended(l0, events, PeerDrain(now));
    AnswerWhileDraining(start, asking, LastDrain(start, Drains(l0, events)), LiveOn(l0, events).marked, now);
  }

  lemma AnswerWhileDraining(start: nat, asking: bool, last: nat, marked: seq<nat>, now: nat)
    requires marked != []
    ensures SendsDrain(Answer(start, asking, last, marked, [], PeerDrain(now))) <==> !asking && now >= last + 300
  {
    assert [SendDrain(false)][0].SendDrain?;
  }
}
