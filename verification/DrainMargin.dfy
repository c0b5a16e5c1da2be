/**
 How exact the margin of a drain is: runs in which data comes too late, for every combination of delays the
 margin does not cover, for ends without another active hole, and for ends that never heard of each other. In all of
 them side A asks at moment 0.
 */
module DrainMargin {
  import opened Prelude
  import opened Drains
  import opened DrainNetwork

  ghost predicate Reaches(net: Network, steps: seq<Step>, w: World) {
    IsRun(Calm(0), net, steps) && After(Calm(0), net, steps) == w
  }

  lemma {:induction false} OneMore(w: World, net: Network, steps: seq<Step>, step: Step, t: World)
    requires IsRun(w, net, steps) && After(w, net, steps) == t && Enabled(t, net, step)
    ensures IsRun(w, net, steps + [step]) && After(w, net, steps + [step]) == Next(t, step)
    decreases |steps|
  {
    if steps == [] {
      assert [step][1..] == [];
      assert IsRun(Next(w, step), net, []);
    } else {
      assert (steps + [step])[1..] == steps[1..] + [step];
      OneMore(Next(w, steps[0]), net, steps[1..], step, t);
    }
  }

  lemma StepOn(net: Network, steps: seq<Step>, w: World, step: Step)
    requires Reaches(net, steps, w) && Enabled(w, net, step)
    ensures Reaches(net, steps + [step], Next(w, step))
  {
    OneMore(Calm(0), net, steps, step, w);
  }

  // ---------------------------------------------------------------- the ends along the way

  /** The asking end after `k` repetitions of its request, of which it has heard nothing. */
  function Waiting(k: nat): End {
    End(Some(Life(Machine(true, Confirming(0, RETRY * k)), 0, RETRY * k, k + 1, [], [])), false, false)
  }

  /** The asking end that gave up waiting and closes after `GRACE`. */
  function GaveUp(): End {
    End(Some(Life(Machine(true, Draining(CONFIRM_WAIT + GRACE, CONFIRM_WAIT)), 0, CONFIRM_WAIT, 7, [CONFIRM_WAIT], [])),
        false, false)
  }

  function GaveUpAndClosed(): End {
    End(Some(Life(Machine(true, Closed), 0, CONFIRM_WAIT + GRACE, 7, [CONFIRM_WAIT], [CONFIRM_WAIT + GRACE])),
        false, false)
  }

  /** The end that was asked at `t`. */
  function Told(t: nat): End {
    End(Some(Life(Machine(false, Draining(t + GRACE, t)), t, t, 1, [t], [])), true, true)
  }

  function ToldAndClosed(t: nat): End {
    End(Some(Life(Machine(false, Closed), t, t + GRACE, 1, [t], [t + GRACE])), true, true)
  }

  const UNAWARE: End := End(None, false, false)

  /** `copies` copies of a request sent now survive. */
  function WithRequests(flight: multiset<Message>, now: nat, copies: nat): multiset<Message> {
    flight[DrainMessage(B, now) := flight[DrainMessage(B, now)] + copies]
  }

  lemma NoneSurvives(flight: multiset<Message>, now: nat)
    ensures WithRequests(flight, now, 0) == flight
  {
  }

  // ---------------------------------------------------------------- single steps

  lemma Asks(copies: nat)
    ensures Next(Calm(0), Decide(A, copies)) == World(0, Waiting(0), UNAWARE, WithRequests(multiset{}, 0, copies))
  {
    var r := Asking(0);
    assert r.actions[0].SendDrain? && r.actions[1..] == [];
  }

  lemma Repeats(k: nat, b: End, flight: multiset<Message>, copies: nat)
    requires 1 <= k <= 6
    ensures Next(World(RETRY * k, Waiting(k - 1), b, flight), Timer(A, copies))
            == World(RETRY * k, Waiting(k), b, WithRequests(flight, RETRY * k, copies))
  {
    var l, now := Waiting(k - 1).life.value, RETRY * k;
    var r := TickReaction(l.machine, now);
    assert r.actions[0].SendDrain?;
    RecordOne(l.(machine := r.machine, clock := now), now, r.actions);
  }

  lemma GivesUp(b: End, flight: multiset<Message>)
    ensures Next(World(CONFIRM_WAIT, Waiting(6), b, flight), Timer(A, 0)) == World(CONFIRM_WAIT, GaveUp(), b, flight)
  {
    var l := Waiting(6).life.value;
    var r := TickReaction(l.machine, CONFIRM_WAIT);
    assert r.actions == [MarkDraining];
    RecordOne(l.(machine := r.machine, clock := CONFIRM_WAIT), CONFIRM_WAIT, r.actions);
    assert [] + [CONFIRM_WAIT] == [CONFIRM_WAIT];
  }

  lemma Closes(b: End, flight: multiset<Message>)
    ensures Next(World(CONFIRM_WAIT + GRACE, GaveUp(), b, flight), Timer(A, 0))
            == World(CONFIRM_WAIT + GRACE, GaveUpAndClosed(), b, flight)
  {
    var l, now := GaveUp().life.value, CONFIRM_WAIT + GRACE;
    var r := TickReaction(l.machine, now);
    assert r.actions == [Close];
    RecordOne(l.(machine := r.machine, clock := now), now, r.actions);
    assert [] + [now] == [now];
  }

  lemma ToldCloses(t: nat, a: End, flight: multiset<Message>)
    ensures Next(World(t + GRACE, a, Told(t), flight), Timer(B, 0)) == World(t + GRACE, a, ToldAndClosed(t), flight)
  {
    var l, now := Told(t).life.value, t + GRACE;
    var r := TickReaction(l.machine, now);
    assert r.actions == [Close];
    RecordOne(l.(machine := r.machine, clock := now), now, r.actions);
    assert [] + [now] == [now];
  }

  /** A request reaches the other end, whose answers are all lost. */
  lemma Hears(now: nat, a: End, flight: multiset<Message>, sentAt: nat)
    requires DrainMessage(B, sentAt) in flight
    ensures Next(World(now, a, UNAWARE, flight), Deliver(DrainMessage(B, sentAt), 0))
            == World(now, a, Told(now), flight - multiset{DrainMessage(B, sentAt)})
  {
    var r, rest := Asked(now), flight - multiset{DrainMessage(B, sentAt)};
    assert r.actions[0].SendDrain? && r.actions[1..] == [MarkDraining] && [MarkDraining][1..] == [];
    assert rest[DrainMessage(A, now) := rest[DrainMessage(A, now)] + 0] == rest;
    assert [] + [now] == [now];
  }

  /** The asking end goes on asking, whatever happens to its requests, until `k` repetitions are sent. */
  lemma RepeatOnce(net: Network, before: seq<Step>, now: nat, k: nat, b: End, flight: multiset<Message>, copies: nat)
    returns (steps: seq<Step>)
    requires 1 <= k <= 6 && now <= RETRY * k && Reaches(net, before, World(now, Waiting(k - 1), b, flight))
    requires AwakeUntil(b, RETRY * k) && forall m | m in flight :: RETRY * k <= m.sentAt + net.most
    ensures Reaches(net, steps, World(RETRY * k, Waiting(k), b, WithRequests(flight, RETRY * k, copies)))
  {
    hide Reaches, Next, WithRequests;
    var w := World(now, Waiting(k - 1), b, flight);
    StepOn(net, before, w, Advance(RETRY * k));
    AdvanceMoves(w, RETRY * k);
    steps := before + [Advance(RETRY * k)];
    StepOn(net, steps, w.(now := RETRY * k), Timer(A, copies));
    Repeats(k, b, flight, copies);
    steps := steps + [Timer(A, copies)];
  }

  lemma AdvanceMoves(w: World, to: nat)
    ensures Next(w, Advance(to)) == w.(now := to)
  {
  }

  lemma {:induction false} RepeatUntil(net: Network, before: seq<Step>, now: nat, j: nat, k: nat, b: End,
                                       flight: multiset<Message>) returns (steps: seq<Step>)
    requires j <= k <= 6 && now <= RETRY * (j + 1) && Reaches(net, before, World(now, Waiting(j), b, flight))
    requires AwakeUntil(b, RETRY * k) && forall m | m in flight :: RETRY * k <= m.sentAt + net.most
    ensures Reaches(net, steps, World(if j == k then now else RETRY * k, Waiting(k), b, flight))
    decreases k
  {
    hide Reaches, WithRequests;
    steps := before;
    if j < k {
      AwakeEarlier(b, RETRY * (k - 1), RETRY * k);
      steps := RepeatUntil(net, before, now, j, k - 1, b, flight);
      steps := RepeatOnce(net, steps, if j == k - 1 then now else RETRY * (k - 1), k, b, flight, 0);
      NoneSurvives(flight, RETRY * k);
    }
  }

  lemma AwakeEarlier(e: End, s: nat, t: nat)
    requires AwakeUntil(e, t) && s <= t
    ensures AwakeUntil(e, s)
  {
  }

  /** From the moment it was last heard of, the asking end gives up. */
  lemma GiveUp(net: Network, before: seq<Step>, now: nat, b: End, flight: multiset<Message>) returns (steps: seq<Step>)
    requires now <= CONFIRM_WAIT && Reaches(net, before, World(now, Waiting(6), b, flight))
    requires AwakeUntil(b, CONFIRM_WAIT) && forall m | m in flight :: CONFIRM_WAIT <= m.sentAt + net.most
    ensures Reaches(net, steps, World(CONFIRM_WAIT, GaveUp(), b, flight))
  {
    hide Reaches, Next;
    var w := World(now, Waiting(6), b, flight);
    StepOn(net, before, w, Advance(CONFIRM_WAIT));
    AdvanceMoves(w, CONFIRM_WAIT);
    steps := before + [Advance(CONFIRM_WAIT)];
    StepOn(net, steps, w.(now := CONFIRM_WAIT), Timer(A, 0));
    GivesUp(b, flight);
    steps := steps + [Timer(A, 0)];
  }

  /** Time passes up to the moment the asking end closes, and it closes. */
  lemma Finish(net: Network, before: seq<Step>, now: nat, b: End, flight: multiset<Message>) returns (steps: seq<Step>)
    requires now <= CONFIRM_WAIT + GRACE && Reaches(net, before, World(now, GaveUp(), b, flight))
    requires AwakeUntil(b, CONFIRM_WAIT + GRACE)
    requires forall m | m in flight :: CONFIRM_WAIT + GRACE <= m.sentAt + net.most
    ensures Reaches(net, steps, World(CONFIRM_WAIT + GRACE, GaveUpAndClosed(), b, flight))
  {
    hide Reaches, Next;
    var w := World(now, GaveUp(), b, flight);
    StepOn(net, before, w, Advance(CONFIRM_WAIT + GRACE));
    AdvanceMoves(w, CONFIRM_WAIT + GRACE);
    steps := before + [Advance(CONFIRM_WAIT + GRACE)];
    StepOn(net, steps, w.(now := CONFIRM_WAIT + GRACE), Timer(A, 0));
    Closes(b, flight);
    steps := steps + [Timer(A, 0)];
  }

  lemma Send(net: Network, before: seq<Step>, w: World, s: Side) returns (steps: seq<Step>)
    requires Reaches(net, before, w) && MaySend(w.At(s), net)
    ensures Reaches(net, steps, w.(flight := w.flight + multiset{Data(Other(s), w.now)}))
  {
    hide Reaches;
    StepOn(net, before, w, SendData(s));
    steps := before + [SendData(s)];
  }

  lemma Ask(net: Network, copies: nat) returns (steps: seq<Step>)
    ensures Reaches(net, steps, World(0, Waiting(0), UNAWARE, WithRequests(multiset{}, 0, copies)))
  {
    hide Next, WithRequests;
    assert Reaches(net, [], Calm(0));
    StepOn(net, [], Calm(0), Decide(A, copies));
    Asks(copies);
    steps := [] + [Decide(A, copies)];
  }

  lemma Pass(net: Network, before: seq<Step>, w: World, to: nat) returns (steps: seq<Step>)
    requires Reaches(net, before, w) && Enabled(w, net, Advance(to))
    ensures Reaches(net, steps, w.(now := to))
  {
    hide Reaches, Next;
    StepOn(net, before, w, Advance(to));
    AdvanceMoves(w, to);
    steps := before + [Advance(to)];
  }

  lemma Hear(net: Network, before: seq<Step>, now: nat, a: End, flight: multiset<Message>, sentAt: nat)
    returns (steps: seq<Step>)
    requires Reaches(net, before, World(now, a, UNAWARE, flight))
    requires DrainMessage(B, sentAt) in flight && sentAt + net.least <= now
    ensures Reaches(net, steps, World(now, a, Told(now), flight - multiset{DrainMessage(B, sentAt)}))
  {
    hide Reaches, Next;
    StepOn(net, before, World(now, a, UNAWARE, flight), Deliver(DrainMessage(B, sentAt), 0));
    Hears(now, a, flight, sentAt);
    steps := before + [Deliver(DrainMessage(B, sentAt), 0)];
  }

  // ---------------------------------------------------------------- data that comes too late

  /** The first request is heard as early as possible, by an end whose answers are all lost. */
  lemma ToldEarly(net: Network) returns (steps: seq<Step>)
    requires net.least <= net.most && net.least <= LAST_REQUEST
    ensures Reaches(net, steps, World(CONFIRM_WAIT, Waiting(6), Told(net.least), multiset{}))
  {
    hide Reaches, Next, WithRequests;
    var k, request := net.least / RETRY, multiset{DrainMessage(B, 0)};
    steps := Ask(net, 1);
    OneRequest(0);
    steps := RepeatUntil(net, steps, 0, 0, k, UNAWARE, request);
    steps := Pass(net, steps, World(RETRY * k, Waiting(k), UNAWARE, request), net.least);
    steps := Hear(net, steps, net.least, Waiting(k), request, 0);
    assert request - multiset{DrainMessage(B, 0)} == multiset{};
    steps := RepeatUntil(net, steps, net.least, k, 6, Told(net.least), multiset{});
    var now := if k == 6 then net.least else RETRY * 6;
    steps := Pass(net, steps, World(now, Waiting(6), Told(net.least), multiset{}), CONFIRM_WAIT);
  }

  lemma OneRequest(now: nat)
    ensures WithRequests(multiset{}, now, 1) == multiset{DrainMessage(B, now)}
  {
  }

  /**
   Delays that differ by `GRACE - CONFIRM_WAIT` or more lose data: the asked end closes while what the asking end
   sent last, when it gave up waiting, is still on the way. With exactly that difference it arrives in that moment.
   */
  lemma WideSpreadLosesData(net: Network) returns (steps: seq<Step>, m: Message)
    requires net.least + (GRACE - CONFIRM_WAIT) <= net.most && net.least <= LAST_REQUEST
    ensures LateData(0, net, steps, m)
    ensures After(Calm(0), net, steps).now == m.sentAt + net.least + (GRACE - CONFIRM_WAIT)
  {
    hide Next, IsRun, After;
    var data := multiset{Data(B, CONFIRM_WAIT)};
    m := Data(B, CONFIRM_WAIT);
    steps := ToldEarly(net);
    steps := Send(net, steps, World(CONFIRM_WAIT, Waiting(6), Told(net.least), multiset{}), A);
    assert multiset{} + multiset{Data(B, CONFIRM_WAIT)} == multiset{Data(B, CONFIRM_WAIT)};
    steps := GiveUp(net, steps, CONFIRM_WAIT, Told(net.least), data);
    var w := World(CONFIRM_WAIT, GaveUp(), Told(net.least), data);
    steps := Pass(net, steps, w, net.least + GRACE);
    StepOn(net, steps, w.(now := net.least + GRACE), Timer(B, 0));
    ToldCloses(net.least, GaveUp(), data);
    steps := steps + [Timer(B, 0)];
  }

  /**
   An end that is alone goes on sending while it drains: whatever the delays, the other end may close with such data on
   the way.
   */
  lemma AloneLosesData(net: Network) returns (steps: seq<Step>, m: Message)
    requires net.alone && net.least <= net.most && net.least <= LAST_REQUEST
    ensures LateData(0, net, steps, m)
    ensures After(Calm(0), net, steps).now == m.sentAt
  {
    hide Next, IsRun, After;
    var end := net.least + GRACE;
    m := Data(B, end);
    steps := ToldEarly(net);
    steps := GiveUp(net, steps, CONFIRM_WAIT, Told(net.least), multiset{});
    var w := World(CONFIRM_WAIT, GaveUp(), Told(net.least), multiset{});
    steps := Pass(net, steps, w, end);
    StepOn(net, steps, w.(now := end), Timer(B, 0));
    ToldCloses(net.least, GaveUp(), multiset{});
    steps := steps + [Timer(B, 0)];
    steps := Send(net, steps, World(end, GaveUp(), ToldAndClosed(net.least), multiset{}), A);
  }

  /** It also sends after it has stopped, even if no message gets through at all. */
  lemma AloneSendsAfterStopping(net: Network) returns (steps: seq<Step>, m: Message)
    requires net.alone
    ensures SentAfterStopping(0, net, steps, m)
  {
    hide Next, IsRun, After;
    m := Data(B, CONFIRM_WAIT + 1);
    steps := Ask(net, 0);
    NoneSurvives(multiset{}, 0);
    steps := RepeatUntil(net, steps, 0, 0, 6, UNAWARE, multiset{});
    steps := GiveUp(net, steps, RETRY * 6, UNAWARE, multiset{});
    steps := Pass(net, steps, World(CONFIRM_WAIT, GaveUp(), UNAWARE, multiset{}), CONFIRM_WAIT + 1);
    steps := Send(net, steps, World(CONFIRM_WAIT + 1, GaveUp(), UNAWARE, multiset{}), A);
  }

  /** Only the last request survives, and is on its way as long as it can be. */
  lemma ToldLate(net: Network) returns (steps: seq<Step>)
    requires RETRY <= net.most
    ensures Reaches(net, steps, World(CONFIRM_WAIT, GaveUp(), UNAWARE, multiset{DrainMessage(B, LAST_REQUEST)}))
  {
    hide Reaches, Next, WithRequests;
    steps := Ask(net, 0);
    NoneSurvives(multiset{}, 0);
    steps := RepeatUntil(net, steps, 0, 0, 5, UNAWARE, multiset{});
    steps := RepeatOnce(net, steps, RETRY * 5, 6, UNAWARE, multiset{}, 1);
    OneRequest(LAST_REQUEST);
    steps := GiveUp(net, steps, LAST_REQUEST, UNAWARE, multiset{DrainMessage(B, LAST_REQUEST)});
  }

  /** The other end sends data and, in the same moment, hears the last request. */
  lemma SendAndHear(net: Network, before: seq<Step>, now: nat, a: End) returns (steps: seq<Step>)
    requires LAST_REQUEST + net.least <= now
    requires Reaches(net, before, World(now, a, UNAWARE, multiset{DrainMessage(B, LAST_REQUEST)}))
    ensures Reaches(net, steps, World(now, a, Told(now), multiset{Data(A, now)}))
  {
    hide Reaches, Next;
    var request := multiset{DrainMessage(B, LAST_REQUEST)};
    steps := Send(net, before, World(now, a, UNAWARE, request), B);
    steps := Hear(net, steps, now, a, request + multiset{Data(A, now)}, LAST_REQUEST);
    assert request + multiset{Data(A, now)} - request == multiset{Data(A, now)};
  }

  /**
   Delays so long that the last request is heard, and data sent before it arrives, only as the asking end closes lose
   data as well, however little they differ.
   */
  lemma LongDelaysLoseData(net: Network) returns (steps: seq<Step>, m: Message)
    requires net.least <= net.most && LAST_REQUEST + 2 * net.most >= CONFIRM_WAIT + GRACE
    ensures LateData(0, net, steps, m)
  {
    hide Next, IsRun, After;
    var heard, request := LAST_REQUEST + net.most, multiset{DrainMessage(B, LAST_REQUEST)};
    m := Data(A, heard);
    steps := ToldLate(net);
    if heard <= CONFIRM_WAIT + GRACE {
      steps := Pass(net, steps, World(CONFIRM_WAIT, GaveUp(), UNAWARE, request), heard);
      steps := SendAndHear(net, steps, heard, GaveUp());
      steps := Finish(net, steps, heard, Told(heard), multiset{m});
    } else {
      steps := Finish(net, steps, CONFIRM_WAIT, UNAWARE, request);
      steps := Pass(net, steps, World(CONFIRM_WAIT + GRACE, GaveUpAndClosed(), UNAWARE, request), heard);
      steps := SendAndHear(net, steps, heard, GaveUpAndClosed());
    }
  }

  // ---------------------------------------------------------------- the exact margin

  /** In no run from a calm state is data on its way to a closed end once the ends have agreed. */
  ghost predicate LosesNothing(net: Network) {
    forall start: nat, steps: seq<Step>, m: Message :: !LateData(start, net, steps, m)
  }

  /**
   The margin of a drain, exactly, for all delays: draining loses nothing if and only if no end is left without another
   active hole, delays differ by less than `GRACE - CONFIRM_WAIT`, and the last request, answered by data, is through
   before the asking end closes.
   */
  lemma DrainIsSafeExactly(net: Network)
    requires net.least <= net.most
    ensures
      LosesNothing(net)
      <==> && !net.alone
           && net.most - net.least < GRACE - CONFIRM_WAIT
           && LAST_REQUEST + 2 * net.most < CONFIRM_WAIT + GRACE
  {
    hide LateData;
    if LAST_REQUEST + 2 * net.most >= CONFIRM_WAIT + GRACE {
      var steps, m := LongDelaysLoseData(net);
    } else if net.most - net.least >= GRACE - CONFIRM_WAIT {
      var steps, m := WideSpreadLosesData(net);
    } else if net.alone {
      var steps, m := AloneLosesData(net);
    } else {
      forall start: nat, steps: seq<Step>, m: Message
        ensures !LateData(start, net, steps, m)
      {
        if LateData(start, net, steps, m) {
          LateDataNeedsMargin(start, net, steps, m);
        }
      }
    }
  }

  /** In no run is data on the way that was sent after its sender stopped, if and only if no end may be alone. */
  lemma StopsForGoodExactly(net: Network)
    ensures
      (forall start: nat, steps: seq<Step>, m: Message :: !SentAfterStopping(start, net, steps, m))
      <==> !net.alone
  {
    hide SentAfterStopping;
    if net.alone {
      var steps, m := AloneSendsAfterStopping(net);
    } else {
      forall start: nat, steps: seq<Step>, m: Message
        ensures !SentAfterStopping(start, net, steps, m)
      {
        NoDataAfterStopping(start, net, steps, m);
      }
    }
  }

  lemma LateDataNeedsMargin(start: nat, net: Network, steps: seq<Step>, m: Message)
    requires LateData(start, net, steps, m) && !net.alone
    ensures net.most >= net.least + (GRACE - CONFIRM_WAIT) || LAST_REQUEST + 2 * net.most >= CONFIRM_WAIT + GRACE
  {
    RunKeepsInv(Calm(start), net, steps);
    ClosedEndMissesNothing(After(Calm(start), net, steps), net, m);
  }

  /** Of delays of at most a second only the difference matters. */
  lemma WithinASecond(net: Network)
    requires net.least <= net.most <= 1000
    ensures LosesNothing(net) <==> !net.alone && net.most - net.least < GRACE - CONFIRM_WAIT
  {
    DrainIsSafeExactly(net);
  }

  /**
   Without the agreement the claim is false for all delays: if no Drain gets through, the asking end gives up after
   `CONFIRM_WAIT` and closes, while the other end, which knows of nothing, goes on sending.
   */
  lemma UnheardDrainLosesData(net: Network) returns (steps: seq<Step>, m: Message)
    ensures IsRun(Calm(0), net, steps)
    ensures
      var w := After(Calm(0), net, steps);
      && m in w.flight && m.Data? && IsClosed(w.At(m.to)) && !Agreed(w.At(Other(m.to)), w.At(m.to))
      && m.sentAt == w.now
  {
    hide Next, IsRun, After;
    var end := CONFIRM_WAIT + GRACE;
    m := Data(A, end);
    steps := Ask(net, 0);
    NoneSurvives(multiset{}, 0);
    steps := RepeatUntil(net, steps, 0, 0, 6, UNAWARE, multiset{});
    steps := GiveUp(net, steps, RETRY * 6, UNAWARE, multiset{});
    steps := Finish(net, steps, CONFIRM_WAIT, UNAWARE, multiset{});
    steps := Send(net, steps, World(end, GaveUpAndClosed(), UNAWARE, multiset{}), B);
  }
}
