/** Whole runs of an opener with a window, fed with any packets in any order. */
module AuthRuns {
  import opened Prelude
  import opened Packets
  import opened Auth

  /** The window after the opener has been given these packets. */
  ghost function After(cipher: Cipher, packets: seq<seq<Byte>>): Replay {
    if packets == [] then
      NOTHING_SEEN
    else
      OpenStep(cipher, After(cipher, packets[..|packets| - 1]), packets[|packets| - 1]).0
  }

  /** What the opener answers to the `i`-th packet of the run. */
  ghost function Answer(cipher: Cipher, packets: seq<seq<Byte>>, i: nat): Option<nat>
    requires i < |packets|
  {
    OpenStep(cipher, After(cipher, packets[..i]), packets[i]).1
  }

  /** The `i`-th packet was let through under this counter. */
  ghost predicate Opened(cipher: Cipher, packets: seq<seq<Byte>>, i: nat, counter: nat)
    requires i < |packets|
  {
    Answer(cipher, packets, i).Some? && SignedCounter(packets[i]) == counter
  }

  /** Some packet of the run was let through under this counter. */
  ghost predicate Used(cipher: Cipher, packets: seq<seq<Byte>>, counter: nat) {
    exists i :: 0 <= i < |packets| && Opened(cipher, packets, i, counter)
  }

  /** The window holds the highest used counter and the used ones fewer than 64 behind it. */
  ghost predicate Knows(w: Replay, cipher: Cipher, packets: seq<seq<Byte>>) {
    && (w.top > 0 ==> Used(cipher, packets, w.top - 1))
    && (forall c: nat :: Used(cipher, packets, c) ==> c < w.top)
    && (forall c: nat :: c in w.remembered <==> Used(cipher, packets, c) && Near(w.top, c))
  }

  lemma UsedExtended(cipher: Cipher, packets: seq<seq<Byte>>, packet: seq<Byte>, counter: nat)
    ensures Used(cipher, packets + [packet], counter) <==>
            Used(cipher, packets, counter) || Opened(cipher, packets + [packet], |packets|, counter)
  {
    hide Answer;
    var longer := packets + [packet];
    forall i | 0 <= i < |packets|
      ensures Opened(cipher, longer, i, counter) <==> Opened(cipher, packets, i, counter)
    {
      AnswerOfPrefix(cipher, packets, packet, i);
    }
    if i :| 0 <= i < |packets| && Opened(cipher, packets, i, counter) {
      assert Opened(cipher, longer, i, counter);
    }
  }

  lemma AnswerOfPrefix(cipher: Cipher, packets: seq<seq<Byte>>, packet: seq<Byte>, i: nat)
    requires i < |packets|
    ensures Answer(cipher, packets + [packet], i) == Answer(cipher, packets, i)
  {
    assert (packets + [packet])[..i] == packets[..i];
  }

  lemma StepKeepsKnowing(cipher: Cipher, packets: seq<seq<Byte>>, packet: seq<Byte>)
    requires Knows(After(cipher, packets), cipher, packets)
    ensures Knows(After(cipher, packets + [packet]), cipher, packets + [packet])
  {
    hide Used, Genuine, SignedCounter;
    var longer := packets + [packet];
    assert longer[..|packets|] == packets;
    forall c: nat
      ensures Used(cipher, longer, c) <==>
              Used(cipher, packets, c) || Opened(cipher, longer, |packets|, c)
    {
      UsedExtended(cipher, packets, packet, c);
    }
  }

  lemma {:induction false} AfterKnows(cipher: Cipher, packets: seq<seq<Byte>>)
    ensures Knows(After(cipher, packets), cipher, packets)
  {
    if packets != [] {
      var n := |packets| - 1;
      AfterKnows(cipher, packets[..n]);
      StepKeepsKnowing(cipher, packets[..n], packets[n]);
      assert packets[..n] + [packets[n]] == packets;
    }
  }

  /**
   A packet is let through exactly when its tag is right, its counter was not let through before, and no
   counter 64 or more above it was.
   */
  lemma OpensExactlyNewPackets(cipher: Cipher, packets: seq<seq<Byte>>, i: nat)
    requires i < |packets|
    ensures Answer(cipher, packets, i).Some? <==>
            && Genuine(cipher, packets[i])
            && forall c: nat :: Used(cipher, packets[..i], c) ==>
                 c != SignedCounter(packets[i]) && c < SignedCounter(packets[i]) + WINDOW
    ensures Answer(cipher, packets, i).Some? ==>
              Answer(cipher, packets, i) == Some(|MessageOf(packets[i])|)
  {
    hide Genuine, SignedCounter, Used;
    AfterKnows(cipher, packets[..i]);
  }

  /** However packets are repeated, delayed or forged, no counter is ever let through twice. */
  lemma NoCounterTwice(cipher: Cipher, packets: seq<seq<Byte>>, i: nat, j: nat, counter: nat)
    requires i < j < |packets|
    requires Opened(cipher, packets, i, counter)
    ensures !Opened(cipher, packets, j, counter)
  {
    assert packets[..j][..i] == packets[..i];
    assert Opened(cipher, packets[..j], i, counter);
    assert Used(cipher, packets[..j], counter);
    OpensExactlyNewPackets(cipher, packets, j);
  }

  // ---------------------------------------------------------------- sealer and opener together

  lemma SealedIsGenuine(cipher: Cipher, counter: nat, message: seq<Byte>)
    requires counter <= MAX_COUNTER
    ensures Genuine(cipher, SealedPacket(cipher, counter, message))
    ensures SignedCounter(SealedPacket(cipher, counter, message)) == counter
    ensures MessageOf(SealedPacket(cipher, counter, message)) == message
  {
    CounterRoundTrip(counter);
    var packet := SealedPacket(cipher, counter, message);
    assert packet[TAG_LEN..AUTH_LEN] == LittleEndian(counter, COUNTER_LEN);
    assert packet[AUTH_LEN..] == message;
    assert packet[..TAG_LEN] == TagFor(cipher, counter, message);
  }

  /** What arrives when the packets of one sealer, numbered from `start`, are delivered in this order. */
  function Delivered(cipher: Cipher, start: nat, messages: seq<seq<Byte>>, order: seq<nat>): (r: seq<seq<Byte>>)
    requires forall j :: 0 <= j < |order| ==> order[j] < |messages|
    ensures |r| == |order|
  {
    seq(|order|, i requires 0 <= i < |order| => SealedPacket(cipher, start + order[i], messages[order[i]]))
  }

  lemma DeliveredAt(cipher: Cipher, start: nat, messages: seq<seq<Byte>>, order: seq<nat>, i: nat)
    requires forall j :: 0 <= j < |order| ==> order[j] < |messages|
    requires start + |messages| <= MAX_COUNTER && i < |order|
    ensures var packet := Delivered(cipher, start, messages, order)[i];
            && Genuine(cipher, packet)
            && SignedCounter(packet) == start + order[i]
            && MessageOf(packet) == messages[order[i]]
  {
    hide Genuine, SignedCounter, MessageOf, SealedPacket;
    SealedIsGenuine(cipher, start + order[i], messages[order[i]]);
  }

  lemma UsedWasDelivered(cipher: Cipher, start: nat, messages: seq<seq<Byte>>, order: seq<nat>, i: nat, c: nat)
    requires forall j :: 0 <= j < |order| ==> order[j] < |messages|
    requires start + |messages| <= MAX_COUNTER && i <= |order|
    requires Used(cipher, Delivered(cipher, start, messages, order)[..i], c)
    ensures exists j :: 0 <= j < i && c == start + order[j]
  {
    hide Genuine, SignedCounter, MessageOf, Answer, Delivered;
    var packets := Delivered(cipher, start, messages, order);
    var j :| 0 <= j < i && Opened(cipher, packets[..i], j, c);
    DeliveredAt(cipher, start, messages, order, j);
    assert packets[..i][j] == packets[j];
  }

  lemma SameAnswer(cipher: Cipher, packets: seq<seq<Byte>>, i: nat, j: nat)
    requires j < i <= |packets|
    ensures Answer(cipher, packets[..i], j) == Answer(cipher, packets, j)
  {
    assert packets[..i][..j] == packets[..j];
  }

  lemma FirstArrival(order: seq<nat>, i: nat, k: nat) returns (j: nat)
    requires i <= |order| && k in order[..i]
    ensures j < i && order[j] == k && k !in order[..j]
  {
    j :| 0 <= j < i && order[..i][j] == k;
    if k in order[..j] {
      j := FirstArrival(order, j, k);
    }
  }

  /** At its first arrival, with nothing sealed 64 or more later before it. */
  ghost predicate InTime(order: seq<nat>, i: nat)
    requires i < |order|
  {
    order[i] !in order[..i] && forall j :: 0 <= j < i ==> order[j] < order[i] + WINDOW
  }

  lemma InTimeOpens(cipher: Cipher, start: nat, messages: seq<seq<Byte>>, order: seq<nat>, i: nat)
    requires forall j :: 0 <= j < |order| ==> order[j] < |messages|
    requires start + |messages| <= MAX_COUNTER && i < |order| && InTime(order, i)
    ensures Answer(cipher, Delivered(cipher, start, messages, order), i) == Some(|messages[order[i]]|)
  {
    hide Genuine, SignedCounter, MessageOf, Answer, Delivered;
    var packets := Delivered(cipher, start, messages, order);
    DeliveredAt(cipher, start, messages, order, i);
    OpensExactlyNewPackets(cipher, packets, i);
    forall c: nat | Used(cipher, packets[..i], c)
      ensures c < start + order[i] + WINDOW && c != start + order[i]
    {
      UsedWasDelivered(cipher, start, messages, order, i, c);
      var j :| 0 <= j < i && c == start + order[j];
      assert order[..i][j] == order[j];
    }
  }

  lemma OpenedIsUsed(cipher: Cipher, start: nat, messages: seq<seq<Byte>>, order: seq<nat>, i: nat, j: nat)
    requires forall j :: 0 <= j < |order| ==> order[j] < |messages|
    requires start + |messages| <= MAX_COUNTER && j < i <= |order|
    requires Answer(cipher, Delivered(cipher, start, messages, order), j).Some?
    ensures Used(cipher, Delivered(cipher, start, messages, order)[..i], start + order[j])
  {
    hide Genuine, SignedCounter, MessageOf, Answer, Delivered;
    var packets := Delivered(cipher, start, messages, order);
    DeliveredAt(cipher, start, messages, order, j);
    SameAnswer(cipher, packets, i, j);
    assert packets[..i][j] == packets[j];
    assert Opened(cipher, packets[..i], j, start + order[j]);
  }

  /** The highest packet delivered so far was let through when it came. */
  lemma HighestIsUsed(cipher: Cipher, start: nat, messages: seq<seq<Byte>>, order: seq<nat>, i: nat, k: nat)
    requires forall j :: 0 <= j < |order| ==> order[j] < |messages|
    requires start + |messages| <= MAX_COUNTER && i <= |order|
    requires k in order[..i] && forall j :: 0 <= j < i ==> order[j] <= k
    ensures Used(cipher, Delivered(cipher, start, messages, order)[..i], start + k)
  {
    hide Answer, Delivered, Used;
    var j := FirstArrival(order, i, k);
    InTimeOpens(cipher, start, messages, order, j);
    OpenedIsUsed(cipher, start, messages, order, i, j);
  }

  lemma {:induction false} HighestExists(order: seq<nat>) returns (k: nat)
    requires order != []
    ensures k in order && forall j :: 0 <= j < |order| ==> order[j] <= k
  {
    var n := |order| - 1;
    k := order[n];
    if n > 0 {
      var before := HighestExists(order[..n]);
      assert before in order;
      k := if order[n] > before then order[n] else before;
      assert forall j :: 0 <= j < n ==> order[..n][j] == order[j];
    }
  }

  lemma OvertakenIsRefused(cipher: Cipher, start: nat, messages: seq<seq<Byte>>, order: seq<nat>, i: nat, j: nat)
    requires forall j :: 0 <= j < |order| ==> order[j] < |messages|
    requires start + |messages| <= MAX_COUNTER && j < i < |order| && order[j] >= order[i] + WINDOW
    ensures Answer(cipher, Delivered(cipher, start, messages, order), i).None?
  {
    hide Genuine, SignedCounter, MessageOf, Answer, Delivered, Used;
    var k := HighestExists(order[..i]);
    assert order[..i][j] == order[j];
    assert forall l :: 0 <= l < i ==> order[..i][l] == order[l];
    HighestIsUsed(cipher, start, messages, order, i, k);
    DeliveredAt(cipher, start, messages, order, i);
    OpensExactlyNewPackets(cipher, Delivered(cipher, start, messages, order), i);
  }

  lemma RepeatedIsRefused(cipher: Cipher, start: nat, messages: seq<seq<Byte>>, order: seq<nat>, i: nat)
    requires forall j :: 0 <= j < |order| ==> order[j] < |messages|
    requires start + |messages| <= MAX_COUNTER && i < |order| && order[i] in order[..i]
    ensures Answer(cipher, Delivered(cipher, start, messages, order), i).None?
  {
    hide Genuine, SignedCounter, MessageOf, Answer, Delivered, Used;
    var j := FirstArrival(order, i, order[i]);
    if l :| 0 <= l < j && order[l] >= order[j] + WINDOW {
      OvertakenIsRefused(cipher, start, messages, order, i, l);
    } else {
      InTimeOpens(cipher, start, messages, order, j);
      OpenedIsUsed(cipher, start, messages, order, i, j);
      DeliveredAt(cipher, start, messages, order, i);
      OpensExactlyNewPackets(cipher, Delivered(cipher, start, messages, order), i);
    }
  }

  /**
   Packets of one sealer, delivered in any order, with any repetitions and losses: one is let through, with its own
   message, if and only if it comes for the first time and none sealed 64 or more later came before it.
   */
  lemma OpensExactlyInTime(cipher: Cipher, start: nat, messages: seq<seq<Byte>>, order: seq<nat>, i: nat)
    requires forall j :: 0 <= j < |order| ==> order[j] < |messages|
    requires start + |messages| <= MAX_COUNTER && i < |order|
    ensures var packets := Delivered(cipher, start, messages, order);
            Answer(cipher, packets, i) == if InTime(order, i) then Some(|messages[order[i]]|) else None
  {
    hide Answer, Delivered;
    if InTime(order, i) {
      InTimeOpens(cipher, start, messages, order, i);
    } else if order[i] in order[..i] {
      RepeatedIsRefused(cipher, start, messages, order, i);
    } else {
      var j :| 0 <= j < i && order[j] >= order[i] + WINDOW;
      OvertakenIsRefused(cipher, start, messages, order, i, j);
    }
  }

  // ---------------------------------------------------------------- in positions

  /** No packet is delivered more than `d` places before or after the one it was sealed at. */
  predicate DisplacedBy(order: seq<nat>, d: nat) {
    forall i :: 0 <= i < |order| ==> order[i] <= i + d && i <= order[i] + d
  }

  /** Packets displaced by at most 32 places, half the window, are all let through at their first arrival. */
  lemma HalfTheWindowIsSafe(cipher: Cipher, start: nat, messages: seq<seq<Byte>>, order: seq<nat>, i: nat)
    requires forall j :: 0 <= j < |order| ==> order[j] < |messages|
    requires start + |messages| <= MAX_COUNTER && i < |order|
    requires DisplacedBy(order, WINDOW / 2)
    ensures var packets := Delivered(cipher, start, messages, order);
            Answer(cipher, packets, i) == if order[i] in order[..i] then None else Some(|messages[order[i]]|)
  {
    hide Answer, Delivered;
    OpensExactlyInTime(cipher, start, messages, order, i);
  }

  /** A permutation of 66 packets: 65 comes early, 0 comes right after it, the others move by one. */
  function EarlyAndLate(): (order: seq<nat>)
    ensures |order| == WINDOW + 2
  {
    seq(WINDOW + 2, p requires 0 <= p < WINDOW + 2 =>
      if p < 32 then p + 1 else if p == 32 then 65 else if p == 33 then 0 else p - 1)
  }

  /** One place more and it is no longer so: here, with displacements of at most 33 places, packet 0 is refused. */
  lemma OnePlaceMoreIsTooMuch(cipher: Cipher, start: nat, messages: seq<seq<Byte>>)
    requires |messages| == WINDOW + 2 && start + |messages| <= MAX_COUNTER
    ensures DisplacedBy(EarlyAndLate(), WINDOW / 2 + 1)
    ensures forall k: nat :: k < WINDOW + 2 ==> k in EarlyAndLate()
    ensures Answer(cipher, Delivered(cipher, start, messages, EarlyAndLate()), 33).None?
  {
    hide Answer, Delivered;
    var order := EarlyAndLate();
    forall k: nat | k < WINDOW + 2
      ensures k in order
    {
      var p := if k == 0 then 33 else if k <= 32 then k - 1 else if k == 65 then 32 else k + 1;
      assert order[p] == k;
    }
    OvertakenIsRefused(cipher, start, messages, order, 33, 32);
  }
}
