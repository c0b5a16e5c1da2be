/**
 The receiving side as a whole (`multilink::control_loop`): packets may also come twice, by two paths; the
 duplicate window lets the first copy of each through to the order buffer.
 */
module Pipeline {
  import opened Prelude
  import opened Packets
  import opened Lateness
  import opened ReorderSpec
  import opened ReorderHistory
  import opened ReorderTheorems
  import opened Sequencers
  import opened EndToEnd
  import Dedup
  import DedupRuns

  /** The numbers on the arriving copies: packet `k` was given the number `first + k`. */
  function Numbers(copies: seq<nat>, first: int): (r: seq<int>)
    ensures |r| == |copies|
  {
    seq(|copies|, i requires 0 <= i < |copies| => first + copies[i])
  }

  /** Of the first `n` copies, those the window lets through. */
  ghost function Admitted(copies: seq<nat>, first: int, n: nat): seq<nat>
    requires n <= |copies|
  {
    if n == 0 then []
    else
      Admitted(copies, first, n - 1)
      + if DedupRuns.Passes(Numbers(copies, first), n - 1) then [copies[n - 1]] else []
  }

  /** No copy comes 4096 or more numbers behind the newest one before it. */
  ghost predicate NeverLate(copies: seq<nat>, first: int) {
    var pids := Numbers(copies, first);
    forall i :: 0 < i < |pids| ==> DedupRuns.Newest(pids[..i]) - pids[i] < Dedup.WINDOW_BITS
  }

  /** Every one of `n` packets comes at least once, and nothing else comes. */
  ghost predicate Covers(copies: seq<nat>, n: nat) {
    (forall k :: k in copies ==> k < n) && (forall k: nat :: k < n ==> k in copies)
  }

  /** Up to 2^31 packets in all, no copy can be too far ahead. */
  lemma NumbersArePaced(copies: seq<nat>, first: int, n: nat)
    requires (forall k :: k in copies ==> k < n) && n <= Dedup.HALF
    ensures DedupRuns.Paced(Numbers(copies, first))
  {
    hide DedupRuns.Newest;
    var pids := Numbers(copies, first);
    forall i | 0 < i < |pids|
      ensures -Dedup.HALF <= pids[i] - DedupRuns.Newest(pids[..i]) < Dedup.HALF
    {
      assert copies[i] in copies;
      var j :| 0 <= j < i && pids[..i][j] == DedupRuns.Newest(pids[..i]);
      assert copies[j] in copies;
    }
  }

  /** The first copy of a packet passes, and no other; only the pace of the numbers matters, not how many there are. */
  lemma FirstCopyPasses(copies: seq<nat>, first: int, i: nat)
    requires DedupRuns.Paced(Numbers(copies, first)) && NeverLate(copies, first) && i < |copies|
    ensures DedupRuns.Passes(Numbers(copies, first), i) <==> copies[i] !in copies[..i]
  {
    hide DedupRuns.Passes, DedupRuns.Newest;
    var pids := Numbers(copies, first);
    DedupRuns.EachNumberPassesOnce(pids, i);
    SameArrived(copies, first, i);
  }

  lemma SameArrived(copies: seq<nat>, first: int, i: nat)
    requires i < |copies|
    ensures Numbers(copies, first)[i] in Numbers(copies, first)[..i] <==> copies[i] in copies[..i]
  {
    var pids := Numbers(copies, first);
    if j :| 0 <= j < i && pids[..i][j] == pids[i] {
      assert copies[..i][j] == copies[i];
    }
    if j :| 0 <= j < i && copies[..i][j] == copies[i] {
      assert pids[..i][j] == pids[i];
    }
  }

  /** What passes are the first copies: every packet that came at all, once. */
  lemma {:induction false} FirstCopiesPass(copies: seq<nat>, first: int, upTo: nat)
    requires DedupRuns.Paced(Numbers(copies, first)) && NeverLate(copies, first) && upTo <= |copies|
    ensures Distinct(Admitted(copies, first, upTo))
    ensures forall k :: k in Admitted(copies, first, upTo) <==> k in copies[..upTo]
  {
    hide NeverLate, DedupRuns.Passes, DedupRuns.Paced;
    if upTo > 0 {
      FirstCopiesPass(copies, first, upTo - 1);
      FirstCopyPasses(copies, first, upTo - 1);
      assert copies[..upTo] == copies[..upTo - 1] + [copies[upTo - 1]];
    }
  }

  // ---------------------------------------------------------------- permutations

  function Picked<T>(s: seq<T>, order: seq<nat>): (r: seq<T>)
    requires forall i :: 0 <= i < |order| ==> order[i] < |s|
    ensures |r| == |order|
  {
    seq(|order|, i requires 0 <= i < |order| => s[order[i]])
  }

  /** Every position taken once, in any order, gives the same elements. */
  lemma {:induction false} PermutationKeepsAll<T>(s: seq<T>, order: seq<nat>)
    requires Distinct(order) && forall k: nat :: k in order <==> k < |s|
    requires forall i :: 0 <= i < |order| ==> order[i] < |s|
    ensures multiset(Picked(s, order)) == multiset(s)
    decreases |s|
  {
    NoRoom(order, |s|);
    if s != [] {
      var n := |s| - 1;
      assert n in order;
      var p :| 0 <= p < |order| && order[p] == n;
      WithoutLast(s, order, p);
      PermutationKeepsAll(s[..n], order[..p] + order[p + 1..]);
      PickedWithout(s, order, p);
      assert s == s[..n] + [s[n]];
    }
  }

  lemma PickedWithout<T>(s: seq<T>, order: seq<nat>, p: nat)
    requires s != [] && p < |order| && order[p] == |s| - 1
    requires forall i :: 0 <= i < |order| ==> order[i] < |s|
    requires var rest := order[..p] + order[p + 1..];
             forall i :: 0 <= i < |rest| ==> rest[i] < |s| - 1
    ensures var rest := order[..p] + order[p + 1..];
            multiset(Picked(s, order)) == multiset(Picked(s[..|s| - 1], rest)) + multiset{s[|s| - 1]}
  {
    var n := |s| - 1;
    var all, without := Picked(s, order), Picked(s[..n], order[..p] + order[p + 1..]);
    assert without == all[..p] + all[p + 1..];
    assert all == all[..p] + [s[n]] + all[p + 1..];
  }

  lemma NoRoom(order: seq<nat>, n: nat)
    requires forall i :: 0 <= i < |order| ==> order[i] < n
    ensures n == 0 ==> order == []
  {
    if order != [] {
      var k := order[0];
      assert k < n;
    }
  }

  lemma WithoutLast<T>(s: seq<T>, order: seq<nat>, p: nat)
    requires s != [] && Distinct(order) && forall k: nat :: k in order <==> k < |s|
    requires p < |order| && order[p] == |s| - 1
    ensures var rest := order[..p] + order[p + 1..];
            && Distinct(rest)
            && (forall k: nat :: k in rest <==> k < |s| - 1)
            && (forall i :: 0 <= i < |rest| ==> rest[i] < |s| - 1)
  {
    var rest := order[..p] + order[p + 1..];
    forall k: nat
      ensures k in rest <==> k < |s| - 1
    {
      if k < |s| - 1 {
        assert k in order;
        var j :| 0 <= j < |order| && order[j] == k;
        assert rest[if j < p then j else j - 1] == k;
      }
      if k in rest {
        var j :| 0 <= j < |rest| && rest[j] == k;
        assert order[if j < p then j else j + 1] == k;
        assert k in order;
      }
    }
    forall i | 0 <= i < |rest|
      ensures rest[i] < |s| - 1
    {
      assert rest[i] in rest;
    }
  }

  // ---------------------------------------------------------------- the whole way

  /** The first copies, as packets, in the order they came. */
  ghost function FirstCopies(sent: seq<Incoming>, copies: seq<nat>, first: int): (r: seq<Incoming>)
    requires forall k :: k in copies ==> k < |sent|
    requires DedupRuns.Paced(Numbers(copies, first)) && NeverLate(copies, first)
  {
    hide NeverLate, DedupRuns.Paced;
    FirstCopiesPass(copies, first, |copies|);
    var order := Admitted(copies, first, |copies|);
    assert copies[..|copies|] == copies;
    assert forall i :: 0 <= i < |order| ==> order[i] in order;
    Picked(sent, order)
  }

  lemma FirstCopiesAreAll(sent: seq<Incoming>, copies: seq<nat>, first: int)
    requires Covers(copies, |sent|) && DedupRuns.Paced(Numbers(copies, first)) && NeverLate(copies, first)
    ensures multiset(FirstCopies(sent, copies, first)) == multiset(sent)
  {
    hide NeverLate, DedupRuns.Paced;
    FirstCopiesPass(copies, first, |copies|);
    var order := Admitted(copies, first, |copies|);
    assert copies[..|copies|] == copies;
    assert forall i :: 0 <= i < |order| ==> order[i] in order;
    PermutationKeepsAll(sent, order);
  }

  ghost predicate AllOnTime(arrivals: seq<Incoming>, sent: seq<Incoming>) {
    forall i | 0 <= i < |arrivals| :: OnTime(arrivals[..i], arrivals[i], sent)
  }

  /**
   Copies may be repeated any number of times, by any path and in any order, starting from any number, and the numbers
   may go round the 32-bit circle any number of times: if every packet comes, no copy is 4096 late or 2^31 ahead of the
   newest and the first copies are on time for the order buffer, every flow bucket comes out exactly as it was read.
   `hole` in a datagram is the one its first copy came by.
   */
  lemma DuplicatesDoNotMatter(pace: Pace, inputs: seq<Datagram>, copies: seq<nat>, first: int, events: seq<Event>)
    requires pace == FixedPace(pace.wait) || pace == AdaptivePace(pace.wait)
    requires LegalRun(Start(pace), events) && NoneGivenUp(Start(pace), events)
    requires DedupRuns.Paced(Numbers(copies, first)) && NeverLate(copies, first)
    requires Covers(copies, |Sent(FROM_ZERO, inputs)|)
    requires Arrivals(events) == FirstCopies(Sent(FROM_ZERO, inputs), copies, first)
    requires AllOnTime(Arrivals(events), Sent(FROM_ZERO, inputs))
    ensures
      var h, sent := Run(Start(pace), events), Sent(FROM_ZERO, inputs);
      && HeldIn(h.state.sessions) == {}
      && multiset(PacketsOf(h.log)) == multiset(sent)
      && (forall b | 0 <= b < FLOW_BUCKETS ::
            Stream(PacketsOf(h.log), b) == Stream(sent, b)
            && Payloads(Stream(PacketsOf(h.log), b)) == TcpPayloads(inputs, b))
  {
    hide NeverLate, DedupRuns.Paced, Covers, FirstCopies, AllOnTime, LegalRun, NoneGivenUp, Run, Sent, Start;
    var sent := Sent(FROM_ZERO, inputs);
    FirstCopiesAreAll(sent, copies, first);
    OnTimeIsPermuted(Arrivals(events), sent);
    EveryBucketComesOutInOrder(pace, inputs, events);
  }

  lemma OnTimeIsPermuted(arrivals: seq<Incoming>, sent: seq<Incoming>)
    requires multiset(arrivals) == multiset(sent) && AllOnTime(arrivals, sent)
    ensures Permuted(arrivals, sent)
  {
    hide OnTime;
  }
}
