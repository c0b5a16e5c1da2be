/**
 The adaptive wait of `reorder::Resequencer`: every 64 lateness samples the wait becomes the 99th
 percentile of the last 512 samples plus a quarter, within fixed limits.
 */
module Lateness {
  import opened Prelude

  const MIN_WAIT: nat := 3_000_000
  const MAX_WAIT: nat := 30_000_000
  const LATENESS_WINDOW: nat := 512
  const RECALC_EVERY: nat := 64

  type Position = n: nat | n < 512

  /** `lateness` is a ring once it is full: `pos` is the oldest sample, overwritten next. */
  datatype Pace = Pace(wait: nat, adaptive: bool, lateness: seq<nat>, pos: Position, sinceRecalc: nat)

  function FixedPace(wait: nat): Pace {
    Pace(wait, false, [], 0, 0)
  }

  function AdaptivePace(initial: nat): Pace {
    Pace(Clamp(initial, MIN_WAIT, MAX_WAIT), true, [], 0, 0)
  }

  // ---------------------------------------------------------------- sorting

  ghost predicate Sorted(s: seq<nat>) {
    forall i, j | 0 <= i < j < |s| :: s[i] <= s[j]
  }

  function InsertSorted(x: nat, s: seq<nat>): (r: seq<nat>)
    ensures |r| == |s| + 1
  {
    if s == [] then [x]
    else if x <= s[0] then [x] + s
    else [s[0]] + InsertSorted(x, s[1..])
  }

  /** Sorts the samples (`sort_unstable` of the standard library). */
  function Sort(s: seq<nat>): (r: seq<nat>)
    ensures |r| == |s|
  {
    if s == [] then [] else InsertSorted(s[0], Sort(s[1..]))
  }

  lemma {:induction false} InsertSortedKeeps(x: nat, s: seq<nat>)
    ensures multiset(InsertSorted(x, s)) == multiset(s) + multiset{x}
  {
    if s != [] && x > s[0] {
      InsertSortedKeeps(x, s[1..]);
      assert s == [s[0]] + s[1..];
    }
  }

  lemma {:induction false} InsertSortedSorts(x: nat, s: seq<nat>)
    requires Sorted(s)
    ensures Sorted(InsertSorted(x, s))
  {
    if s != [] && x > s[0] {
      var t := InsertSorted(x, s[1..]);
      InsertSortedSorts(x, s[1..]);
      InsertSortedKeeps(x, s[1..]);
      LeastOfAll(s[0], t, s[1..], x);
    }
  }

  lemma LeastOfAll(least: nat, t: seq<nat>, s: seq<nat>, x: nat)
    requires multiset(t) == multiset(s) + multiset{x}
    requires least <= x && forall i :: 0 <= i < |s| ==> least <= s[i]
    ensures forall i :: 0 <= i < |t| ==> least <= t[i]
  {
    forall i | 0 <= i < |t|
      ensures least <= t[i]
    {
      assert t[i] in multiset(t);
      assert t[i] == x || t[i] in s;
    }
  }

  lemma {:induction false} SortSorts(s: seq<nat>)
    ensures Sorted(Sort(s)) && multiset(Sort(s)) == multiset(s)
  {
    if s != [] {
      SortSorts(s[1..]);
      InsertSortedSorts(s[0], Sort(s[1..]));
      InsertSortedKeeps(s[0], Sort(s[1..]));
      assert s == [s[0]] + s[1..];
    }
  }

  /** The least element of a sorted sequence is determined by its contents. */
  lemma SameLeast(a: seq<nat>, b: seq<nat>)
    requires Sorted(a) && Sorted(b) && multiset(a) == multiset(b) && a != []
    ensures b != [] && a[0] == b[0]
  {
    assert a[0] in multiset(b);
    assert b[0] in multiset(a);
  }

  /** A multiset has one sorted arrangement. */
  lemma {:induction false} SortedIsUnique(a: seq<nat>, b: seq<nat>)
    requires Sorted(a) && Sorted(b) && multiset(a) == multiset(b)
    ensures a == b
    decreases |a|
  {
    if a == [] {
      assert |multiset(b)| == 0;
    } else {
      SameLeast(a, b);
      assert a == [a[0]] + a[1..] && b == [b[0]] + b[1..];
      assert multiset(a[1..]) == multiset(a) - multiset{a[0]};
      SortedIsUnique(a[1..], b[1..]);
    }
  }

  lemma SortDependsOnContents(a: seq<nat>, b: seq<nat>)
    requires multiset(a) == multiset(b)
    ensures Sort(a) == Sort(b)
  {
    SortSorts(a);
    SortSorts(b);
    SortedIsUnique(Sort(a), Sort(b));
  }

  // ---------------------------------------------------------------- the wait

  /**
   `((n - 1) * 0.99).round()`. The sample counts at which it is used are multiples of 64 up to 512,
   where `(n - 1) * 0.99` is never within 0.02 of a half, so binary rounding does not matter.
   */
  function P99Index(n: nat): (i: nat)
    requires n > 0
    ensures i < n
  {
    ((n - 1) * 99 + 50) / 100
  }

  function P99(samples: seq<nat>): nat
    requires samples != []
  {
    Sort(samples)[P99Index(|samples|)]
  }

  function WaitFor(samples: seq<nat>): nat
    requires samples != []
  {
    Clamp(P99(samples) + P99(samples) / 4, MIN_WAIT, MAX_WAIT)
  }

  function Remember(p: Pace, sample: nat): Pace {
    if |p.lateness| < LATENESS_WINDOW then p.(lateness := p.lateness + [sample])
    else p.(lateness := p.lateness[p.pos := sample], pos := (p.pos + 1) % LATENESS_WINDOW)
  }

  function RecordLateness(p: Pace, sample: nat): Pace {
    if !p.adaptive then p
    else
      var r := Remember(p, sample);
      if p.sinceRecalc + 1 >= RECALC_EVERY then r.(sinceRecalc := 0, wait := WaitFor(r.lateness))
      else r.(sinceRecalc := p.sinceRecalc + 1)
  }

  // ---------------------------------------------------------------- over a whole run

  /** The samples seen up to the last recalculation. */
  function Counted(samples: seq<nat>): seq<nat> {
    samples[..|samples| - |samples| % RECALC_EVERY]
  }

  /** The state of the wait after the lateness samples `samples`, starting from `initial`. */
  ghost predicate PaceAfter(p: Pace, initial: Pace, samples: seq<nat>) {
    && p.adaptive == initial.adaptive
    && (!p.adaptive ==> p == initial && samples == [])
    && (p.adaptive ==>
          && |p.lateness| == Min(|samples|, LATENESS_WINDOW)
          && (|p.lateness| < LATENESS_WINDOW ==> p.pos == 0)
          && p.pos <= |p.lateness|
          && p.lateness[p.pos..] + p.lateness[..p.pos] == LastOf(samples, LATENESS_WINDOW)
          && p.sinceRecalc == |samples| % RECALC_EVERY
          && p.wait == if Counted(samples) == [] then initial.wait
             else WaitFor(LastOf(Counted(samples), LATENESS_WINDOW)))
  }

  lemma RememberKeepsTheWindow(p: Pace, samples: seq<nat>, x: nat)
    requires |p.lateness| == Min(|samples|, LATENESS_WINDOW)
    requires |p.lateness| < LATENESS_WINDOW ==> p.pos == 0
    requires p.pos <= |p.lateness| && p.lateness[p.pos..] + p.lateness[..p.pos] == LastOf(samples, LATENESS_WINDOW)
    ensures
      var q := Remember(p, x);
      && |q.lateness| == Min(|samples| + 1, LATENESS_WINDOW)
      && (|q.lateness| < LATENESS_WINDOW ==> q.pos == 0)
      && q.pos <= |q.lateness|
      && q.lateness[q.pos..] + q.lateness[..q.pos] == LastOf(samples + [x], LATENESS_WINDOW)
  {
    var q, before := Remember(p, x), p.lateness[p.pos..] + p.lateness[..p.pos];
    var after := LastOf(samples + [x], LATENESS_WINDOW);
    if |p.lateness| < LATENESS_WINDOW {
      assert p.lateness == samples;
      assert q.lateness == samples + [x] == after;
    } else {
      assert after == before[1..] + [x];
      assert q.lateness[q.pos..] + q.lateness[..q.pos] == before[1..] + [x];
    }
  }

  /**
   Whatever lateness is measured, the wait is the one computed from the last (at most 512) samples
   at the last multiple of 64 samples.
   */
  lemma PaceFollowsSamples(p: Pace, initial: Pace, samples: seq<nat>, x: nat)
    requires PaceAfter(p, initial, samples)
    ensures PaceAfter(RecordLateness(p, x), initial, if p.adaptive then samples + [x] else [])
  {
    if p.adaptive {
      RememberKeepsTheWindow(p, samples, x);
      CountedStep(samples, x);
      if p.sinceRecalc + 1 >= RECALC_EVERY {
        var q := Remember(p, x);
        RotationSorts(q.lateness, q.pos, LastOf(samples + [x], LATENESS_WINDOW));
      }
    }
  }

  lemma RotationSorts(ring: seq<nat>, pos: nat, window: seq<nat>)
    requires pos <= |ring| && ring[pos..] + ring[..pos] == window && window != []
    ensures ring != [] && WaitFor(ring) == WaitFor(window)
  {
    assert ring == ring[..pos] + ring[pos..];
    assert multiset(ring) == multiset(window);
    SortDependsOnContents(ring, window);
  }

  lemma CountedStep(samples: seq<nat>, x: nat)
    ensures
      if |samples| % RECALC_EVERY + 1 == RECALC_EVERY
      then Counted(samples + [x]) == samples + [x] && (|samples| + 1) % RECALC_EVERY == 0
      else Counted(samples + [x]) == Counted(samples) && (|samples| + 1) % RECALC_EVERY == |samples| % RECALC_EVERY + 1
  {
  }

  /** In adaptive mode the wait never leaves its limits. */
  lemma WaitStaysInLimits(p: Pace, initial: nat, samples: seq<nat>)
    requires PaceAfter(p, AdaptivePace(initial), samples)
    ensures MIN_WAIT <= p.wait <= MAX_WAIT
  {
  }

  /** Recalculation happens at sample counts that are multiples of 64, and there the index of the
      99th percentile is the same for every rounding of the product within a hundredth. */
  lemma RoundingDoesNotMatter(n: nat)
    requires 0 < n <= LATENESS_WINDOW && n % RECALC_EVERY == 0
    ensures
      var x := (n - 1) as real * 0.99;
      P99Index(n) as real - 0.49 < x < P99Index(n) as real + 0.49
  {
    assert n == 64 || n == 128 || n == 192 || n == 256 || n == 320 || n == 384 || n == 448 || n == 512;
  }

  // ---------------------------------------------------------------- what the wait is, in terms of the samples

  function Below(s: seq<nat>, v: nat): nat {
    if s == [] then 0 else (if s[0] < v then 1 else 0) + Below(s[1..], v)
  }

  function Above(s: seq<nat>, v: nat): nat {
    if s == [] then 0 else (if s[0] > v then 1 else 0) + Above(s[1..], v)
  }

  lemma {:induction false} InsertSortedCounts(x: nat, s: seq<nat>, v: nat)
    ensures Below(InsertSorted(x, s), v) == (if x < v then 1 else 0) + Below(s, v)
    ensures Above(InsertSorted(x, s), v) == (if x > v then 1 else 0) + Above(s, v)
  {
    if s == [] {
      assert [x][1..] == [];
    } else if x <= s[0] {
      assert ([x] + s)[1..] == s;
    } else {
      var t := InsertSorted(x, s[1..]);
      InsertSortedCounts(x, s[1..], v);
      assert ([s[0]] + t)[1..] == t;
    }
  }

  lemma {:induction false} SortCounts(s: seq<nat>, v: nat)
    ensures Below(Sort(s), v) == Below(s, v) && Above(Sort(s), v) == Above(s, v)
  {
    if s != [] {
      SortCounts(s[1..], v);
      InsertSortedCounts(s[0], Sort(s[1..]), v);
    }
  }

  /** In a sorted sequence at most the `k` elements before are below element `k`, and only later ones above it. */
  lemma {:induction false} RankInSorted(s: seq<nat>, v: nat, k: nat)
    requires Sorted(s) && k <= |s|
    requires k < |s| ==> s[k] >= v
    ensures Below(s, v) <= k
  {
    if s != [] {
      if k == 0 {
        NoneBelow(s, v);
      } else {
        assert forall i, j | 0 <= i < j < |s[1..]| :: s[1..][i] == s[i + 1] && s[1..][j] == s[j + 1];
        RankInSorted(s[1..], v, k - 1);
      }
    }
  }

  lemma {:induction false} NoneBelow(s: seq<nat>, v: nat)
    requires forall i | 0 <= i < |s| :: s[i] >= v
    ensures Below(s, v) == 0
  {
    if s != [] {
      NoneBelow(s[1..], v);
    }
  }

  lemma {:induction false} OnlyLaterAbove(s: seq<nat>, v: nat, k: nat)
    requires Sorted(s) && k <= |s|
    requires forall i | 0 <= i < k :: s[i] <= v
    ensures Above(s, v) <= |s| - k
  {
    if s != [] {
      assert forall i, j | 0 <= i < j < |s[1..]| :: s[1..][i] == s[i + 1] && s[1..][j] == s[j + 1];
      OnlyLaterAbove(s[1..], v, if k == 0 then 0 else k - 1);
    }
  }

  /** `k` is the integer nearest to `0.99 * (n - 1)`. */
  ghost predicate NearestTo99(k: nat, n: nat) {
    k as real - 0.5 < 0.99 * (n as real - 1.0) < k as real + 0.5
  }

  /** One of the samples, with at most `k` below it and fewer than `n - k` above it. */
  ghost predicate IsRank(samples: seq<nat>, v: nat, k: nat) {
    v in samples && Below(samples, v) <= k && Above(samples, v) < |samples| - k
  }

  /** `wait` is the 99th percentile of the samples and a quarter of it more, kept between 3 and 30 milliseconds. */
  ghost predicate IsMeasured(wait: nat, samples: seq<nat>) {
    exists v, k: nat :: IsRank(samples, v, k) && NearestTo99(k, |samples|) && IsWithMargin(wait, v)
  }

  predicate IsWithMargin(wait: nat, v: nat) {
    && (v + v / 4 <= 3_000_000 ==> wait == 3_000_000)
    && (3_000_000 <= v + v / 4 <= 30_000_000 ==> wait == v + v / 4)
    && (v + v / 4 >= 30_000_000 ==> wait == 30_000_000)
  }

  lemma WaitIsMeasured(samples: seq<nat>)
    requires 0 < |samples| <= 512 && |samples| % 64 == 0
    ensures IsMeasured(WaitFor(samples), samples)
  {
    hide Sort;
    var n := |samples|;
    var sorted, k := Sort(samples), P99Index(n);
    var v := sorted[k];
    SortSorts(samples);
    assert v in multiset(sorted);
    SortCounts(samples, v);
    RankInSorted(sorted, v, k);
    OnlyLaterAbove(sorted, v, k + 1);
    assert IsRank(samples, v, k);
    RoundingDoesNotMatter(n);
    assert NearestTo99(k, n);
  }
}
