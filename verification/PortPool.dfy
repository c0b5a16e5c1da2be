/** The ports a server has given to holes, as a bitmap (port_pool.rs). */
module PortPools {
  import opened Prelude
  import opened Bits

  /** The port tried `i`-th when the search starts at `start`. */
  function Tried(start: nat, i: nat, span: nat): nat
    requires span > 0
  {
    (start + i) % span
  }

  class PortPool {
    const low: nat
    const span: nat
    const busy: array<bv32>
    /** The ports of the leases that have not been dropped. */
    ghost var held: set<nat>

    ghost predicate Valid()
      reads this, busy
    {
      && 0 < span && low + span <= 0x1_0000
      && busy.Length == (span + 31) / 32
      && (forall p :: p in held ==> InRange(p))
      && (forall b: nat :: b < 32 * busy.Length ==> (BitAt(busy[..], b) <==> low + b in held))
    }

    predicate InRange(port: nat) {
      low <= port < low + span
    }

    ghost function AllPorts(): set<nat> {
      set p: nat | p < low + span && InRange(p)
    }

    /** All ports from place `start` of the range on, around its end, up to `port`, are taken. */
    ghost predicate IsFirstFree(taken: set<nat>, start: nat, port: nat)
      requires span > 0
    {
      exists i: nat ::
        && i < span && port == low + Tried(start, i, span)
        && forall j :: 0 <= j < i ==> low + Tried(start, j, span) in taken
    }

    lemma FirstFreeFound(taken: set<nat>, start: nat, i: nat)
      requires i < span && forall j :: 0 <= j < i ==> low + Tried(start, j, span) in taken
      ensures IsFirstFree(taken, start, low + Tried(start, i, span))
    {
    }

    /** A range with its ends swapped counts as the one port `first`. */
    constructor (first: nat, last: nat)
      requires first < 0x1_0000 && last < 0x1_0000
      ensures Valid() && fresh(busy) && held == {}
      ensures low == first && span == Minus(last, first) + 1
    {
      low := first;
      span := Minus(last, first) + 1;
      busy := new bv32[(Minus(last, first) + 1 + 31) / 32](_ => 0);
      held := {};
      new;
      hide Has;
      forall b: nat | b < 32 * busy.Length
        ensures !BitAt(busy[..], b)
      {
        HasNone(b % 32);
      }
    }

    /** Takes a port nobody holds, searching from a random place; fails only when every port is held. */
    method Lease(seed: U32) returns (port: Option<nat>)
      requires Valid()
      modifies this, busy
      ensures Valid()
      ensures port.None? <==> old(held) == AllPorts()
      ensures port.None? ==> held == old(held)
      ensures port.Some? ==> port.value in AllPorts() - old(held) && held == old(held) + {port.value}
      ensures port.Some? ==> IsFirstFree(old(held), seed % span, port.value)
    {
      hide Has, IsOn, Tried, IsFirstFree;
      var start := seed % span;
      var i := 0;
      while i < span
        invariant 0 <= i <= span && Valid() && held == old(held)
        invariant forall j :: 0 <= j < i ==> low + Tried(start, j, span) in held
      {
        var index := Tried(start, i, span);
        TriedInRange(start, i, span);
        assert BitAt(busy[..], index) <==> low + index in held;
        IsOnIsHas(busy[index / 32], index % 32);
        if !IsOn(busy[index / 32], index % 32) {
          FirstFreeFound(held, start, i);
          Take(index);
          return Some(low + index);
        }
        i := i + 1;
      }
      AllTried(start);
      return None;
    }

    lemma AllTried(start: nat)
      requires Valid() && start < span
      requires forall j :: 0 <= j < span ==> low + Tried(start, j, span) in held
      ensures held == AllPorts()
    {
      hide Tried, BitAt;
      forall p | p in AllPorts()
        ensures p in held
      {
        EveryIndexIsTried(start, span, p - low);
      }
    }

    method Take(index: nat)
      requires Valid() && index < span && low + index !in held
      modifies this, busy
      ensures Valid() && held == old(held) + {low + index}
    {
      hide Has, Up, Union;
      ghost var was := busy[..];
      busy[index / 32] := Union(busy[index / 32], Up(1, index % 32));
      held := held + {low + index};
      forall b: nat | b < 32 * busy.Length
        ensures BitAt(busy[..], b) <==> BitAt(was, b) || b == index
      {
        BitSet(was, index, b);
        assert busy[..] == was[index / 32 := busy[index / 32]];
      }
    }

    /** Dropping a lease. */
    method Release(port: nat)
      requires Valid() && port in held
      modifies this, busy
      ensures Valid() && held == old(held) - {port}
    {
      hide Has, Without;
      ghost var was := busy[..];
      var index := port - low;
      busy[index / 32] := Without(busy[index / 32], index % 32);
      held := held - {port};
      forall b: nat | b < 32 * busy.Length
        ensures BitAt(busy[..], b) <==> BitAt(was, b) && b != index
      {
        BitCleared(was, index, b);
        assert busy[..] == was[index / 32 := busy[index / 32]];
      }
    }

    /** The number of leases, counted in the bitmap. */
    method InUse() returns (n: nat)
      requires Valid()
      ensures n == |held|
    {
      hide Has, CountOnes;
      n := 0;
      var k := 0;
      while k < busy.Length
        invariant 0 <= k <= busy.Length
        invariant n == |BitsBelow(busy[..], 32 * k)|
      {
        CountedWord(busy[..], k);
        n := n + CountOnes(busy[k]);
        k := k + 1;
      }
      BitsAreHeld(busy[..], low, held);
    }
  }

  lemma CountedWord(words: seq<bv32>, k: nat)
    requires k < |words|
    ensures |BitsBelow(words, 32 * (k + 1))| == |BitsBelow(words, 32 * k)| + CountOnes(words[k])
  {
    hide OnesBelow, BitsBelow;
    OnesAreBits(words, k, 32);
  }

  lemma BitsAreHeld(words: seq<bv32>, low: nat, held: set<nat>)
    requires forall p :: p in held ==> low <= p < low + 32 * |words|
    requires forall b: nat :: b < 32 * |words| ==> (BitAt(words, b) <==> low + b in held)
    ensures |BitsBelow(words, 32 * |words|)| == |held|
  {
    hide BitAt;
    var bits := BitsBelow(words, 32 * |words|);
    forall p | p in held
      ensures p in Lifted(bits, low)
    {
      assert BitAt(words, p - low);
      assert p - low in bits && p == PortOf(low, p - low);
    }
    assert held == Lifted(bits, low);
    LiftedSize(bits, low);
  }

  function PortOf(low: nat, bit: nat): nat {
    low + bit
  }

  /** The ports that the bits stand for. */
  ghost function Lifted(bits: set<nat>, low: nat): set<nat> {
    set b | b in bits :: PortOf(low, b)
  }

  lemma {:induction false} LiftedSize(bits: set<nat>, low: nat)
    ensures |Lifted(bits, low)| == |bits|
    decreases bits
  {
    if bits != {} {
      var b :| b in bits;
      LiftedSize(bits - {b}, low);
      assert Lifted(bits, low) == Lifted(bits - {b}, low) + {PortOf(low, b)};
    }
  }

  lemma TriedInRange(start: nat, i: nat, span: nat)
    requires span > 0
    ensures Tried(start, i, span) < span
  {
  }

  lemma EveryIndexIsTried(start: nat, span: nat, index: nat)
    requires start < span && index < span
    ensures exists j :: 0 <= j < span && Tried(start, j, span) == index
  {
    var j := if index >= start then index - start else index + span - start;
    assert Tried(start, j, span) == index;
  }
}
