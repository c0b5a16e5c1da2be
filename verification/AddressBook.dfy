/** Handing out addresses in the tunnel (addresses.rs). An address is its 32-bit number. */
module AddressBooks {
  import opened Prelude

  datatype Kind = Host | Phone

  lemma NotNegative(a: nat, b: nat)
    ensures 0 <= a * b
  {
  }

  /** The first address of the block that `address` lies in, when blocks have this size. */
  function BlockStart(address: nat, size: nat): nat
    requires size > 0
  {
    NotNegative(address / size, size);
    address / size * size
  }

  /** The server's address and the length of the subnet's prefix. */
  datatype Subnet = Subnet(server: U32, prefix: nat) {
    predicate Valid() {
      8 <= prefix <= 30
    }

    function Size(): (n: nat)
      requires Valid()
      ensures n > 0
    {
      Power2(32 - prefix)
    }

    function Network(): nat
      requires Valid()
    {
      BlockStart(server, Size())
    }

    function Broadcast(): nat
      requires Valid()
    {
      Network() + (Size() - 1)
    }

    predicate Contains(address: nat)
      requires Valid()
    {
      address / Size() == server / Size()
    }

    predicate Wide() {
      prefix < 24
    }

    function First(kind: Kind): nat
      requires Valid()
    {
      if Wide() && kind == Phone then Network() + 256 else Network() + 1
    }

    function Last(kind: Kind): int
      requires Valid()
    {
      if Wide() && kind == Host then Network() + 254 else Broadcast() - 1
    }

    predicate InPool(kind: Kind, address: nat)
      requires Valid()
    {
      First(kind) <= address <= Last(kind) && (Wide() ==> address % 256 != 0 && address % 256 != 255)
    }
  }

  lemma SizesOfSubnets(s: Subnet)
    requires s.Valid()
    ensures s.Size() >= 4
    ensures s.Wide() ==> s.Size() >= 512
  {
    hide Power2;
    if s.Wide() {
      PowersGrow(9, 32 - s.prefix);
      assert Power2(9) == 512 by { NinthPower(); }
    } else {
      PowersGrow(2, 32 - s.prefix);
      assert Power2(2) == 4 by { NinthPower(); }
    }
  }

  lemma NinthPower()
    ensures Power2(2) == 4 && Power2(9) == 512
  {
    assert Power2(5) == 32;
  }

  /** What is handed out lies in the subnet and is neither its own name nor its broadcast address. */
  lemma PoolIsInside(s: Subnet, kind: Kind, address: nat)
    requires s.Valid() && s.InPool(kind, address)
    ensures s.Contains(address) && s.Network() < address < s.Broadcast()
  {
    SizesOfSubnets(s);
    var size := s.Size();
    Quotient(address, size, s.server / size, address - s.Network());
  }

  // ---------------------------------------------------------------- one request

  /** The address may be given to a new key. */
  predicate Free(s: Subnet, given: map<string, nat>, kind: Kind, address: nat)
    requires s.Valid()
  {
    s.InPool(kind, address) && address != s.server && address !in given.Values
  }

  /** The answer to a request, and the book afterwards. */
  ghost predicate Answered(s: Subnet, before: map<string, nat>, key: string, kind: Kind,
                           result: Option<nat>, after: map<string, nat>)
    requires s.Valid()
  {
    if key in before && s.Contains(before[key]) then
      result == Some(before[key]) && after == before
    else if result.Some? then
      && Free(s, before, kind, result.value)
      && (forall a: nat :: a < result.value ==> !Free(s, before, kind, a))
      && after == before[key := result.value]
    else
      after == before && forall a: nat :: !Free(s, before, kind, a)
  }

  class AddressBook {
    const subnet: Subnet
    var given: map<string, nat>

    constructor (subnet: Subnet, loaded: map<string, nat>)
      requires subnet.Valid()
      ensures this.subnet == subnet && given == loaded
    {
      this.subnet := subnet;
      given := loaded;
    }

    method GetOrAssign(key: string, kind: Kind) returns (result: Option<nat>)
      requires subnet.Valid()
      modifies this
      ensures Answered(subnet, old(given), key, kind, result, given)
    {
      if key in given && subnet.Contains(given[key]) {
        return Some(given[key]);
      }
      var a := subnet.First(kind);
      while a <= subnet.Last(kind)
        invariant given == old(given)
        invariant forall b: nat :: b < a ==> !Free(subnet, given, kind, b)
        decreases subnet.Last(kind) - a
      {
        if Free(subnet, given, kind, a) {
          given := given[key := a];
          return Some(a);
        }
        a := a + 1;
      }
      return None;
    }
  }

  // ---------------------------------------------------------------- runs

  ghost predicate DistinctAddresses(given: map<string, nat>) {
    forall k, l :: k in given && l in given && k != l ==> given[k] != given[l]
  }

  datatype Request = Request(key: string, kind: Kind, result: Option<nat>)

  /** The books before, between and after the requests. */
  ghost predicate IsRun(s: Subnet, books: seq<map<string, nat>>, requests: seq<Request>)
    requires s.Valid()
  {
    && |books| == |requests| + 1
    && forall i :: 0 <= i < |requests| ==>
         Answered(s, books[i], requests[i].key, requests[i].kind, requests[i].result, books[i + 1])
  }

  lemma RequestKeepsDistinct(s: Subnet, before: map<string, nat>, key: string, kind: Kind, result: Option<nat>,
                             after: map<string, nat>)
    requires s.Valid() && Answered(s, before, key, kind, result, after) && DistinctAddresses(before)
    ensures DistinctAddresses(after)
  {
    if after != before {
      forall k | k in before
        ensures before[k] != result.value
      {
        assert before[k] in before.Values;
      }
    }
  }

  /** A key's address, once it is in the subnet, never changes. */
  lemma RequestKeepsAddresses(s: Subnet, before: map<string, nat>, key: string, kind: Kind, result: Option<nat>,
                              after: map<string, nat>, k: string)
    requires s.Valid() && Answered(s, before, key, kind, result, after)
    requires k in before && s.Contains(before[k])
    ensures k in after && after[k] == before[k]
  {
  }

  lemma {:induction false} KeptOverARun(s: Subnet, books: seq<map<string, nat>>, requests: seq<Request>,
                                        k: string, i: nat, j: nat)
    requires s.Valid() && IsRun(s, books, requests) && i <= j < |books|
    requires k in books[i] && s.Contains(books[i][k])
    ensures k in books[j] && books[j][k] == books[i][k]
    decreases j
  {
    if i < j {
      KeptOverARun(s, books, requests, k, i, j - 1);
      var r := requests[j - 1];
      RequestKeepsAddresses(s, books[j - 1], r.key, r.kind, r.result, books[j], k);
    }
  }

  lemma {:induction false} EveryBookIsDistinct(s: Subnet, books: seq<map<string, nat>>, requests: seq<Request>, j: nat)
    requires s.Valid() && IsRun(s, books, requests) && j < |books|
    requires DistinctAddresses(books[0])
    ensures DistinctAddresses(books[j])
  {
    if j > 0 {
      EveryBookIsDistinct(s, books, requests, j - 1);
      var r := requests[j - 1];
      RequestKeepsDistinct(s, books[j - 1], r.key, r.kind, r.result, books[j]);
    }
  }

  /** An answered request leaves its key with the answer, and the answer inside the subnet. */
  lemma AnswerIsRecorded(s: Subnet, before: map<string, nat>, key: string, kind: Kind, result: Option<nat>,
                         after: map<string, nat>)
    requires s.Valid() && Answered(s, before, key, kind, result, after) && result.Some?
    ensures key in after && after[key] == result.value && s.Contains(result.value)
  {
    hide Subnet.Contains, Subnet.InPool;
    if !(key in before && s.Contains(before[key])) {
      PoolIsInside(s, kind, result.value);
    }
  }

  /** A newly given address is nobody's yet, not the server's, and neither names the subnet nor all of it. */
  lemma NewAddressesAreUsable(s: Subnet, before: map<string, nat>, key: string, kind: Kind, result: Option<nat>,
                              after: map<string, nat>)
    requires s.Valid() && Answered(s, before, key, kind, result, after) && result.Some?
    requires !(key in before && s.Contains(before[key]))
    ensures s.Network() < result.value < s.Broadcast() && result.value != s.server && result.value !in before.Values
  {
    hide Subnet.Contains, Subnet.InPool, Subnet.Network, Subnet.Broadcast;
    PoolIsInside(s, kind, result.value);
  }

  /**
   Over any run from a book without clashes: the same key is always given the same address, and different
   keys are never given the same one.
   */
  lemma AnswersNeverClash(s: Subnet, books: seq<map<string, nat>>, requests: seq<Request>, i: nat, j: nat)
    requires s.Valid() && IsRun(s, books, requests) && i < j < |requests|
    requires DistinctAddresses(books[0])
    requires requests[i].result.Some? && requests[j].result.Some?
    ensures requests[i].result == requests[j].result <==> requests[i].key == requests[j].key
  {
    hide Answered;
    var a, b := requests[i], requests[j];
    AnswerIsRecorded(s, books[i], a.key, a.kind, a.result, books[i + 1]);
    AnswerIsRecorded(s, books[j], b.key, b.kind, b.result, books[j + 1]);
    KeptOverARun(s, books, requests, requests[i].key, i + 1, j + 1);
    EveryBookIsDistinct(s, books, requests, j + 1);
  }

  /** A request fails exactly when its key has no address in the subnet and every address of its pool is taken. */
  lemma FailsOnlyWhenFull(s: Subnet, before: map<string, nat>, key: string, kind: Kind, result: Option<nat>,
                          after: map<string, nat>)
    requires s.Valid() && Answered(s, before, key, kind, result, after)
    ensures result.None? <==>
            && !(key in before && s.Contains(before[key]))
            && forall a: nat :: s.InPool(kind, a) ==> a == s.server || a in before.Values
  {
    if result.None? {
      forall a: nat | s.InPool(kind, a)
        ensures a == s.server || a in before.Values
      {
        assert !Free(s, before, kind, a);
      }
    }
  }

  // ---------------------------------------------------------------- the pools

  /** An address is in the subnet exactly if it lies between its first and its last one. */
  lemma SubnetIsARange(s: Subnet, address: nat)
    requires s.Valid()
    ensures s.Contains(address) <==> s.Network() <= address <= s.Broadcast()
    ensures s.Broadcast() - s.Network() + 1 == s.Size() && s.Network() % s.Size() == 0
    ensures s.Contains(s.server)
  {
    hide Power2;
    var size := s.Size();
    Whole(s.server / size, size);
    if s.Network() <= address <= s.Broadcast() {
      Quotient(address, size, s.server / size, address - s.Network());
    }
    if s.Contains(address) {
      assert address == size * (address / size) + address % size;
    }
    assert s.server == size * (s.server / size) + s.server % size;
  }

  lemma Whole(q: nat, size: nat)
    requires size > 0
    ensures q * size >= 0 && q * size % size == 0
  {
    NotNegative(q, size);
    Quotient(q * size, size, q, 0);
    assert q * size == size * q;
  }

  /**
   In a subnet of at least 512 addresses the pools split what may be given: everything strictly inside whose last byte
   is neither 0 nor 255, the first 256 addresses for computers, the others for phones. In a smaller one both kinds
   share everything strictly inside.
   */
  lemma PoolsSplitTheSubnet(s: Subnet, a: nat)
    requires s.Valid()
    ensures
      var inside := s.Network() < a < s.Broadcast();
      if s.prefix < 24 then
        && (s.InPool(Host, a) <==> inside && a < s.Network() + 256 && a % 256 != 0 && a % 256 != 255)
        && (s.InPool(Phone, a) <==> inside && a >= s.Network() + 256 && a % 256 != 0 && a % 256 != 255)
      else
        (s.InPool(Host, a) <==> inside) && (s.InPool(Phone, a) <==> inside)
  {
    hide Power2;
    SizesOfSubnets(s);
    SubnetIsARange(s, a);
    if s.prefix < 24 {
      NetworkEndsInZero(s);
    }
  }

  lemma NetworkEndsInZero(s: Subnet)
    requires s.Valid() && s.prefix < 24
    ensures s.Network() % 256 == 0
  {
    hide Power2;
    PowerSum(8, 24 - s.prefix);
    assert Power2(8) == 256 by { EighthPower(); }
    var k := Power2(24 - s.prefix);
    assert s.Size() == 256 * k;
    var q := s.server / s.Size();
    assert s.Network() == q * (256 * k) == q * k * 256;
    NotNegative(q, k);
    Whole(q * k, 256);
  }

  lemma EighthPower()
    ensures Power2(8) == 256
  {
    assert Power2(4) == 16;
  }

  lemma {:induction false} PowerSum(a: nat, b: nat)
    ensures Power2(a + b) == Power2(a) * Power2(b)
  {
    if a > 0 {
      PowerSum(a - 1, b);
    }
  }
}
