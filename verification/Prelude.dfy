/** Small value types and arithmetic shared by the models. */
module Prelude {

  datatype Option<+T> = None | Some(value: T)

  const TWO_32: nat := 0x1_0000_0000
  const TWO_64: nat := 0x1_0000_0000_0000_0000

  /** Unsigned machine integers, as far as their width matters. */
  type U32 = n: nat | n < TWO_32
  type U64 = n: nat | n < TWO_64

  function Min(a: int, b: int): int {
    if a <= b then a else b
  }

  function Max(a: int, b: int): int {
    if a >= b then a else b
  }

  /** Subtraction that stops at zero, as `saturating_sub` and the difference of two instants do. */
  function Minus(a: nat, b: nat): nat {
    if a >= b then a - b else 0
  }

  function Clamp(x: nat, low: nat, high: nat): nat {
    Min(Max(x, low), high)
  }

  ghost predicate Distinct<T>(s: seq<T>) {
    forall i, j | 0 <= i < j < |s| :: s[i] != s[j]
  }

  /** The last `n` elements, or all if there are no more. */
  function LastOf<T>(s: seq<T>, n: nat): seq<T> {
    if |s| <= n then s else s[|s| - n..]
  }

  function Power2(n: nat): (p: nat)
    ensures p > 0
  {
    if n == 0 then 1 else 2 * Power2(n - 1)
  }

  lemma {:induction false} PowersGrow(a: nat, b: nat)
    requires a <= b
    ensures Power2(a) <= Power2(b)
    decreases b
  {
    if a < b {
      PowersGrow(a, b - 1);
    }
  }

  lemma Multiple(d: int, n: nat)
    requires n > 0
    ensures d >= 1 ==> d * n >= n
    ensures d < 0 ==> d * n + n <= 0
  {
  }

  /** A quotient is known by the remainder it leaves. */
  lemma Quotient(k: nat, n: nat, q: int, r: nat)
    requires 0 <= r < n && k == q * n + r
    ensures k / n == q
  {
    var d := k / n - q;
    assert k == n * (k / n) + k % n;
    assert d * n == r - k % n;
    Multiple(d, n);
  }

  lemma {:induction false} SubsetIsSmaller<T>(a: set<T>, b: set<T>)
    requires a <= b
    ensures |a| <= |b|
    decreases b
  {
    if a != {} {
      var x :| x in a;
      SubsetIsSmaller(a - {x}, b - {x});
    }
  }
}
