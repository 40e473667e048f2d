/** Bitwise AND on natural numbers, and the masks and tests that the sources
    build from it for power-of-two sizes. */
module Bits {
  import opened Common

  function Pow2(k: nat): (r: nat)
    ensures 0 < r
  {
    if k == 0 then 1 else 2 * Pow2(k - 1)
  }

  ghost predicate IsPow2(n: nat) {
    exists k: nat :: n == Pow2(k)
  }

  function And(a: nat, b: nat): (r: nat)
    ensures r <= a && r <= b
  {
    if a == 0 || b == 0 then 0
    else 2 * And(a / 2, b / 2) + (if a % 2 == 1 && b % 2 == 1 then 1 else 0)
  }

  lemma {:induction false} AndMask(x: nat, k: nat)
    ensures And(x, Pow2(k) - 1) == x % Pow2(k)
    decreases k
  {
    if k == 0 {
      assert Pow2(k) == 1;
    } else {
      var p := Pow2(k - 1);
      AndMask(x / 2, k - 1);
      AndMaskNext(x, p, Pow2(k));
    }
  }

  lemma AndMaskNext(x: nat, p: nat, q: nat)
    requires 0 < p && q == 2 * p && And(x / 2, p - 1) == (x / 2) % p
    ensures And(x, q - 1) == x % q
  {
    AndOdd(x, p - 1, q - 1);
    ModHalf(x, p);
  }

  lemma AndOdd(x: nat, m: nat, n: nat)
    requires n == 2 * m + 1
    ensures And(x, n) == 2 * And(x / 2, m) + x % 2
  {}

  lemma ModHalf(x: nat, p: nat)
    requires 0 < p
    ensures x % (2 * p) == 2 * ((x / 2) % p) + x % 2
  {
    var q, r := (x / 2) / p, (x / 2) % p;
    assert x / 2 == q * p + r;
    assert x == q * (2 * p) + (2 * r + x % 2);
    ModUnique(x, 2 * p, q, 2 * r + x % 2);
  }

  lemma ModUnique(x: int, m: nat, q: int, r: nat)
    requires r < m && x == q * m + r
    ensures x % m == r && x / m == q
  {
    var d := x / m - q;
    assert x == (x / m) * m + x % m;
    assert d * m == r - x % m;
    MulAtLeast(d, m);
    MulAtLeast(-d, m);
  }

  /** `x & (n - 1)` is `x mod n` when n is a power of two. */
  function LowBits(x: nat, n: nat): (r: nat)
    requires IsPow2(n)
    ensures r == x % n
  {
    ghost var k: nat :| n == Pow2(k);
    AndMask(x, k);
    And(x, n - 1)
  }

  /** ispow2 accepts exactly zero and the powers of two. */
  lemma {:induction false} PowerTest(v: nat)
    ensures v > 0 ==> (And(v - 1, v) == 0 <==> IsPow2(v))
  {
    if v == 1 {
      assert v == Pow2(0);
    } else if v > 1 && v % 2 == 0 {
      PowerTest(v / 2);
      assert (v - 1) / 2 == v / 2 - 1 && (v - 1) % 2 == 1;
      if IsPow2(v / 2) {
        var k: nat :| v / 2 == Pow2(k);
        assert v == Pow2(k + 1);
      }
      if IsPow2(v) {
        var k: nat :| v == Pow2(k);
        assert k > 0 && v / 2 == Pow2(k - 1);
      }
    } else if v > 1 {
      assert (v - 1) / 2 == v / 2;
      AndSelf(v / 2);
      OddNotPow2(v);
    }
  }

  /** The driver's test, in 32-bit unsigned arithmetic: one less than zero wraps. */
  function Ispow2(v: nat): bool {
    And((v + 0xFFFF_FFFF) % 0x1_0000_0000, v) == 0
  }

  /** It accepts zero as well. */
  lemma Ispow2Accepts(v: nat)
    requires v < 0x1_0000_0000
    ensures Ispow2(v) <==> v == 0 || IsPow2(v)
  {
    PowerTest(v);
    assert And(0xFFFF_FFFF, 0) == 0;
    assert v > 0 ==> (v + 0xFFFF_FFFF) % 0x1_0000_0000 == v - 1;
  }

  lemma OddNotPow2(v: nat)
    requires v > 1 && v % 2 == 1
    ensures !IsPow2(v)
  {
    forall k: nat ensures v != Pow2(k) {
      assert k > 0 ==> Pow2(k) == 2 * Pow2(k - 1);
    }
  }

  lemma AndSelf(a: nat)
    ensures And(a, a) == a
  {}

  lemma AndCommutes(a: nat, b: nat)
    ensures And(a, b) == And(b, a)
  {}

  /** AND with all ones of at least the operand's width changes nothing. */
  lemma AndOnes(x: nat, k: nat)
    requires x < Pow2(k)
    ensures And(Pow2(k) - 1, x) == x
  {
    AndMask(x, k);
    AndCommutes(x, Pow2(k) - 1);
    ModUnique(x, Pow2(k), 0, x);
  }
}
