/** IsPowerOfTwo and Align on 64-bit words, with the bitwise operators spelled out on numbers. */
module Bits {
  import opened Arithmetic

  const TWO64: nat := 0x1_0000_0000_0000_0000

  /** x & y. */
  function And(x: nat, y: nat): nat {
    if x == 0 || y == 0 then 0 else 2 * And(x / 2, y / 2) + (x % 2) * (y % 2)
  }

  /** ~x as a 64-bit word. */
  function Not(x: nat): nat
    requires x < TWO64
  {
    TWO64 - 1 - x
  }

  function Pow2(k: nat): (p: nat)
    ensures p >= 1
  {
    if k == 0 then 1 else 2 * Pow2(k - 1)
  }

  predicate IsPowerOfTwo(value: int) { value > 0 && And(value, value - 1) == 0 }

  lemma SquareOfBit(b: int)
    requires 0 <= b < 2
    ensures b * b == b
  {
    if b == 0 { assert b * b == 0; } else { assert b == 1; }
  }

  lemma {:induction false} AndSelf(x: nat)
    ensures And(x, x) == x
  {
    if x > 0 {
      AndSelf(x / 2);
      SquareOfBit(x % 2);
    }
  }

  lemma {:induction false} AndZeroMeansPower(v: nat) returns (k: nat)
    requires IsPowerOfTwo(v)
    ensures v == Pow2(k)
  {
    k := 0;
    if v > 1 {
      if v % 2 == 1 {
        assert (v - 1) / 2 == v / 2;
        AndSelf(v / 2);
        assert false;
      }
      assert (v - 1) / 2 == v / 2 - 1;
      var j := AndZeroMeansPower(v / 2);
      k := j + 1;
    }
  }

  lemma {:induction false} PowerMeansAndZero(k: nat)
    ensures IsPowerOfTwo(Pow2(k))
  {
    if k > 0 {
      PowerMeansAndZero(k - 1);
      var h := Pow2(k - 1);
      assert (2 * h) / 2 == h && (2 * h - 1) / 2 == h - 1;
    }
  }

  /** value & (value - 1) is zero exactly for powers of two. */
  lemma PowerOfTwoExactly(v: nat)
    ensures IsPowerOfTwo(v) <==> exists k: nat :: v == Pow2(k)
  {
    if IsPowerOfTwo(v) { var k := AndZeroMeansPower(v); }
    if k: nat :| v == Pow2(k) { PowerMeansAndZero(k); }
  }

  /** Align: round `size` up, in 64-bit arithmetic that wraps. */
  function Align(size: nat, alignment: nat): nat
    requires size < TWO64 && IsPowerOfTwo(alignment) && alignment < TWO64
  {
    And((size + alignment - 1) % TWO64, Not(alignment - 1))
  }

  lemma {:induction false} HalvedRemainder(x: nat, m: nat)
    requires m > 0
    ensures x % (2 * m) == 2 * (x / 2 % m) + x % 2
  {
    var q, r := x / 2 / m, x / 2 % m;
    assert x == 2 * (m * q + r) + x % 2 == 2 * m * q + (2 * r + x % 2);
    DivIs(x, q, 2 * r + x % 2, 2 * m);
  }

  lemma {:induction false} AndAllBits(x: nat, n: nat)
    requires x < Pow2(n)
    ensures And(x, Pow2(n) - 1) == x
  {
    if n > 0 {
      var h := Pow2(n - 1);
      AndAllBits(x / 2, n - 1);
      assert (2 * h - 1) / 2 == h - 1 && (2 * h - 1) % 2 == 1;
    }
  }

  /** Clearing the low k of n bits subtracts the remainder. */
  lemma {:induction false} AndHighBits(x: nat, n: nat, k: nat)
    requires k <= n && x < Pow2(n)
    ensures Pow2(k) <= Pow2(n) && And(x, Pow2(n) - Pow2(k)) == x - x % Pow2(k)
    decreases n
  {
    if k == 0 {
      AndAllBits(x, n);
    } else {
      AndHighBits(x / 2, n - 1, k - 1);
      HalvedRemainder(x, Pow2(k - 1));
      AndEven(x, Pow2(n - 1) - Pow2(k - 1));
    }
  }

  lemma AndEven(x: nat, y: nat)
    ensures And(x, 2 * y) == 2 * And(x / 2, y)
  {
    assert (2 * y) / 2 == y && (2 * y) % 2 == 0;
  }

  lemma {:induction false} SmallPower(k: nat)
    requires Pow2(k) < TWO64
    ensures k < 64 && Pow2(64) == TWO64
  {
    Pow2Of64();
    if k >= 64 { PowGrows(64, k); }
  }

  lemma Squared(k: nat, v: nat, w: nat)
    requires Pow2(k) == v && v * v == w
    ensures Pow2(k + k) == w
  {
    PowAdds(k, k);
  }

  lemma Pow2Of64()
    ensures Pow2(64) == TWO64
  {
    assert Pow2(4) == 16;
    Squared(4, 16, 0x100);
    Squared(8, 0x100, 0x1_0000);
    Squared(16, 0x1_0000, 0x1_0000_0000);
    Squared(32, 0x1_0000_0000, TWO64);
  }

  lemma {:induction false} PowAdds(a: nat, b: nat)
    ensures Pow2(a + b) == Pow2(a) * Pow2(b)
  {
    if a > 0 { PowAdds(a - 1, b); }
  }

  lemma {:induction false} PowGrows(a: nat, b: nat)
    requires a <= b
    ensures Pow2(a) <= Pow2(b)
  {
    if a < b { PowGrows(a, b - 1); }
  }

  lemma AlignValue(size: nat, alignment: nat)
    requires size < TWO64 && IsPowerOfTwo(alignment) && alignment < TWO64
    ensures var sum := (size + alignment - 1) % TWO64; Align(size, alignment) == sum - sum % alignment
  {
    var k := AndZeroMeansPower(alignment);
    SmallPower(k);
    AndHighBits((size + alignment - 1) % TWO64, 64, k);
  }

  lemma RoundedDown(sum: nat, a: nat)
    requires a > 0
    ensures (sum - sum % a) % a == 0
  {
    assert sum - sum % a == a * (sum / a);
    DivIs(sum - sum % a, sum / a, 0, a);
  }

  lemma RoundedUp(size: nat, a: nat)
    requires a > 0
    ensures var sum := size + a - 1; var r := sum - sum % a; r % a == 0 && size <= r < size + a
  {
    RoundedDown(size + a - 1, a);
  }

  /** Align gives the least multiple at or above `size` exactly when that multiple fits in a word; otherwise
      the sum wraps and the result is zero. */
  lemma AlignIsLeastMultiple(size: nat, alignment: nat)
    requires size < TWO64 && IsPowerOfTwo(alignment) && alignment < TWO64
    ensures size + alignment <= TWO64 ==>
              var r := Align(size, alignment); r % alignment == 0 && size <= r < size + alignment
    ensures size + alignment > TWO64 ==> Align(size, alignment) == 0
  {
    AlignValue(size, alignment);
    var sum := size + alignment - 1;
    if sum < TWO64 {
      DivIs(sum, 0, sum, TWO64);
      RoundedUp(size, alignment);
    } else {
      DivIs(sum, 1, sum - TWO64, TWO64);
      DivIs(sum - TWO64, 0, sum - TWO64, alignment);
    }
  }

  /** Any other multiple at or above `size` is at least as large. */
  lemma AlignIsLeast(size: nat, alignment: nat, multiple: nat)
    requires IsPowerOfTwo(alignment) && alignment < TWO64 && size + alignment <= TWO64
    requires size <= multiple && multiple % alignment == 0
    ensures Align(size, alignment) <= multiple
  {
    AlignIsLeastMultiple(size, alignment);
    LeastMultiple(size, alignment, Align(size, alignment), multiple);
  }

  lemma LeastMultiple(size: nat, a: nat, r: nat, multiple: nat)
    requires a > 0 && r % a == 0 && multiple % a == 0 && size <= r < size + a && size <= multiple
    ensures r <= multiple
  {
    assert r == a * (r / a) && multiple == a * (multiple / a);
    Multiples(a, multiple / a - r / a);
    assert a * (multiple / a - r / a) == multiple - r;
  }
}
