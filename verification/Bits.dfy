/** Powers of two and the bitwise operators on naturals, with the arithmetic they perform. */
module Bits {

  function Pow2(n: nat): (p: nat)
    ensures p > 0
  {
    if n == 0 then 1 else 2 * Pow2(n - 1)
  }

  /** `x << k`, before any truncation. */
  function Shl(x: nat, k: nat): nat {
    x * Pow2(k)
  }

  function Quotient(x: nat, d: nat): nat
    requires d > 0
  {
    x / d
  }

  function Remainder(x: nat, d: nat): nat
    requires d > 0
  {
    x % d
  }

  /** `x >>> k` */
  function Shr(x: nat, k: nat): nat {
    Quotient(x, Pow2(k))
  }

  /** `1 << k` on 32-bit integers, for the counts where the sign bit stays clear. */
  function OneShl(k: nat): (r: nat)
    requires k <= 30
  {
    Pow2(k)
  }

  lemma {:induction false} Pow2Add(a: nat, b: nat)
    ensures Pow2(a + b) == Pow2(a) * Pow2(b)
  {
    if a > 0 {
      Pow2Add(a - 1, b);
    }
  }

  lemma {:induction false} Pow2Monotone(a: nat, b: nat)
    requires a <= b
    ensures Pow2(a) <= Pow2(b)
    decreases b
  {
    if a < b {
      Pow2Monotone(a, b - 1);
    }
  }

  /** Bit `i` of `x`, counted from the least significant one. */
  predicate Bit(x: nat, i: nat) {
    if i == 0 then x % 2 == 1 else Bit(x / 2, i - 1)
  }

  function BitOr(a: nat, b: nat): nat
    decreases a + b
  {
    if a == 0 && b == 0 then 0
    else 2 * BitOr(a / 2, b / 2) + (if a % 2 == 1 || b % 2 == 1 then 1 else 0)
  }

  function BitAnd(a: nat, b: nat): nat {
    if a == 0 || b == 0 then 0
    else 2 * BitAnd(a / 2, b / 2) + (if a % 2 == 1 && b % 2 == 1 then 1 else 0)
  }

  lemma {:induction false} OrBit(a: nat, b: nat, i: nat)
    ensures Bit(BitOr(a, b), i) == (Bit(a, i) || Bit(b, i))
    decreases i
  {
    if a == 0 && b == 0 {
      ZeroBit(i);
    } else if i > 0 {
      OrBit(a / 2, b / 2, i - 1);
    }
  }

  lemma {:induction false} AndBit(a: nat, b: nat, i: nat)
    ensures Bit(BitAnd(a, b), i) == (Bit(a, i) && Bit(b, i))
    decreases i
  {
    if a == 0 || b == 0 {
      ZeroBit(i);
    } else if i > 0 {
      AndBit(a / 2, b / 2, i - 1);
    }
  }

  lemma {:induction false} ZeroBit(i: nat)
    ensures !Bit(0, i)
  {
    if i > 0 {
      ZeroBit(i - 1);
    }
  }

  /** Two numbers below 2^n with the same n low bits are equal. */
  lemma {:induction false} BitsDetermine(x: nat, y: nat, n: nat)
    requires x < Pow2(n) && y < Pow2(n)
    requires forall i :: 0 <= i < n ==> Bit(x, i) == Bit(y, i)
    ensures x == y
  {
    if n > 0 {
      assert Bit(x, 0) == Bit(y, 0);
      forall i | 0 <= i < n - 1 ensures Bit(x / 2, i) == Bit(y / 2, i) {
        assert Bit(x, i + 1) == Bit(y, i + 1);
      }
      BitsDetermine(x / 2, y / 2, n - 1);
    }
  }

  lemma {:induction false} HighBitsZero(x: nat, n: nat, i: nat)
    requires x < Pow2(n) && n <= i
    ensures !Bit(x, i)
  {
    if n == 0 {
      ZeroBit(i);
    } else {
      HighBitsZero(x / 2, n - 1, i - 1);
    }
  }

  lemma {:induction false} ShiftLeftBit(x: nat, k: nat, i: nat)
    ensures Bit(x * Pow2(k), i) == (i >= k && Bit(x, i - k))
  {
    if k > 0 {
      assert x * Pow2(k) == 2 * (x * Pow2(k - 1));
      if i > 0 {
        ShiftLeftBit(x, k - 1, i - 1);
      }
    }
  }

  lemma {:induction false} ShiftRightBit(x: nat, k: nat, i: nat)
    ensures Bit(Quotient(x, Pow2(k)), i) == Bit(x, i + k)
  {
    if k > 0 {
      HalveFirst(x, k);
      ShiftRightBit(x / 2, k - 1, i);
    }
  }

  lemma {:induction false} ModBit(x: nat, k: nat, i: nat)
    ensures Bit(Remainder(x, Pow2(k)), i) == (i < k && Bit(x, i))
  {
    if k == 0 {
      ZeroBit(i);
    } else {
      HalveFirst(x, k);
      hide Pow2;
      BitOfDouble(Remainder(x / 2, Pow2(k - 1)), x % 2, i);
      if i > 0 {
        ModBit(x / 2, k - 1, i - 1);
      }
    }
  }

  lemma BitOfDouble(y: nat, b: nat, i: nat)
    requires b < 2
    ensures Bit(2 * y + b, i) == if i == 0 then b == 1 else Bit(y, i - 1)
  {
    DivModUnique(2 * y + b, 2, y, b);
  }

  /** Removing the low bit first: quotient and remainder by 2^k. */
  lemma HalveFirst(x: nat, k: nat)
    requires k > 0
    ensures x / Pow2(k) == x / 2 / Pow2(k - 1)
    ensures x % Pow2(k) == 2 * (x / 2 % Pow2(k - 1)) + x % 2
  {
    var p := Pow2(k - 1);
    var q := x / 2 / p;
    var r := x / 2 % p;
    assert x / 2 == p * q + r;
    assert p * q * 2 == (2 * p) * q;
    assert x == (2 * p) * q + (2 * r + x % 2);
    DivModUnique(x, 2 * p, q, 2 * r + x % 2);
  }

  lemma MultipleFarFromZero(d: int, k: int)
    requires d > 0
    ensures k >= 1 ==> d * k >= d
    ensures k <= -1 ==> d * k <= -d
  {
  }

  /** A quotient and a remainder below the divisor are the only ones. */
  lemma DivModUnique(x: nat, d: nat, q: nat, r: nat)
    requires d > 0 && r < d && x == d * q + r
    ensures x / d == q && x % d == r
  {
    var q1, r1 := x / d, x % d;
    assert x == d * q1 + r1;
    MultipleFarFromZero(d, q - q1);
    assert d * (q - q1) == d * q - d * q1;
  }

  lemma ProductCancels(c: nat, a: nat, b: nat)
    requires c > 0
    ensures c * a < c * b <==> a < b
    ensures c * a == c * b <==> a == b
  {
    if a < b {
      assert c * (b - a) > 0;
    } else if a > b {
      assert c * (a - b) > 0;
    }
  }

  lemma DivBelow(x: nat, q: nat, d: nat)
    requires d > 0 && x < q * d
    ensures x / d < q
  {
    var r := x / d;
    assert x == d * r + x % d;
    ProductCancels(d, r, q);
  }

  /** A multiple of the divisor does not change the remainder. */
  lemma ModAddMultiple(d: nat, q: nat, x: nat)
    requires d > 0
    ensures (d * q + x) % d == x % d
  {
    var q1 := x / d;
    assert x == d * q1 + x % d;
    assert d * q + x == d * (q + q1) + x % d;
    DivModUnique(d * q + x, d, q + q1, x % d);
  }

  /** OR of a shifted value with a value that fits below the shift is their sum. */
  lemma {:induction false} OrDisjoint(a: nat, k: nat, b: nat)
    requires b < Pow2(k)
    ensures BitOr(a * Pow2(k), b) == a * Pow2(k) + b
    ensures BitOr(b, a * Pow2(k)) == a * Pow2(k) + b
  {
    if k == 0 {
      OrZero(a);
    } else {
      assert a * Pow2(k) == 2 * (a * Pow2(k - 1));
      OrDisjoint(a, k - 1, b / 2);
    }
  }

  lemma {:induction false} OrZero(a: nat)
    ensures BitOr(a, 0) == a && BitOr(0, a) == a
  {
    if a > 0 {
      OrZero(a / 2);
    }
  }

  lemma {:induction false} AndCommutes(a: nat, b: nat)
    ensures BitAnd(a, b) == BitAnd(b, a)
  {
    if a > 0 && b > 0 {
      AndCommutes(a / 2, b / 2);
    }
  }

  /** Masking with 2^k - 1 keeps the remainder modulo 2^k. */
  lemma {:induction false} AndMask(x: nat, k: nat)
    ensures BitAnd(x, Pow2(k) - 1) == x % Pow2(k)
  {
    if k > 0 && x > 0 {
      var m := Pow2(k - 1);
      assert (2 * m - 1) / 2 == m - 1 && (2 * m - 1) % 2 == 1;
      AndMask(x / 2, k - 1);
      HalveFirst(x, k);
    } else if x == 0 {
      assert 0 % Pow2(k) == 0 by { DivModUnique(0, Pow2(k), 0, 0); }
    }
  }

  lemma AndMaskFirst(x: nat, k: nat)
    ensures BitAnd(Pow2(k) - 1, x) == x % Pow2(k)
  {
    AndCommutes(Pow2(k) - 1, x);
    AndMask(x, k);
  }
}
