/** Reversal of the low bits of a number, and the 15-bit reversal table built by swapping. */
module BitReversal {
  import opened Bits

  /** The n low bits of x in opposite order. */
  function Reverse(x: nat, n: nat): nat {
    if n == 0 then 0 else x % 2 * Pow2(n - 1) + Reverse(x / 2, n - 1)
  }

  lemma DigitTimes(b: nat, p: nat)
    requires b <= 1
    ensures b * p <= p
  {
    if b == 0 {
      assert b * p == 0;
    } else {
      assert b * p == p;
    }
  }

  lemma {:induction false} ReverseBound(x: nat, n: nat)
    ensures Reverse(x, n) < Pow2(n)
  {
    if n > 0 {
      ReverseBound(x / 2, n - 1);
      DigitTimes(x % 2, Pow2(n - 1));
    }
  }

  lemma {:induction false} ReverseBit(x: nat, n: nat, i: nat)
    requires i < n
    ensures Bit(Reverse(x, n), i) == Bit(x, n - 1 - i)
    decreases n
  {
    var top := Pow2(n - 1);
    var low := Reverse(x / 2, n - 1);
    ReverseBound(x / 2, n - 1);
    OrDisjoint(x % 2, n - 1, low);
    OrBit(x % 2 * top, low, i);
    ShiftLeftBit(x % 2, n - 1, i);
    if i == n - 1 {
      HighBitsZero(low, n - 1, i);
    } else {
      ReverseBit(x / 2, n - 1, i);
    }
  }

  /** Reversing twice gives the number back. */
  lemma ReverseTwice(x: nat, n: nat)
    requires x < Pow2(n)
    ensures Reverse(Reverse(x, n), n) == x
  {
    ReverseBound(Reverse(x, n), n);
    forall i | 0 <= i < n ensures Bit(Reverse(Reverse(x, n), n), i) == Bit(x, i) {
      ReverseBit(Reverse(x, n), n, i);
      ReverseBit(x, n, n - 1 - i);
    }
    BitsDetermine(Reverse(Reverse(x, n), n), x, n);
  }

  /** The low k bits of a reversal are the reversal of the top k bits. */
  lemma {:induction false} ReversePrefix(x: nat, n: nat, k: nat)
    requires k <= n
    ensures Reverse(x, n) % Pow2(k) == Reverse(x / Pow2(n - k), k)
  {
    if k == n {
      ReverseBound(x, n);
      DivModUnique(Reverse(x, n), Pow2(n), 0, Reverse(x, n));
    } else {
      var rest := Reverse(x / 2, n - 1);
      Pow2Add(k, n - 1 - k);
      assert k + (n - 1 - k) == n - 1;
      assert x % 2 * Pow2(n - 1) == Pow2(k) * (x % 2 * Pow2(n - 1 - k));
      ModAddMultiple(Pow2(k), x % 2 * Pow2(n - 1 - k), rest);
      ReversePrefix(x / 2, n - 1, k);
      HalveFirst(x, n - k);
    }
  }

  /** Reversing in a wider field leaves the result at the top. */
  lemma ReverseWide(x: nat, n: nat, w: nat)
    requires n <= w && x < Pow2(n)
    ensures Quotient(Reverse(x, w), Pow2(w - n)) == Reverse(x, n)
  {
    hide Pow2, Reverse, Bit;
    var a, b := Quotient(Reverse(x, w), Pow2(w - n)), Reverse(x, n);
    ReverseBound(x, w);
    ReverseBound(x, n);
    assert a < Pow2(n) by {
      Pow2Add(n, w - n);
      DivBelow(Reverse(x, w), Pow2(n), Pow2(w - n));
    }
    forall i | 0 <= i < n ensures Bit(a, i) == Bit(b, i) {
      ShiftRightBit(Reverse(x, w), w - n, i);
      ReverseBit(x, w, i + (w - n));
      ReverseBit(x, n, i);
    }
    BitsDetermine(a, b, n);
  }

  // ---------- the table ----------

  /** n groups of k low bits, each followed by k zero bits. */
  function EvenGroups(k: nat, n: nat): nat {
    if n == 0 then 0 else EvenGroups(k, n - 1) * Pow2(2 * k) + (Pow2(k) - 1)
  }

  lemma {:induction false} OnesBit(k: nat, j: nat)
    ensures Bit(Pow2(k) - 1, j) == (j < k)
  {
    if k == 0 {
      ZeroBit(j);
    } else {
      var half := Pow2(k - 1) - 1;
      assert Pow2(k) - 1 == 2 * half + 1;
      if j > 0 {
        OnesBit(k - 1, j - 1);
      }
    }
  }

  lemma EvenGroupsStep(k: nat, n: nat, j: nat)
    requires k > 0 && n > 0
    ensures Bit(EvenGroups(k, n), j) == ((j >= 2 * k && Bit(EvenGroups(k, n - 1), j - 2 * k)) || j < k)
  {
    hide Bit, BitOr, Pow2;
    Pow2Monotone(k, 2 * k);
    OrDisjoint(EvenGroups(k, n - 1), 2 * k, Pow2(k) - 1);
    OrBit(EvenGroups(k, n - 1) * Pow2(2 * k), Pow2(k) - 1, j);
    ShiftLeftBit(EvenGroups(k, n - 1), 2 * k, j);
    OnesBit(k, j);
  }

  /** Bit j lies in an odd group of k bits. */
  predicate OddGroup(j: nat, k: nat)
    requires k > 0
  {
    j >= k && !OddGroup(j - k, k)
  }

  function Width(k: nat, n: nat): nat {
    if n == 0 then 0 else Width(k, n - 1) + 2 * k
  }

  lemma {:induction false} EvenGroupsBit(k: nat, n: nat, j: nat)
    requires k > 0 && j < Width(k, n)
    ensures Bit(EvenGroups(k, n), j) == !OddGroup(j, k)
    decreases n
  {
    if n > 0 {
      EvenGroupsStep(k, n, j);
      if j >= 2 * k {
        EvenGroupsBit(k, n - 1, j - 2 * k);
        assert OddGroup(j, k) == !OddGroup(j - k, k) == OddGroup(j - k - k, k);
      }
    }
  }

  /** Exchange neighbouring groups of k bits: the masked high groups down, the low groups up. */
  function SwapGroups(x: nat, hi: nat, lo: nat, k: nat): nat {
    BitOr(Shr(BitAnd(hi, x), k), Shl(BitAnd(lo, x), k))
  }

  function Partner(i: nat, k: nat): nat
    requires k > 0
  {
    if OddGroup(i, k) then i - k else i + k
  }

  /** hi and lo select the odd and the even groups of k bits in a 16-bit word. */
  ghost predicate GroupMasks(hi: nat, lo: nat, k: nat) {
    && k > 0 && hi < Pow2(16) && lo < Pow2(16)
    && forall j :: 0 <= j < 16 ==> Bit(hi, j) == OddGroup(j, k) && Bit(lo, j) == !OddGroup(j, k)
  }

  lemma MasksFromGroups(hi: nat, lo: nat, k: nat, n: nat)
    requires k > 0 && Width(k, n) == 16
    requires lo == EvenGroups(k, n) < Pow2(16) && hi == lo * Pow2(k) < Pow2(16)
    ensures GroupMasks(hi, lo, k)
  {
    forall j | 0 <= j < 16
      ensures Bit(hi, j) == OddGroup(j, k) && Bit(lo, j) == !OddGroup(j, k)
    {
      EvenGroupsBit(k, n, j);
      ShiftLeftBit(lo, k, j);
      if j >= k {
        EvenGroupsBit(k, n, j - k);
      }
    }
  }

  lemma SixteenBitMasks()
    ensures GroupMasks(43690, 21845, 1) && GroupMasks(52428, 13107, 2)
    ensures GroupMasks(61680, 3855, 4) && GroupMasks(65280, 255, 8)
  {
    assert Pow2(4) == 16 && Pow2(8) == 256 && Pow2(1) == 2 && Pow2(2) == 4;
    Pow2Add(8, 8);
    assert EvenGroups(1, 2) == 5 && EvenGroups(1, 4) == 85 && EvenGroups(1, 6) == 1365 && EvenGroups(1, 8) == 21845;
    assert EvenGroups(2, 2) == 51 && EvenGroups(2, 4) == 13107;
    assert Width(1, 4) == 8 && Width(1, 8) == 16;
    assert EvenGroups(4, 2) == 3855 && EvenGroups(8, 1) == 255;
    MasksFromGroups(43690, 21845, 1, 8);
    MasksFromGroups(52428, 13107, 2, 4);
    MasksFromGroups(61680, 3855, 4, 2);
    MasksFromGroups(65280, 255, 8, 1);
  }

  lemma SwapGroupsBit(x: nat, hi: nat, lo: nat, k: nat, i: nat)
    requires GroupMasks(hi, lo, k) && i < 16 && Partner(i, k) < 16
    ensures Bit(SwapGroups(x, hi, lo, k), i) == Bit(x, Partner(i, k))
  {
    OrBit(Shr(BitAnd(hi, x), k), Shl(BitAnd(lo, x), k), i);
    ShiftRightBit(BitAnd(hi, x), k, i);
    ShiftLeftBit(BitAnd(lo, x), k, i);
    AndBit(hi, x, i + k);
    assert OddGroup(i + k, k) == !OddGroup(i, k);
    if i + k >= 16 {
      HighBitsZero(hi, 16, i + k);
    }
    if i >= k {
      AndBit(lo, x, i - k);
      assert OddGroup(i, k) == !OddGroup(i - k, k);
    }
  }

  /** The chain of swaps the table entry goes through. */
  function Swapped(x: nat): nat {
    SwapGroups(SwapGroups(SwapGroups(SwapGroups(x, 43690, 21845, 1), 52428, 13107, 2), 61680, 3855, 4), 65280, 255, 8)
  }

  lemma {:induction false} OddGroupMod(j: nat, k: nat)
    requires k > 0
    ensures OddGroup(j, k) == (j % (2 * k) >= k)
  {
    if j >= 2 * k {
      OddGroupMod(j - 2 * k, k);
      ModAddMultiple(2 * k, 1, j - 2 * k);
      assert OddGroup(j, k) == !OddGroup(j - k, k) == OddGroup(j - k - k, k);
    } else {
      DivModUnique(j, 2 * k, 0, j);
    }
  }

  lemma PartnersOf(i: nat)
    requires i < 16
    ensures Partner(i, 8) < 16 && Partner(Partner(i, 8), 4) < 16
    ensures Partner(Partner(Partner(i, 8), 4), 2) < 16
    ensures Partner(Partner(Partner(Partner(i, 8), 4), 2), 1) == 15 - i
  {
    OddGroupMod(i, 8);
    OddGroupMod(Partner(i, 8), 4);
    OddGroupMod(Partner(Partner(i, 8), 4), 2);
    OddGroupMod(Partner(Partner(Partner(i, 8), 4), 2), 1);
  }

  lemma SwappedBit(x: nat, i: nat)
    requires i < 16
    ensures Bit(Swapped(x), i) == Bit(x, 15 - i)
  {
    SixteenBitMasks();
    PartnersOf(i);
    var s1 := SwapGroups(x, 43690, 21845, 1);
    var s2 := SwapGroups(s1, 52428, 13107, 2);
    var s4 := SwapGroups(s2, 61680, 3855, 4);
    var i8 := Partner(i, 8);
    var i4 := Partner(i8, 4);
    var i2 := Partner(i4, 2);
    SwapGroupsBit(s4, 65280, 255, 8, i);
    SwapGroupsBit(s2, 61680, 3855, 4, i8);
    SwapGroupsBit(s1, 52428, 13107, 2, i4);
    SwapGroupsBit(x, 43690, 21845, 1, i2);
  }

  /** Halving the 16-bit reversal leaves the reversal of the low 15 bits. */
  lemma SwappedIsReverse(x: nat)
    requires x < Pow2(15)
    ensures Swapped(x) / 2 == Reverse(x, 15)
  {
    SwappedBound(x);
    ReverseBound(x, 15);
    assert Swapped(x) / 2 < Pow2(15);
    forall i | 0 <= i < 15 ensures Bit(Swapped(x) / 2, i) == Bit(Reverse(x, 15), i) {
      assert Bit(Swapped(x), i + 1) == Bit(Swapped(x) / 2, i);
      SwappedBit(x, i + 1);
      ReverseBit(x, 15, i);
    }
    BitsDetermine(Swapped(x) / 2, Reverse(x, 15), 15);
  }

  lemma {:induction false} AndBound(a: nat, b: nat)
    ensures BitAnd(a, b) <= a && BitAnd(a, b) <= b
  {
    if a > 0 && b > 0 {
      AndBound(a / 2, b / 2);
    }
  }

  lemma {:induction false} OrBound(a: nat, b: nat, n: nat)
    requires a < Pow2(n) && b < Pow2(n)
    ensures BitOr(a, b) < Pow2(n)
  {
    if n > 0 && !(a == 0 && b == 0) {
      OrBound(a / 2, b / 2, n - 1);
    }
  }

  lemma SwappedBound(x: nat)
    ensures Swapped(x) < Pow2(16)
  {
    var s4 := SwapGroups(SwapGroups(SwapGroups(x, 43690, 21845, 1), 52428, 13107, 2), 61680, 3855, 4);
    AndBound(65280, s4);
    AndBound(255, s4);
    assert Pow2(8) == 256;
    Pow2Add(8, 8);
    OrBound(Shr(BitAnd(65280, s4), 8), Shl(BitAnd(255, s4), 8), 16);
  }

  /** The reversal table: entry x is the reversal of the 15 low bits of x. */
  method BuildReverseTable() returns (ti: array<nat>)
    ensures ti.Length == 32768
    ensures forall x :: 0 <= x < 32768 ==> ti[x] == Reverse(x, 15)
  {
    Fifteen();
    ti := new nat[32768];
    for x := 0 to 32768
      invariant forall k :: 0 <= k < x ==> ti[k] == Reverse(k, 15)
    {
      var ts := BitOr(Shr(BitAnd(43690, x), 1), Shl(BitAnd(21845, x), 1));
      ts := BitOr(Shr(BitAnd(52428, ts), 2), Shl(BitAnd(13107, ts), 2));
      ts := BitOr(Shr(BitAnd(61680, ts), 4), Shl(BitAnd(3855, ts), 4));
      ti[x] := BitOr(Shr(BitAnd(65280, ts), 8), Shl(BitAnd(255, ts), 8)) / 2;
      SwappedIsReverse(x);
    }
  }

  lemma Fifteen()
    ensures Pow2(15) == 32768
  {
    assert Pow2(8) == 256 && Pow2(7) == 128;
    Pow2Add(8, 7);
  }
}
