/** A stream of bits in a byte buffer, least significant bit first, written by ORing shifted values. */
module BitStream {
  import opened Bits

  /** The w low bits of v, least significant first. */
  function ValueBits(v: nat, w: nat): (bits: seq<bool>)
    ensures |bits| == w
  {
    seq(w, i requires 0 <= i => Bit(v, i))
  }

  /** The number a bit string spells, least significant bit first. */
  function BitsValue(bits: seq<bool>): nat {
    if bits == [] then 0 else (if bits[0] then 1 else 0) + 2 * BitsValue(bits[1..])
  }

  lemma {:induction false} ValueOfBits(v: nat, w: nat)
    requires v < Pow2(w)
    ensures BitsValue(ValueBits(v, w)) == v
  {
    if w > 0 {
      assert ValueBits(v, w)[1..] == ValueBits(v / 2, w - 1);
      ValueOfBits(v / 2, w - 1);
    }
  }

  // ---------- bits in bytes ----------

  predicate BitAt(a: seq<nat>, i: nat)
    requires i < 8 * |a|
  {
    Bit(a[i / 8], i % 8)
  }

  /** The buffer holds exactly these bits, as far as it reaches, and zeros behind them. */
  ghost predicate Holds(a: seq<nat>, bits: seq<bool>) {
    && (forall k :: 0 <= k < |a| ==> a[k] < 256)
    && (forall i :: 0 <= i < 8 * |a| ==> BitAt(a, i) == (i < |bits| && bits[i]))
  }

  /** `a[i] |= v` on a byte array: truncated to a byte, ignored out of bounds. */
  function OrByte(a: seq<nat>, i: nat, v: nat): seq<nat> {
    if i < |a| then a[i := BitOr(a[i], v) % 256] else a
  }

  lemma OrByteBit(a: seq<nat>, j: nat, v: nat, i: nat)
    requires i < 8 * |a|
    ensures |OrByte(a, j, v)| == |a|
    ensures BitAt(OrByte(a, j, v), i) == (BitAt(a, i) || (i / 8 == j && Bit(v, i % 8))) || a[i / 8] >= 256
    ensures forall k :: 0 <= k < |a| && k != j ==> OrByte(a, j, v)[k] == a[k]
    ensures j < |a| ==> OrByte(a, j, v)[j] < 256
  {
    assert Pow2(8) == 256;
    if i / 8 == j {
      OrBit(a[j], v, i % 8);
      ModBit(BitOr(a[j], v), 8, i % 8);
    }
  }

  /** The three byte writes of one value at bit position l. */
  function OrValue(a: seq<nat>, l: nat, n: nat): seq<nat> {
    var x := Shl(n, l % 8);
    OrByte(OrByte(OrByte(a, l / 8, x), l / 8 + 1, Shr(x, 8)), l / 8 + 2, Shr(x, 16))
  }

  lemma OrValueBit(a: seq<nat>, l: nat, n: nat, i: nat)
    requires i < 8 * |a| && forall k :: 0 <= k < |a| ==> a[k] < 256
    ensures |OrValue(a, l, n)| == |a|
    ensures BitAt(OrValue(a, l, n), i)
         == (BitAt(a, i) || (l / 8 <= i / 8 <= l / 8 + 2 && i >= l && Bit(n, i - l)))
  {
    var x := Shl(n, l % 8);
    var r := l / 8;
    var a1 := OrByte(a, r, x);
    var a2 := OrByte(a1, r + 1, Shr(x, 8));
    OrByteBit(a, r, x, i);
    OrByteBit(a1, r + 1, Shr(x, 8), i);
    OrByteBit(a2, r + 2, Shr(x, 16), i);
    if i / 8 == r {
      ShiftLeftBit(n, l % 8, i % 8);
    } else if i / 8 == r + 1 {
      ShiftRightBit(x, 8, i % 8);
      ShiftLeftBit(n, l % 8, i % 8 + 8);
    } else if i / 8 == r + 2 {
      ShiftRightBit(x, 16, i % 8);
      ShiftLeftBit(n, l % 8, i % 8 + 16);
    }
  }

  lemma OrValueBytes(a: seq<nat>, l: nat, n: nat)
    requires forall k :: 0 <= k < |a| ==> a[k] < 256
    ensures forall k :: 0 <= k < |OrValue(a, l, n)| ==> OrValue(a, l, n)[k] < 256
  {
  }

  /** Writing a value of w bits behind the current end appends exactly its bits. */
  lemma OrValueHolds(a: seq<nat>, bits: seq<bool>, n: nat, w: nat)
    requires Holds(a, bits) && n < Pow2(w) && w <= 17
    ensures Holds(OrValue(a, |bits|, n), bits + ValueBits(n, w))
  {
    var l := |bits|;
    var b := OrValue(a, l, n);
    var longer := bits + ValueBits(n, w);
    OrValueBytes(a, l, n);
    forall i | 0 <= i < 8 * |b| ensures BitAt(b, i) == (i < |longer| && longer[i]) {
      OrValueBit(a, l, n, i);
      if i >= l + w {
        HighBitsZero(n, w, i - l);
      } else if i >= l {
        assert longer[i] == ValueBits(n, w)[i - l];
      } else {
        assert longer[i] == bits[i];
      }
    }
  }

  /** Two byte writes do when the value has at most nine bits. */
  lemma TwoBytesSuffice(a: seq<nat>, l: nat, n: nat, w: nat)
    requires n < Pow2(w) && w <= 9 && forall k :: 0 <= k < |a| ==> a[k] < 256
    ensures var x := Shl(n, l % 8);
            OrByte(OrByte(a, l / 8, x), l / 8 + 1, Shr(x, 8)) == OrValue(a, l, n)
  {
    hide OrByte;
    var x := Shl(n, l % 8);
    NothingAbove(n, l % 8, w);
    OrNothing(a, l / 8, x, Shr(x, 8));
  }

  /** A value of at most nine bits, shifted by less than a byte, has nothing above its second byte. */
  lemma NothingAbove(n: nat, k: nat, w: nat)
    requires n < Pow2(w) && w <= 9 && k < 8
    ensures Shr(Shl(n, k), 16) == 0
  {
    assert Pow2(9) == 512 && Pow2(7) == 128 && Pow2(16) == 65536;
    Pow2Monotone(w, 9);
    Pow2Monotone(k, 7);
    SmallProduct(n, Pow2(k));
    DivModUnique(Shl(n, k), 65536, 0, Shl(n, k));
  }

  lemma OrByteAt(a: seq<nat>, i: nat, v: nat)
    ensures |OrByte(a, i, v)| == |a| && forall k | 0 <= k < |a| && k != i :: OrByte(a, i, v)[k] == a[k]
    ensures i < |a| && v == 0 && a[i] < 256 ==> OrByte(a, i, v) == a
  {
    if i < |a| {
      OrZero(a[i]);
    }
  }

  lemma OrNothing(a: seq<nat>, r: nat, x: nat, y: nat)
    requires forall k :: 0 <= k < |a| ==> a[k] < 256
    ensures var b := OrByte(OrByte(a, r, x), r + 1, y); OrByte(b, r + 2, 0) == b
  {
    hide OrByte;
    var a1 := OrByte(a, r, x);
    var b := OrByte(a1, r + 1, y);
    OrByteAt(a, r, x);
    OrByteAt(a1, r + 1, y);
    OrByteAt(b, r + 2, 0);
    if r + 2 >= |b| {
      OrBeyond(b, r + 2, 0);
    }
  }

  lemma OrBeyond(a: seq<nat>, i: nat, v: nat)
    requires i >= |a|
    ensures OrByte(a, i, v) == a
  {
  }

  lemma SmallProduct(n: nat, p: nat)
    requires n < 512 && p <= 128
    ensures n * p < 65536
  {
    assert n * p <= 512 * p;
  }

  lemma ByteHolds(a: seq<nat>, bits: seq<bool>, v: nat)
    requires Holds(a, bits) && |bits| % 8 == 0 && v < 256
    ensures Holds(if |bits| / 8 < |a| then a[|bits| / 8 := v] else a, bits + ValueBits(v, 8))
  {
    var b := if |bits| / 8 < |a| then a[|bits| / 8 := v] else a;
    var longer := bits + ValueBits(v, 8);
    forall i | 0 <= i < 8 * |b| ensures BitAt(b, i) == (i < |longer| && longer[i]) {
      if i / 8 == |bits| / 8 {
        assert longer[i] == ValueBits(v, 8)[i - |bits|];
      } else {
        assert BitAt(b, i) == BitAt(a, i);
      }
    }
  }

  // ---------- the writer ----------

  class BitWriter {
    const a: array<nat>
    var l: nat
    ghost var bits: seq<bool>

    ghost predicate Valid()
      reads this, a
    {
      l == |bits| && Holds(a[..], bits)
    }

    constructor (size: nat)
      ensures Valid() && bits == [] && fresh(a) && a.Length == size
    {
      a := new nat[size](_ => 0);
      l := 0;
      bits := [];
      new;
      forall i | 0 <= i < 8 * size ensures !BitAt(a[..], i) {
        ZeroBit(i % 8);
      }
    }

    method OrAt(i: nat, v: nat)
      modifies a
      ensures a[..] == OrByte(old(a[..]), i, v)
    {
      if i < a.Length {
        a[i] := BitOr(a[i], v) % 256;
      }
    }

    /** Append a value of at most nine bits. */
    method PutShort(n: nat, w: nat)
      requires Valid() && n < Pow2(w) && w <= 9
      modifies this, a
      ensures Valid() && bits == old(bits) + ValueBits(n, w)
    {
      OrValueHolds(a[..], bits, n, w);
      TwoBytesSuffice(a[..], l, n, w);
      var x, r := Shl(n, l % 8), l / 8;
      OrAt(r, x);
      OrAt(r + 1, Shr(x, 8));
      l := l + w;
      bits := bits + ValueBits(n, w);
    }

    /** Append a value of at most seventeen bits. */
    method PutLong(n: nat, w: nat)
      requires Valid() && n < Pow2(w) && w <= 17
      modifies this, a
      ensures Valid() && bits == old(bits) + ValueBits(n, w)
    {
      hide Holds, OrByte, ValueBits, Shl, Shr, Pow2;
      OrValueHolds(a[..], bits, n, w);
      var x, r := Shl(n, l % 8), l / 8;
      OrAt(r, x);
      OrAt(r + 1, Shr(x, 8));
      OrAt(r + 2, Shr(x, 16));
      l := l + w;
      bits := bits + ValueBits(n, w);
    }

    /** Leave n zero bits. */
    method Skip(n: nat)
      requires Valid()
      modifies this
      ensures Valid() && bits == old(bits) + seq(n, _ => false)
    {
      l := l + n;
      bits := bits + seq(n, _ => false);
    }

    /** Assign the next byte; the position is on a byte boundary. */
    method PutByte(v: nat)
      requires Valid() && v < 256 && l % 8 == 0
      modifies this, a
      ensures Valid() && bits == old(bits) + ValueBits(v, 8) && l == old(l) + 8
    {
      ByteHolds(a[..], bits, v);
      if l / 8 < a.Length {
        a[l / 8] := v;
      }
      l := l + 8;
      bits := bits + ValueBits(v, 8);
    }
  }
}
