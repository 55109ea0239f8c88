/** Two's-complement integers of one to six bytes in a buffer, written by truncation and borrow. */
module SignedIntegers {
  import opened Bits
  import opened Options

  type Byte = n: nat | n < 256

  // ---------- the specification ----------

  /** The weight of byte i. */
  function Weight(i: nat): (p: nat)
    ensures p > 0
  {
    if i == 0 then 1 else 256 * Weight(i - 1)
  }

  /** Byte i of the two's-complement form: division here rounds down. */
  function ByteOf(v: int, i: nat): Byte {
    v / Weight(i) % 256
  }

  predicate InRange(v: int, w: nat)
    requires 1 <= w
  {
    -128 * Weight(w - 1) <= v < 128 * Weight(w - 1)
  }

  /** What the low bytes spell without a sign. */
  function Spelled(b: seq<Byte>): nat {
    if b == [] then 0 else Spelled(b[..|b| - 1]) + b[|b| - 1] * Weight(|b| - 1)
  }

  // ---------- division ----------

  lemma IntDivModUnique(x: int, d: nat, q: int, r: nat)
    requires d > 0 && r < d && x == d * q + r
    ensures x / d == q && x % d == r
  {
    var q1, r1 := x / d, x % d;
    assert x == d * q1 + r1;
    assert d * (q1 - q) == r - r1;
    MultipleFarFromZero(d, q1 - q);
  }

  lemma QuotientSplits(v: int, p: nat, d: nat, a: int, b: nat, r: nat)
    requires p > 0 && d == 256 * p && b < 256 && r < p && v == p * (256 * a + b) + r
    ensures v / d == a && v % d == r + b * p
  {
    Distribute(p, d, a, b);
    ProductBelow(b, p);
    IntDivModUnique(v, d, a, b * p + r);
  }

  lemma Distribute(p: nat, d: nat, a: int, b: nat)
    requires d == 256 * p
    ensures p * (256 * a + b) == d * a + b * p
  {
    assert p * (256 * a) == d * a;
  }

  lemma ProductBelow(b: nat, p: nat)
    requires b < 256
    ensures b * p <= 255 * p
  {
    assert (255 - b) * p >= 0;
  }

  /** One byte more. */
  lemma DivStep(v: int, i: nat)
    ensures v / Weight(i + 1) == v / Weight(i) / 256
    ensures v % Weight(i + 1) == v % Weight(i) + ByteOf(v, i) * Weight(i)
  {
    var p := Weight(i);
    var q, r := v / p, v % p;
    assert Weight(i + 1) == 256 * p;
    hide Weight;
    assert v == p * q + r;
    assert q == 256 * (q / 256) + q % 256;
    QuotientSplits(v, p, Weight(i + 1), q / 256, q % 256, r);
  }

  /** Rounding toward zero, as dividing and then truncating does. */
  function Truncated(v: int, d: nat): int
    requires d > 0
  {
    if v >= 0 then v / d else -((-v) / d)
  }

  /** The numeric value of `x | 0`: the low 32 bits, with their sign. */
  function ToInt32(x: int): (r: int) {
    var m := x % 0x1_0000_0000;
    if m < 0x8000_0000 then m else m - 0x1_0000_0000
  }

  /** `x & 255` on 32-bit integers. */
  function LowByte(x: int): Byte {
    ToInt32(x) % 256
  }

  lemma ModShift(x: int, k: int)
    ensures (x - 256 * k) % 256 == x % 256
  {
    IntDivModUnique(x - 256 * k, 256, x / 256 - k, x % 256);
  }

  /** Taking the low 32 bits takes away a multiple of 256. */
  lemma ToInt32Shifts(x: int) returns (k: int)
    ensures ToInt32(x) == x - 256 * k
  {
    var q, m := x / 0x1_0000_0000, x % 0x1_0000_0000;
    assert x == 0x1_0000_0000 * q + m;
    k := 0x100_0000 * (if m < 0x8000_0000 then q else q + 1);
  }

  lemma LowByteIs(x: int)
    ensures LowByte(x) == x % 256
  {
    hide ToInt32;
    var k := ToInt32Shifts(x);
    ModShift(x, k);
  }

  /** Truncation exceeds the quotient rounded down by one when a negative value does not divide evenly. */
  lemma TruncationBorrows(v: int, d: nat)
    requires d > 0
    ensures v / d == Truncated(v, d) - if v < 0 && v % d != 0 then 1 else 0
  {
    if v < 0 {
      var q, r := (-v) / d, (-v) % d;
      assert -v == d * q + r;
      if r == 0 {
        assert v == d * (-q) + 0;
        IntDivModUnique(v, d, -q, 0);
      } else {
        assert v == d * (-q - 1) + (d - r);
        IntDivModUnique(v, d, -q - 1, d - r);
      }
    }
  }

  // ---------- writing ----------

  /** The borrow of byte i: there is something below it and the value is negative. */
  ghost function Borrow(v: int, i: nat): int {
    if v < 0 && v % Weight(i) != 0 then 1 else 0
  }

  /** The byte that the loop computes with the right borrow. */
  lemma BorrowedByte(v: int, i: nat)
    ensures LowByte(ToInt32(Truncated(v, Weight(i))) - Borrow(v, i)) == ByteOf(v, i)
  {
    hide Weight;
    var x, f := Truncated(v, Weight(i)), Borrow(v, i);
    TruncationBorrows(v, Weight(i));
    LowByteIs(ToInt32(x) - f);
    var k := ToInt32Shifts(x);
    hide ToInt32, LowByte, Truncated, Borrow;
    assert ToInt32(x) - f == (x - f) - 256 * k;
    ModShift(x - f, k);
  }

  /** The borrow is found by looking for the first byte that is not zero. */
  lemma BorrowStep(v: int, i: nat)
    ensures Borrow(v, i + 1) == if v < 0 && Borrow(v, i) == 0 && ByteOf(v, i) != 0 then 1 else Borrow(v, i)
  {
    DivStep(v, i);
    hide Weight, ByteOf;
    var p, b := Weight(i), ByteOf(v, i);
    assert b != 0 ==> b * p >= p;
  }

  /** Whether the checks of a write pass: the value is in range and its bytes are in the buffer. */
  predicate Writable(length: nat, v: int, e: nat, r: nat)
    requires 1 <= r
  {
    InRange(v, r) && e + r <= length
  }

  lemma BorrowNone(v: int)
    ensures Borrow(v, 0) == 0
  {
  }

  lemma Powers()
    ensures Weight(0) == 1
  {
  }

  method WriteIntLE(buf: array<Byte>, v: int, e: nat, r: nat) returns (next: Option<nat>)
    requires 1 <= r <= 6
    modifies buf
    ensures next == if Writable(buf.Length, v, e, r) then Some(e + r) else None
    ensures next == None ==> buf[..] == old(buf[..])
    ensures next.Some? ==> forall k | 0 <= k < r :: buf[e + k] == ByteOf(v, k)
    ensures forall k | 0 <= k < buf.Length && !(e <= k < e + r) :: buf[k] == old(buf[k])
  {
    hide Weight, ToInt32, InRange, Borrow, ByteOf, LowByte, Truncated;
    if !Writable(buf.Length, v, e, r) {
      return None;
    }
    var i, o: nat, f := 0, 1, 0;
    Powers();
    BorrowNone(v);
    FirstByte(v);
    buf[e] := LowByte(v);
    i := i + 1;
    while i < r
      invariant 1 <= i <= r && o == Weight(i - 1) && f == Borrow(v, i - 1)
      invariant forall k | 0 <= k < i :: buf[e + k] == ByteOf(v, k)
      invariant forall k | 0 <= k < buf.Length && !(e <= k < e + i) :: buf[k] == old(buf[k])
    {
      WeightStep(i - 1);
      o := o * 256;
      BorrowStep(v, i - 1);
      if v < 0 && f == 0 && buf[e + i - 1] != 0 {
        f := 1;
      }
      BorrowedByte(v, i);
      buf[e + i] := LowByte(ToInt32(Truncated(v, o)) - f);
      i := i + 1;
    }
    next := Some(e + r);
  }

  lemma FirstByte(v: int)
    ensures LowByte(v) == ByteOf(v, 0)
  {
    LowByteIs(v);
    assert v / 1 == v;
  }

  lemma WeightStep(i: nat)
    ensures Weight(i + 1) == 256 * Weight(i)
  {
  }

  /** The same bytes the other way round, written from the last to the first. */
  method WriteIntBE(buf: array<Byte>, v: int, e: nat, r: nat) returns (next: Option<nat>)
    requires 1 <= r <= 6
    modifies buf
    ensures next == if Writable(buf.Length, v, e, r) then Some(e + r) else None
    ensures next == None ==> buf[..] == old(buf[..])
    ensures next.Some? ==> forall k | e <= k < e + r :: buf[k] == ByteOf(v, e + r - 1 - k)
    ensures forall k | 0 <= k < buf.Length && !(e <= k < e + r) :: buf[k] == old(buf[k])
  {
    hide Weight, ToInt32, InRange, Borrow, ByteOf, LowByte, Truncated;
    if !Writable(buf.Length, v, e, r) {
      return None;
    }
    var i: int, o: nat, f := r - 1, 1, 0;
    Powers();
    BorrowNone(v);
    FirstByte(v);
    buf[e + i] := LowByte(v);
    i := i - 1;
    while i >= 0
      invariant -1 <= i < r - 1 && o == Weight(r - 2 - i) && f == Borrow(v, r - 2 - i)
      invariant forall k | e + i < k < e + r :: buf[k] == ByteOf(v, e + r - 1 - k)
      invariant forall k | 0 <= k < buf.Length && !(e + i < k < e + r) :: buf[k] == old(buf[k])
    {
      WeightStep(r - 2 - i);
      o := o * 256;
      BorrowStep(v, r - 2 - i);
      if v < 0 && f == 0 && buf[e + i + 1] != 0 {
        f := 1;
      }
      BorrowedByte(v, r - 1 - i);
      buf[e + i] := LowByte(ToInt32(Truncated(v, o)) - f);
      i := i - 1;
    }
    next := Some(e + r);
  }

  // ---------- reading ----------

  /** The value a sum of weighted bytes stands for. */
  function Signed(n: nat, w: nat): int
    requires w >= 1
  {
    if n >= 128 * Weight(w - 1) then n - Weight(w) else n
  }

  /** Bytes of a value, least significant first, up to w of them. */
  ghost predicate Spells(b: seq<Byte>, v: int, w: nat) {
    |b| == w && forall k | 0 <= k < w :: b[k] == ByteOf(v, k)
  }

  lemma {:induction false} SpelledIs(b: seq<Byte>, v: int, w: nat)
    requires Spells(b, v, w)
    ensures Spelled(b) == v % Weight(w)
  {
    if w > 0 {
      SpelledIs(b[..w - 1], v, w - 1);
      DivStep(v, w - 1);
    }
  }

  /** A value in range is what its low bytes stand for with their sign. */
  lemma SignedIs(v: int, w: nat)
    requires w >= 1 && InRange(v, w)
    ensures Signed(v % Weight(w), w) == v
  {
    assert Weight(w) == 256 * Weight(w - 1);
    if v >= 0 {
      IntDivModUnique(v, Weight(w), 0, v);
    } else {
      IntDivModUnique(v, Weight(w), -1, v + Weight(w));
    }
  }

  method ReadIntLE(buf: array<Byte>, t: nat, e: nat) returns (n: Option<int>)
    requires 1 <= e <= 6
    ensures n == if t + e <= buf.Length then Some(Signed(Spelled(buf[t..t + e]), e)) else None
  {
    hide Weight;
    if t + e > buf.Length {
      return None;
    }
    Powers();
    var m: nat, i: nat, o := buf[t], 1, 0;
    SpelledOne(buf[t..t + 1]);
    o := o + 1;
    while o < e
      invariant 1 <= o <= e && i == Weight(o - 1) && m == Spelled(buf[t..t + o])
    {
      WeightStep(o - 1);
      i := i * 256;
      SpelledMore(buf[t..t + o], buf[t + o]);
      assert buf[t..t + o + 1] == buf[t..t + o] + [buf[t + o]];
      m := m + buf[t + o] * i;
      o := o + 1;
    }
    WeightStep(e - 1);
    i := i * 128;
    n := Some(if m >= i then m - Weight(e) else m);
  }

  lemma SpelledOne(b: seq<Byte>)
    requires |b| == 1
    ensures Spelled(b) == b[0]
  {
    assert b[..0] == [];
  }

  lemma SpelledMore(b: seq<Byte>, x: Byte)
    ensures Spelled(b + [x]) == Spelled(b) + x * Weight(|b|)
  {
    assert (b + [x])[..|b|] == b;
  }

  function Reversed(b: seq<Byte>): (r: seq<Byte>)
    ensures |r| == |b| && forall k | 0 <= k < |b| :: r[k] == b[|b| - 1 - k]
  {
    seq(|b|, k requires 0 <= k < |b| => b[|b| - 1 - k])
  }

  method ReadIntBE(buf: array<Byte>, t: nat, e: nat) returns (n: Option<int>)
    requires 1 <= e <= 6
    ensures n == if t + e <= buf.Length then Some(Signed(Spelled(Reversed(buf[t..t + e])), e)) else None
  {
    hide Weight;
    if t + e > buf.Length {
      return None;
    }
    Powers();
    var j: nat, i: nat := e - 1, 1;
    var m: nat := buf[t + j];
    SpelledOne(Reversed(buf[t + j..t + e]));
    while j > 0
      invariant 0 <= j < e && i == Weight(e - 1 - j) && m == Spelled(Reversed(buf[t + j..t + e]))
    {
      WeightStep(e - 1 - j);
      i := i * 256;
      SpelledMore(Reversed(buf[t + j..t + e]), buf[t + j - 1]);
      assert Reversed(buf[t + j - 1..t + e]) == Reversed(buf[t + j..t + e]) + [buf[t + j - 1]];
      j := j - 1;
      m := m + buf[t + j] * i;
    }
    WeightStep(e - 1);
    i := i * 128;
    n := Some(if m >= i then m - Weight(e) else m);
  }

  /** What is written is read back, in both byte orders, and no other byte changes. */
  method ThereAndBack(buf: array<Byte>, v: int, e: nat, r: nat, bigEndian: bool) returns (n: Option<int>)
    requires 1 <= r <= 6
    modifies buf
    ensures n == if Writable(buf.Length, v, e, r) then Some(v) else None
    ensures forall k | 0 <= k < buf.Length && !(e <= k < e + r) :: buf[k] == old(buf[k])
  {
    hide Weight, ByteOf, Signed, InRange;
    var next;
    if bigEndian {
      next := WriteIntBE(buf, v, e, r);
    } else {
      next := WriteIntLE(buf, v, e, r);
    }
    if next == None {
      return None;
    }
    if bigEndian {
      n := ReadIntBE(buf, e, r);
      SpelledIs(Reversed(buf[e..e + r]), v, r);
    } else {
      n := ReadIntLE(buf, e, r);
      SpelledIs(buf[e..e + r], v, r);
    }
    SignedIs(v, r);
  }
}
