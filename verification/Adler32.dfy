/** Adler-32 with deferred reduction (section 2.2 of RFC 1950). */
module Adler32 {
  import opened Bits

  const BASE: nat := 65521

  /** The two sums. */
  datatype Sums = Sums(a: nat, b: nat)

  predicate Reduced(s: Sums) {
    s.a < BASE && s.b < BASE
  }

  /** The definition, byte by byte: both sums modulo 65521 at every step. */
  function Step(s: Sums, byte: nat): Sums {
    var a := (s.a + byte) % BASE;
    Sums(a, (s.b + a) % BASE)
  }

  function Checksum(s: Sums, data: seq<nat>): Sums {
    if data == [] then s else Step(Checksum(s, data[..|data| - 1]), data[|data| - 1])
  }

  lemma {:induction false} ChecksumReduced(s: Sums, data: seq<nat>)
    requires Reduced(s)
    ensures Reduced(Checksum(s, data))
  {
    if data != [] {
      ChecksumReduced(s, data[..|data| - 1]);
    }
  }

  /** Feeding two pieces is feeding their concatenation. */
  lemma {:induction false} ChecksumConcat(s: Sums, x: seq<nat>, y: seq<nat>)
    ensures Checksum(Checksum(s, x), y) == Checksum(s, x + y)
  {
    if y == [] {
      assert x + y == x;
    } else {
      assert (x + y)[..|x + y| - 1] == x + y[..|y| - 1];
      ChecksumConcat(s, x, y[..|y| - 1]);
    }
  }

  // ---------- sums without reduction ----------

  function PlainStep(s: Sums, byte: nat): Sums {
    Sums(s.a + byte, s.b + (s.a + byte))
  }

  function Plain(s: Sums, data: seq<nat>): Sums {
    if data == [] then s else PlainStep(Plain(s, data[..|data| - 1]), data[|data| - 1])
  }

  function Mod(s: Sums): Sums {
    Sums(s.a % BASE, s.b % BASE)
  }

  lemma StepCommutesWithMod(s: Sums, byte: nat)
    ensures Mod(PlainStep(s, byte)) == Step(Mod(s), byte)
  {
    assert (s.a + byte) % BASE == (s.a % BASE + byte) % BASE;
    assert (s.b + (s.a + byte)) % BASE == (s.b % BASE + (s.a + byte) % BASE) % BASE;
  }

  /** Reducing once at the end equals reducing at every byte. */
  lemma {:induction false} DeferredReduction(s: Sums, data: seq<nat>)
    requires Reduced(s)
    ensures Mod(Plain(s, data)) == Checksum(s, data)
  {
    if data != [] {
      DeferredReduction(s, data[..|data| - 1]);
      StepCommutesWithMod(Plain(s, data[..|data| - 1]), data[|data| - 1]);
    }
  }

  /** Bytes summed before a reduction. */
  const CHUNK := 5552

  /** Largest sum of the second kind after k bytes. */
  function SecondBound(k: nat): nat {
    if k == 0 then BASE - 1 else SecondBound(k - 1) + (BASE - 1) + 255 * k
  }

  lemma {:induction false} PlainBounds(s: Sums, data: seq<nat>)
    requires Reduced(s) && forall i :: 0 <= i < |data| ==> data[i] < 256
    ensures Plain(s, data).a <= BASE - 1 + 255 * |data|
    ensures Plain(s, data).b <= SecondBound(|data|)
  {
    if data != [] {
      PlainBounds(s, data[..|data| - 1]);
    }
  }

  lemma {:induction false} SecondBoundClosed(k: nat)
    ensures 2 * SecondBound(k) == 2 * (BASE - 1) * (k + 1) + 255 * k * (k + 1)
  {
    if k > 0 {
      SecondBoundClosed(k - 1);
    }
  }

  lemma {:induction false} SecondBoundGrows(j: nat, k: nat)
    requires j <= k
    ensures SecondBound(j) <= SecondBound(k)
    decreases k
  {
    if j < k {
      SecondBoundGrows(j, k - 1);
    }
  }

  /** No sum leaves 32 bits within one chunk. */
  lemma ChunkFits(s: Sums, data: seq<nat>)
    requires Reduced(s) && |data| <= CHUNK && forall i :: 0 <= i < |data| ==> data[i] < 256
    ensures Plain(s, data).a < 0x1_0000_0000 && Plain(s, data).b < 0x1_0000_0000
  {
    PlainBounds(s, data);
    SecondBoundGrows(|data|, CHUNK);
    SecondBoundClosed(CHUNK);
  }

  // ---------- the running checksum ----------

  class Adler {
    var e: nat
    var t: nat

    ghost function State(): Sums
      reads this
    {
      Sums(e, t)
    }

    constructor ()
      ensures State() == Sums(1, 0)
    {
      e, t := 1, 0;
    }

    /** Feed bytes, reducing once per chunk. */
    method Push(n: seq<nat>)
      requires Reduced(State()) && forall i :: 0 <= i < |n| ==> n[i] < 256
      modifies this
      ensures State() == Checksum(old(State()), n) && Reduced(State())
    {
      ghost var start := State();
      var r, i := e, t;
      var s := 0;
      assert n[..0] == [];
      while s != |n|
        invariant s <= |n| && Sums(r, i) == Checksum(start, n[..s]) && Reduced(Sums(r, i))
        decreases |n| - s
      {
        var u := if s + CHUNK < |n| then s + CHUNK else |n|;
        r, i := Chunk(r, i, n[s..u]);
        ChecksumConcat(start, n[..s], n[s..u]);
        assert n[..s] + n[s..u] == n[..u];
        s := u;
      }
      assert n[..|n|] == n;
      e, t := r, i;
    }

    /** One chunk: plain sums that stay below 2^32, then one reduction. */
    static method Chunk(r0: nat, i0: nat, data: seq<nat>) returns (r: nat, i: nat)
      requires Reduced(Sums(r0, i0)) && |data| <= CHUNK && forall k :: 0 <= k < |data| ==> data[k] < 256
      ensures Sums(r, i) == Checksum(Sums(r0, i0), data) && Reduced(Sums(r, i))
    {
      r, i := r0, i0;
      assert data[..0] == [];
      for s := 0 to |data|
        invariant Sums(r, i) == Plain(Sums(r0, i0), data[..s])
        invariant r < 0x1_0000_0000 && i < 0x1_0000_0000
      {
        assert data[..s + 1][..s] == data[..s];
        r := r + data[s];
        i := i + r;
        ChunkFits(Sums(r0, i0), data[..s + 1]);
      }
      assert data[..|data|] == data;
      DeferredReduction(Sums(r0, i0), data);
      r := r % BASE;
      i := i % BASE;
    }

    /** The checksum arranged so that its low byte is the first to be sent. */
    method Digest() returns (d: nat)
      requires Reduced(State())
      ensures d == Swapped(State()) < 0x1_0000_0000
    {
      DigestPowers();
      hide BitOr, Pow2;
      DigestBits(e / 256, t % 256, t / 256);
      d := BitOr(BitOr(Shl(Shr(e, 8), 16), Shl(t % 256, 8)), Shr(t, 8)) + Shl(e % 256, 23) * 2;
    }
  }

  lemma DigestPowers()
    ensures Pow2(8) == 256 && Pow2(16) == 65536 && Pow2(23) == 8388608
  {
    assert Pow2(7) == 128 && Pow2(8) == 256;
    Pow2Add(8, 8);
    Pow2Add(16, 7);
  }

  lemma DigestBits(x: nat, y: nat, z: nat)
    requires y < 256 && z < 256
    ensures BitOr(BitOr(Shl(x, 16), Shl(y, 8)), z) == x * 65536 + y * 256 + z
  {
    DigestPowers();
    hide BitOr, Pow2;
    OrDisjoint(x, 16, y * 256);
    OrDisjoint(x * 256 + y, 8, z);
  }

  /** The four bytes of a 32-bit number, most significant first. */
  function BigEndian(v: nat): seq<nat> {
    [v / 16777216, v / 65536 % 256, v / 256 % 256, v % 256]
  }

  /** The checksum as one number. */
  function Value(s: Sums): nat {
    s.b * 65536 + s.a
  }

  /** The checksum with its four bytes in opposite order. */
  function Swapped(s: Sums): nat {
    s.b / 256 + s.b % 256 * 256 + s.a / 256 * 65536 + s.a % 256 * 16777216
  }

  /** Write a number byte by byte from the low end, stopping when nothing is left. */
  method PutLittleEndian(e: array<nat>, t: nat, n: nat)
    requires t + 4 <= e.Length && n < 0x1_0000_0000 && forall k :: t <= k < t + 4 ==> e[k] == 0
    modifies e
    ensures e[t..t + 4] == [n % 256, n / 256 % 256, n / 65536 % 256, n / 16777216]
    ensures forall k :: 0 <= k < e.Length && !(t <= k < t + 4) ==> e[k] == old(e[k])
  {
    var rest, at := n, t;
    while rest != 0
      invariant t <= at <= t + 4
      invariant rest == n / Power256(at - t)
      invariant forall k :: t <= k < at ==> e[k] == n / Power256(k - t) % 256
      invariant forall k :: at <= k < t + 4 ==> e[k] == 0
      invariant forall k :: 0 <= k < e.Length && !(t <= k < t + 4) ==> e[k] == old(e[k])
    {
      BytesLeft(n, at - t);
      e[at] := rest % 256;
      rest := rest / 256;
      at := at + 1;
    }
    hide Power256;
    FourBytesOf(e[t..t + 4], n, at - t);
  }

  function Power256(k: nat): nat {
    if k == 0 then 1 else if k == 1 then 256 else if k == 2 then 65536 else if k == 3 then 16777216 else 4294967296
  }

  /** Bytes written until nothing was left, with zeros behind them. */
  lemma FourBytesOf(s: seq<nat>, n: nat, a: nat)
    requires |s| == 4 && a <= 4 && n < 0x1_0000_0000 && n / Power256(a) == 0
    requires forall k :: 0 <= k < a ==> s[k] == n / Power256(k) % 256
    requires forall k :: a <= k < 4 ==> s[k] == 0
    ensures s == [n % 256, n / 256 % 256, n / 65536 % 256, n / 16777216]
  {
    NothingLeft(n, a);
    assert s[0] == n / Power256(0) % 256 && s[1] == n / Power256(1) % 256;
    assert s[2] == n / Power256(2) % 256 && s[3] == n / Power256(3) % 256;
  }

  lemma BytesLeft(n: nat, k: nat)
    requires n < 0x1_0000_0000 && k <= 4 && n / Power256(k) != 0
    ensures k < 4 && n / Power256(k) / 256 == n / Power256(k + 1)
  {
  }

  lemma NothingLeft(n: nat, k: nat)
    requires n < 0x1_0000_0000 && k <= 4 && n / Power256(k) == 0
    ensures forall j :: k <= j < 4 ==> n / Power256(j) % 256 == 0
    ensures n / 16777216 < 256
  {
  }

  lemma FourBytes(x0: nat, x1: nat, x2: nat, x3: nat)
    requires x0 < 256 && x1 < 256 && x2 < 256 && x3 < 256
    ensures var n := x0 + x1 * 256 + x2 * 65536 + x3 * 16777216;
            n % 256 == x0 && n / 256 % 256 == x1 && n / 65536 % 256 == x2 && n / 16777216 == x3
  {
    var n := x0 + x1 * 256 + x2 * 65536 + x3 * 16777216;
    DivModUnique(n, 256, x1 + x2 * 256 + x3 * 65536, x0);
    DivModUnique(x1 + x2 * 256 + x3 * 65536, 256, x2 + x3 * 256, x1);
    DivModUnique(n, 65536, x2 + x3 * 256, x0 + x1 * 256);
    DivModUnique(x2 + x3 * 256, 256, x3, x2);
    DivModUnique(n, 16777216, x3, x0 + x1 * 256 + x2 * 65536);
  }

  lemma SwapIsBigEndian(s: Sums)
    requires Reduced(s)
    ensures var n := Swapped(s);
            [n % 256, n / 256 % 256, n / 65536 % 256, n / 16777216] == BigEndian(Value(s))
  {
    var x0, x1, x2, x3 := s.b / 256, s.b % 256, s.a / 256, s.a % 256;
    FourBytes(x0, x1, x2, x3);
    FourBytes(x3, x2, x1, x0);
    assert Value(s) == x3 + x2 * 256 + x1 * 65536 + x0 * 16777216;
    assert Swapped(s) == x0 + x1 * 256 + x2 * 65536 + x3 * 16777216;
    hide Value, Swapped;
    assert BigEndian(Value(s)) == [x0, x1, x2, x3];
  }

  /** The trailer behind the compressed data: the checksum, most significant byte first. */
  method PutTrailer(e: array<nat>, t: nat, sum: Adler)
    requires t + 4 <= e.Length && Reduced(sum.State()) && forall k :: t <= k < t + 4 ==> e[k] == 0
    modifies e
    ensures e[t..t + 4] == BigEndian(Value(sum.State()))
    ensures forall k :: 0 <= k < e.Length && !(t <= k < t + 4) ==> e[k] == old(e[k])
  {
    var d := sum.Digest();
    SwapIsBigEndian(sum.State());
    PutLittleEndian(e, t, d);
  }
}
