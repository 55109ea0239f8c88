/** Base64: the encoder by pieces and the decoder into an array of the announced length. */
module Base64 {
  import opened Bits
  import opened Options

  type Byte = n: nat | n < 256
  type Sextet = n: nat | n < 64

  const PAD: nat := 61
  const PIECE: nat := 16383

  // ---------- the alphabet, section 4 of RFC 4648 ----------

  /** The character code of a value. */
  function Letter(v: Sextet): (c: nat)
    ensures c != PAD
  {
    if v < 26 then 65 + v else if v < 52 then 97 + (v - 26) else if v < 62 then 48 + (v - 52) else if v == 62 then 43 else 47
  }

  /** The value of a character code; the URL-safe alphabet of section 5 is read too, and what is in neither alphabet
      reads as 0. */
  function Value(c: nat): Sextet {
    if 65 <= c <= 90 then c - 65
    else if 97 <= c <= 122 then c - 97 + 26
    else if 48 <= c <= 57 then c - 48 + 52
    else if c == 43 || c == 45 then 62
    else if c == 47 || c == 95 then 63
    else 0
  }

  /** The alphabet of section 4 in its order, by its characters. */
  lemma LettersInOrder(v: Sextet)
    ensures v < 26 ==> Letter(v) == 'A' as nat + v
    ensures 26 <= v < 52 ==> Letter(v) == 'a' as nat + v - 26
    ensures 52 <= v < 62 ==> Letter(v) == '0' as nat + v - 52
    ensures v == 62 ==> Letter(v) == '+' as nat
    ensures v == 63 ==> Letter(v) == '/' as nat
  {
  }

  lemma ValueOfLetter(v: Sextet)
    ensures Value(Letter(v)) == v
  {
  }

  /** A character that does not read as 0 is the letter of its value, or one of the two of the URL-safe alphabet. */
  lemma ValueElsewhere(c: nat)
    ensures Value(c) == 0 || Letter(Value(c)) == c || (c == '-' as nat && Value(c) == 62) || (c == '_' as nat && Value(c) == 63)
  {
  }

  // ---------- groups ----------

  /** Three bytes as four characters. */
  function Group(x: Byte, y: Byte, z: Byte): (g: seq<nat>)
    ensures |g| == 4
  {
    [Letter(x / 4), Letter(x % 4 * 16 + y / 16), Letter(y % 16 * 4 + z / 64), Letter(z % 64)]
  }

  /** Four values as three bytes. */
  function Ungroup(a: Sextet, b: Sextet, c: Sextet, d: Sextet): (g: seq<Byte>)
    ensures |g| == 3
  {
    [a * 4 + b / 16, b % 16 * 16 + c / 4, c % 4 * 64 + d]
  }

  function Encoded(b: seq<Byte>): seq<nat> {
    if b == [] then []
    else if |b| == 1 then [Letter(b[0] / 4), Letter(b[0] % 4 * 16), PAD, PAD]
    else if |b| == 2 then [Letter(b[0] / 4), Letter(b[0] % 4 * 16 + b[1] / 16), Letter(b[1] % 16 * 4), PAD]
    else Group(b[0], b[1], b[2]) + Encoded(b[3..])
  }

  /** The bytes of the whole groups of a text. */
  function Ungrouped(t: seq<nat>, groups: nat): (b: seq<Byte>)
    requires 4 * groups <= |t|
    ensures |b| == 3 * groups
  {
    if groups == 0 then []
    else
      Ungrouped(t, groups - 1)
      + Ungroup(Value(t[4 * groups - 4]), Value(t[4 * groups - 3]), Value(t[4 * groups - 2]), Value(t[4 * groups - 1]))
  }

  lemma UngroupOfGroup(x: Byte, y: Byte, z: Byte)
    ensures
      var g := Group(x, y, z);
      Ungroup(Value(g[0]), Value(g[1]), Value(g[2]), Value(g[3])) == [x, y, z]
  {
    hide Letter, Value;
    ValueOfLetter(x / 4);
    ValueOfLetter(x % 4 * 16 + y / 16);
    ValueOfLetter(y % 16 * 4 + z / 64);
    ValueOfLetter(z % 64);
    Splits(x, y, z);
  }

  lemma Splits(x: Byte, y: Byte, z: Byte)
    ensures Ungroup(x / 4, x % 4 * 16 + y / 16, y % 16 * 4 + z / 64, z % 64) == [x, y, z]
  {
  }

  // ---------- lengths ----------

  /** Where the first pad stands, or the length of the text. */
  function Valid(t: seq<nat>): (n: nat)
    ensures n <= |t|
  {
    if t == [] || t[0] == PAD then 0 else 1 + Valid(t[1..])
  }

  function Holders(t: seq<nat>): (n: nat)
    ensures n <= 4
  {
    if Valid(t) == |t| then 0 else 4 - Valid(t) % 4
  }

  /** The groups decoded whole: all of them, or all but the last when there is a pad. */
  function WholeGroups(t: seq<nat>): (n: nat)
    ensures 4 * n <= |t|
  {
    if Holders(t) == 0 then |t| / 4 else if Valid(t) < 4 then 0 else (Valid(t) - 1) / 4
  }

  /** The bytes of the last, padded group. */
  function TailBytes(t: seq<nat>): seq<Byte> {
    var r := 4 * WholeGroups(t);
    if Holders(t) == 2 && r + 2 <= |t| then [Value(t[r]) * 4 + Value(t[r + 1]) / 16]
    else if Holders(t) == 1 && r + 3 <= |t| then
      [Value(t[r]) * 4 + Value(t[r + 1]) / 16, Value(t[r + 1]) % 16 * 16 + Value(t[r + 2]) / 4]
    else if Holders(t) == 4 && Valid(t) >= 4 then [0, 0]
    else []
  }

  function Decoded(t: seq<nat>): seq<Byte> {
    Ungrouped(t, WholeGroups(t)) + TailBytes(t)
  }

  // ---------- the bit operations ----------

  lemma Pow2s()
    ensures Pow2(2) == 4 && Pow2(4) == 16 && Pow2(6) == 64 && Pow2(8) == 256 && Pow2(10) == 1024
    ensures Pow2(12) == 4096 && Pow2(16) == 65536 && Pow2(18) == 262144
  {
    Pow2Add(8, 8);
    Pow2Add(8, 10);
  }

  /** Four values packed into 24 bits. */
  function Packed(a: Sextet, b: Sextet, c: Sextet, d: Sextet): nat {
    BitOr(BitOr(BitOr(Shl(a, 18), Shl(b, 12)), Shl(c, 6)), d)
  }

  lemma PackedIs(a: Sextet, b: Sextet, c: Sextet, d: Sextet)
    ensures Packed(a, b, c, d) == a * 262144 + b * 4096 + c * 64 + d
  {
    Pow2s();
    hide BitOr, Pow2;
    OrDisjoint(a, 18, b * 4096);
    OrDisjoint(a * 64 + b, 12, c * 64);
    OrDisjoint(a * 4096 + b * 64 + c, 6, d);
  }

  function LowByte(e: nat): Byte {
    e % 256
  }

  /** Masking with 255 leaves the low byte. */
  lemma LowByteIs(e: nat)
    ensures BitAnd(e, 255) == LowByte(e) && BitAnd(255, e) == LowByte(e)
  {
    assert Pow2(8) == 256;
    hide BitAnd, Pow2;
    AndMask(e, 8);
    AndCommutes(e, 255);
  }

  /** The three bytes taken out of 24 bits. */
  lemma BytesOfPacked(a: Sextet, b: Sextet, c: Sextet, d: Sextet)
    ensures
      var e := Packed(a, b, c, d);
      [LowByte(Shr(e, 16)), LowByte(Shr(e, 8)), LowByte(e)] == Ungroup(a, b, c, d)
  {
    hide Packed, LowByte, Shr;
    PackedIs(a, b, c, d);
    var x, y, z := a * 4 + b / 16, b % 16 * 16 + c / 4, c % 4 * 64 + d;
    BytesOfNumber(x, y, z);
  }

  lemma BytesOfNumber(x: Byte, y: Byte, z: Byte)
    ensures
      var e := x * 65536 + y * 256 + z;
      LowByte(Shr(e, 16)) == x && LowByte(Shr(e, 8)) == y && LowByte(e) == z
  {
    Pow2s();
    hide Pow2;
    var e := x * 65536 + y * 256 + z;
    DivModUnique(e, 65536, x, y * 256 + z);
    DivModUnique(e, 256, x * 256 + y, z);
    DivModUnique(x * 256 + y, 256, x, y);
  }

  /** One byte out of the two values of a group with two pads. */
  lemma ByteOfTwo(a: Sextet, b: Sextet)
    ensures LowByte(BitOr(Shl(a, 2), Shr(b, 4))) == a * 4 + b / 16
  {
    Pow2s();
    hide BitOr, Pow2;
    OrDisjoint(a, 2, b / 16);
  }

  /** Two bytes out of the three values of a group with one pad. */
  lemma BytesOfThree(a: Sextet, b: Sextet, c: Sextet)
    ensures
      var e := BitOr(BitOr(Shl(a, 10), Shl(b, 4)), Shr(c, 2));
      LowByte(Shr(e, 8)) == a * 4 + b / 16 && LowByte(e) == b % 16 * 16 + c / 4
  {
    Pow2s();
    hide BitOr, Pow2;
    OrDisjoint(a, 10, b * 16);
    OrDisjoint(a * 64 + b, 4, c / 4);
    var e := BitOr(BitOr(Shl(a, 10), Shl(b, 4)), Shr(c, 2));
    var x, y := a * 4 + b / 16, b % 16 * 16 + c / 4;
    assert e == x * 256 + y;
    DivModUnique(e, 256, x, y);
  }

  // ---------- the decoder ----------

  method FirstPad(t: seq<nat>) returns (r: nat)
    ensures r == Valid(t)
  {
    r := 0;
    while r < |t| && t[r] != PAD
      invariant r <= |t| && Valid(t) == r + Valid(t[r..])
    {
      assert t[r..][1..] == t[r + 1..];
      r := r + 1;
    }
  }

  /** The length of a text without its pads, and how many characters stand for pads; none when the length of the text
      is no multiple of four. */
  method Lengths(t: seq<nat>) returns (lens: Option<(nat, nat)>)
    ensures lens == if |t| % 4 > 0 then None else Some((Valid(t), Holders(t)))
  {
    if |t| % 4 > 0 {
      return None;
    }
    var r := FirstPad(t);
    lens := Some((r, if r == |t| then 0 else 4 - r % 4));
  }

  /** The announced length: negative for a text that starts with a pad. */
  function ByteLength(f: nat, u: nat): int {
    (f + u) * 3 / 4 - u
  }

  lemma AnnouncedLength(t: seq<nat>)
    requires |t| % 4 == 0
    ensures Valid(t) == 0 && t != [] ==> ByteLength(Valid(t), Holders(t)) == -1
    ensures Valid(t) > 0 || t == [] ==> ByteLength(Valid(t), Holders(t)) == |Decoded(t)|
  {
    hide WholeGroups, TailBytes, Valid;
    ValidFirst(t);
    if Valid(t) > 0 || t == [] {
      LoopBound(t);
    }
  }

  /** How far the loop over whole groups runs. */
  lemma LoopBound(t: seq<nat>)
    requires |t| % 4 == 0 && (Valid(t) > 0 || t == [])
    ensures
      var g, u := WholeGroups(t), Holders(t);
      var l := if u > 0 then Valid(t) - 4 else Valid(t);
      && (if g == 0 then l <= 0 else 4 * g - 4 < l <= 4 * g)
      && ByteLength(Valid(t), u) == 3 * g + |TailBytes(t)|
      && (u == 1 || u == 2 ==> 4 * g + 3 <= |t| && |TailBytes(t)| == 3 - u)
      && (u != 1 && u != 2 ==> TailBytes(t) == seq(|TailBytes(t)|, _ => 0))
  {
    hide Value, Valid;
    var f, k := Valid(t), Valid(t) / 4;
    if f == |t| {
      assert f * 3 / 4 == 3 * k;
    } else {
      assert (f + Holders(t)) * 3 / 4 == 3 * (k + 1);
    }
  }

  /** The whole groups, three bytes each, into a zeroed array. */
  method UngroupInto(t: seq<nat>, l: int, bytes: array<Byte>, ghost groups: nat) returns (a: nat, r: nat)
    requires 4 * groups <= |t| && 3 * groups <= bytes.Length
    requires if groups == 0 then l <= 0 else 4 * groups - 4 < l <= 4 * groups
    requires forall k :: 0 <= k < bytes.Length ==> bytes[k] == 0
    modifies bytes
    ensures a == 3 * groups && r == 4 * groups && bytes[..a] == Ungrouped(t, groups)
    ensures forall k :: a <= k < bytes.Length ==> bytes[k] == 0
  {
    hide Value, Packed, Ungroup, LowByte, Shr;
    a, r := 0, 0;
    ghost var g: nat := 0;
    while r < l
      invariant g <= groups && r == 4 * g && a == 3 * g
      invariant bytes[..a] == Ungrouped(t, g) && forall k :: a <= k < bytes.Length ==> bytes[k] == 0
    {
      var e := Packed(Value(t[r]), Value(t[r + 1]), Value(t[r + 2]), Value(t[r + 3]));
      BytesOfPacked(Value(t[r]), Value(t[r + 1]), Value(t[r + 2]), Value(t[r + 3]));
      ghost var sofar := bytes[..a];
      bytes[a], bytes[a + 1], bytes[a + 2] := LowByte(Shr(e, 16)), LowByte(Shr(e, 8)), LowByte(e);
      assert bytes[..a + 3] == sofar + [LowByte(Shr(e, 16)), LowByte(Shr(e, 8)), LowByte(e)];
      a, r, g := a + 3, r + 4, g + 1;
    }
  }

  /** Decode a text. A length that is no multiple of four, and an announced length below zero, throw. */
  method ToByteArray(t: seq<nat>) returns (h: Option<array<Byte>>)
    ensures h.Some? <==> |t| % 4 == 0 && (t == [] || t[0] != PAD)
    ensures h.Some? ==> fresh(h.value) && h.value[..] == Decoded(t)
  {
    hide Value, Valid, Holders, WholeGroups, Ungrouped, LowByte, BitOr, Shl, Shr;
    var lens := Lengths(t);
    ValidFirst(t);
    if lens == None {
      return None;
    }
    var (f, u) := lens.value;
    AnnouncedLength(t);
    if ByteLength(f, u) < 0 {
      return None;
    }
    LoopBound(t);
    var bytes := new Byte[ByteLength(f, u)](_ => 0);
    var a, r := UngroupInto(t, if u > 0 then f - 4 else f, bytes, WholeGroups(t));
    ghost var whole := bytes[..a];
    if u == 2 {
      ByteOfTwo(Value(t[r]), Value(t[r + 1]));
      bytes[a] := LowByte(BitOr(Shl(Value(t[r]), 2), Shr(Value(t[r + 1]), 4)));
    }
    if u == 1 {
      var e := BitOr(BitOr(Shl(Value(t[r]), 10), Shl(Value(t[r + 1]), 4)), Shr(Value(t[r + 2]), 2));
      BytesOfThree(Value(t[r]), Value(t[r + 1]), Value(t[r + 2]));
      bytes[a], bytes[a + 1] := LowByte(Shr(e, 8)), LowByte(e);
    }
    assert bytes[..] == whole + TailBytes(t);
    h := Some(bytes);
  }

  lemma ValidFirst(t: seq<nat>)
    ensures Valid(t) == 0 <==> t == [] || t[0] == PAD
  {
  }

  // ---------- the encoder ----------

  /** Six bits of a packed triple. */
  function Sixth(i: nat, shift: nat): nat {
    BitAnd(Shr(i, shift), 63)
  }

  lemma SixthIs(x: nat)
    ensures BitAnd(x, 63) == x % 64 && BitAnd(63, x) == x % 64
  {
    assert Pow2(6) == 64;
    hide BitAnd, Pow2;
    AndMask(x, 6);
    AndCommutes(x, 63);
  }

  lemma {:induction false} AndShl(x: nat, m: nat, k: nat)
    ensures BitAnd(Shl(x, k), Shl(m, k)) == Shl(BitAnd(x, m), k)
  {
    if k > 0 {
      ShlNext(x, k);
      ShlNext(m, k);
      ShlNext(BitAnd(x, m), k);
      AndShl(x, m, k - 1);
      hide Shl;
      AndDouble(Shl(x, k - 1), Shl(m, k - 1));
    }
  }

  lemma ShlNext(x: nat, k: nat)
    requires k > 0
    ensures Shl(x, k) == 2 * Shl(x, k - 1)
  {
    assert x * Pow2(k) == 2 * (x * Pow2(k - 1));
  }

  lemma AndDouble(a: nat, b: nat)
    ensures BitAnd(2 * a, 2 * b) == 2 * BitAnd(a, b)
  {
  }

  /** Three bytes packed into 24 bits. */
  function Triple(x: Byte, y: Byte, z: Byte): nat {
    BitAnd(Shl(x, 16), 0xFF0000) + BitAnd(Shl(y, 8), 65280) + BitAnd(255, z)
  }

  lemma TripleIs(x: Byte, y: Byte, z: Byte)
    ensures Triple(x, y, z) == x * 65536 + y * 256 + z
  {
    Pow2s();
    hide BitAnd, Pow2;
    assert 0xFF0000 == Shl(255, 16) && 65280 == Shl(255, 8);
    AndShl(x, 255, 16);
    AndShl(y, 255, 8);
    LowByteIs(x);
    LowByteIs(y);
    LowByteIs(z);
  }

  lemma SixthsOfTriple(x: Byte, y: Byte, z: Byte)
    ensures
      var i := Triple(x, y, z);
      && Sixth(i, 18) == x / 4 && Sixth(i, 12) == x % 4 * 16 + y / 16
      && Sixth(i, 6) == y % 16 * 4 + z / 64 && BitAnd(63, i) == z % 64
  {
    hide BitAnd, Triple;
    TripleIs(x, y, z);
    Pow2s();
    hide Pow2;
    var i := Triple(x, y, z);
    var a, b, c, d := x / 4, x % 4 * 16 + y / 16, y % 16 * 4 + z / 64, z % 64;
    assert i == a * 262144 + b * 4096 + c * 64 + d;
    DivModUnique(i, 262144, a, b * 4096 + c * 64 + d);
    DivModUnique(i, 4096, a * 64 + b, c * 64 + d);
    DivModUnique(i, 64, a * 4096 + b * 64 + c, d);
    DivModUnique(a * 64 + b, 64, a, b);
    DivModUnique(a * 4096 + b * 64 + c, 64, a * 64 + b, c);
    SixthIs(a);
    SixthIs(a * 64 + b);
    SixthIs(a * 4096 + b * 64 + c);
    SixthIs(i);
  }

  lemma {:induction false} EncodedConcat(x: seq<Byte>, y: seq<Byte>)
    requires |x| % 3 == 0
    ensures Encoded(x + y) == Encoded(x) + Encoded(y)
  {
    if x == [] {
      assert x + y == y;
    } else {
      assert (x + y)[3..] == x[3..] + y;
      EncodedConcat(x[3..], y);
      assert Encoded(x) == Group(x[0], x[1], x[2]) + Encoded(x[3..]);
    }
  }

  lemma EncodedTriple(x: Byte, y: Byte, z: Byte)
    ensures Encoded([x, y, z]) == Group(x, y, z)
  {
    assert [x, y, z][3..] == [];
  }

  /** One piece: bytes e to n, a multiple of three. */
  method EncodePiece(t: seq<Byte>, e: nat, n: nat) returns (o: seq<nat>)
    requires e <= n <= |t| && (n - e) % 3 == 0
    ensures o == Encoded(t[e..n])
  {
    hide Encoded, Letter, Sixth, Triple, BitAnd;
    o := [];
    EncodedNone();
    assert t[e..e] == [];
    var f := e;
    while f < n
      invariant e <= f <= n && (n - f) % 3 == 0 && (f - e) % 3 == 0 && o == Encoded(t[e..f])
    {
      var i := Triple(t[f], t[f + 1], t[f + 2]);
      SixthsOfTriple(t[f], t[f + 1], t[f + 2]);
      o := o + [Letter(Sixth(i, 18)), Letter(Sixth(i, 12)), Letter(Sixth(i, 6)), Letter(BitAnd(63, i))];
      assert t[e..f + 3] == t[e..f] + [t[f], t[f + 1], t[f + 2]];
      EncodedConcat(t[e..f], [t[f], t[f + 1], t[f + 2]]);
      EncodedTriple(t[f], t[f + 1], t[f + 2]);
      f := f + 3;
    }
  }

  lemma EncodedNone()
    ensures Encoded([]) == []
  {
  }

  lemma TailOfOne(x: Byte)
    ensures Shr(x, 2) == x / 4 && BitAnd(Shl(x, 4), 63) == x % 4 * 16
  {
    Pow2s();
    hide BitAnd, Pow2;
    SixthIs(x * 16);
    DivModUnique(x * 16, 64, x / 4, x % 4 * 16);
  }

  lemma TailOfTwo(x: Byte, y: Byte)
    ensures
      var e := Shl(x, 8) + y;
      Shr(e, 10) == x / 4 && BitAnd(Shr(e, 4), 63) == x % 4 * 16 + y / 16 && BitAnd(Shl(e, 2), 63) == y % 16 * 4
  {
    Pow2s();
    hide BitAnd, Pow2;
    var e := x * 256 + y;
    DivModUnique(e, 1024, x / 4, x % 4 * 256 + y);
    DivModUnique(e, 16, x * 16 + y / 16, y % 16);
    SixthIs(x * 16 + y / 16);
    DivModUnique(x * 16 + y / 16, 64, x / 4, x % 4 * 16 + y / 16);
    SixthIs(e * 4);
    DivModUnique(e * 4, 64, x * 16 + y / 16, y % 16 * 4);
  }

  /** Encode bytes: pieces of 16383, then one or two bytes over with their pads. */
  method FromByteArray(t: seq<Byte>) returns (o: seq<nat>)
    ensures o == Encoded(t)
  {
    hide Encoded, Letter, BitAnd, Shl, Shr;
    var n := |t|;
    var i := n % 3;
    var u := n - i;
    o := [];
    EncodedNone();
    assert t[..0] == [];
    var f := 0;
    while f < u
      invariant f % 3 == 0 && o == Encoded(t[..if f > u then u else f])
    {
      var e := if f + PIECE > u then u else f + PIECE;
      var piece := EncodePiece(t, f, e);
      assert t[..e] == t[..f] + t[f..e];
      EncodedConcat(t[..f], t[f..e]);
      o, f := o + piece, f + PIECE;
    }
    assert t == t[..u] + t[u..];
    EncodedConcat(t[..u], t[u..]);
    if i == 1 {
      var e: nat := t[n - 1];
      TailOfOne(t[n - 1]);
      o := o + [Letter(Shr(e, 2)), Letter(BitAnd(Shl(e, 4), 63)), PAD, PAD];
      assert t[u..] == [t[n - 1]];
      EncodedOne(t[n - 1]);
    } else if i == 2 {
      var e := Shl(t[n - 2], 8) + t[n - 1];
      TailOfTwo(t[n - 2], t[n - 1]);
      o := o + [Letter(Shr(e, 10)), Letter(BitAnd(Shr(e, 4), 63)), Letter(BitAnd(Shl(e, 2), 63)), PAD];
      assert t[u..] == [t[n - 2], t[n - 1]];
      EncodedTwo(t[n - 2], t[n - 1]);
    } else {
      assert t[..u] == t;
    }
  }

  lemma EncodedOne(x: Byte)
    ensures Encoded([x]) == [Letter(x / 4), Letter(x % 4 * 16), PAD, PAD]
  {
  }

  lemma EncodedTwo(x: Byte, y: Byte)
    ensures Encoded([x, y]) == [Letter(x / 4), Letter(x % 4 * 16 + y / 16), Letter(y % 16 * 4), PAD]
  {
  }

  // ---------- there and back ----------

  predicate NoPad(t: seq<nat>) {
    forall i | 0 <= i < |t| :: t[i] != PAD
  }

  lemma {:induction false} WholeEncoded(b: seq<Byte>)
    requires |b| % 3 == 0
    ensures |Encoded(b)| == |b| / 3 * 4 && NoPad(Encoded(b))
  {
    if b != [] {
      WholeEncoded(b[3..]);
      assert Encoded(b) == Group(b[0], b[1], b[2]) + Encoded(b[3..]);
    }
  }

  /** A group in the middle of an encoding. */
  lemma EncodedAround(b: seq<Byte>, q: nat)
    requires 3 * q + 3 <= |b|
    ensures |Encoded(b)| >= 4 * q + 4
    ensures Encoded(b)[4 * q..4 * q + 4] == Group(b[3 * q], b[3 * q + 1], b[3 * q + 2])
  {
    hide Encoded;
    var x, y, z := b[..3 * q], [b[3 * q], b[3 * q + 1], b[3 * q + 2]], b[3 * q + 3..];
    assert b == x + (y + z);
    EncodedConcat(x, y + z);
    EncodedConcat(y, z);
    WholeEncoded(x);
    EncodedTriple(b[3 * q], b[3 * q + 1], b[3 * q + 2]);
  }

  lemma {:induction false} UngroupEncoded(b: seq<Byte>, q: nat)
    requires 3 * q <= |b|
    ensures |Encoded(b)| >= 4 * q && Ungrouped(Encoded(b), q) == b[..3 * q]
  {
    hide Encoded, Group, Ungroup, Value;
    if q > 0 {
      UngroupEncoded(b, q - 1);
      EncodedAround(b, q - 1);
      var g := Encoded(b)[4 * q - 4..4 * q];
      assert g[0] == Encoded(b)[4 * q - 4] && g[1] == Encoded(b)[4 * q - 3] && g[2] == Encoded(b)[4 * q - 2] && g[3] == Encoded(b)[4 * q - 1];
      UngroupOfGroup(b[3 * q - 3], b[3 * q - 2], b[3 * q - 1]);
      assert b[..3 * q] == b[..3 * q - 3] + [b[3 * q - 3], b[3 * q - 2], b[3 * q - 1]];
    }
  }

  lemma {:induction false} ValidConcat(x: seq<nat>, y: seq<nat>)
    requires NoPad(x)
    ensures Valid(x + y) == |x| + Valid(y)
  {
    if x == [] {
      assert x + y == y;
    } else {
      assert (x + y)[1..] == x[1..] + y && NoPad(x[1..]);
      ValidConcat(x[1..], y);
    }
  }

  /** The pads of an encoding tell how many bytes its last group stands for. */
  lemma EncodedLengths(b: seq<Byte>, q: nat, r: nat)
    requires |b| == 3 * q + r && r < 3
    ensures
      var t := Encoded(b);
      && |t| == 4 * q + (if r == 0 then 0 else 4)
      && Valid(t) == 4 * q + (if r == 0 then 0 else r + 1)
      && t[4 * q..] == Encoded(b[3 * q..])
  {
    hide Encoded, Valid;
    var x, y := b[..3 * q], b[3 * q..];
    assert b == x + y;
    EncodedConcat(x, y);
    WholeEncoded(x);
    assert |x| / 3 * 4 == 4 * q;
    ValidConcat(Encoded(x), Encoded(y));
    TailLengths(y);
  }

  lemma HoldersFrom(t: seq<nat>, q: nat, r: nat)
    requires r < 3 && |t| == 4 * q + (if r == 0 then 0 else 4) && Valid(t) == 4 * q + (if r == 0 then 0 else r + 1)
    ensures Holders(t) == (if r == 0 then 0 else 3 - r) && WholeGroups(t) == q
  {
    hide Valid;
    if r > 0 {
      DivModUnique(4 * q + r + 1, 4, q, r + 1);
      DivModUnique(4 * q + r, 4, q, r);
    }
  }

  lemma TailLengths(y: seq<Byte>)
    requires |y| < 3
    ensures |Encoded(y)| == (if y == [] then 0 else 4) && Valid(Encoded(y)) == if y == [] then 0 else |y| + 1
  {
    if |y| == 1 {
      assert Encoded(y)[1..][1..][0] == PAD;
    } else if |y| == 2 {
      var e := Encoded(y);
      assert e[1..][1..][1..][0] == PAD;
      assert Valid(e[1..][1..][1..]) == 0;
      assert Valid(e[1..][1..]) == 1 && Valid(e[1..]) == 2;
    }
  }

  /** Decoding an encoding gives the bytes back, for all three lengths of the last group. */
  lemma DecodedOfEncoded(b: seq<Byte>)
    ensures Decoded(Encoded(b)) == b && |Encoded(b)| % 4 == 0
    ensures Valid(Encoded(b)) > 0 || Encoded(b) == []
  {
    hide Encoded, Valid, Holders, WholeGroups, Ungrouped, TailBytes;
    var q, r := |b| / 3, |b| % 3;
    EncodedLengths(b, q, r);
    HoldersFrom(Encoded(b), q, r);
    UngroupEncoded(b, q);
    TailBytesOfEncoded(b, q, r);
    assert b == b[..3 * q] + b[3 * q..];
  }

  lemma TailBytesFrom(t: seq<nat>, q: nat, r: nat)
    requires r < 3 && WholeGroups(t) == q && Holders(t) == (if r == 0 then 0 else 3 - r)
    requires |t| == 4 * q + (if r == 0 then 0 else 4)
    ensures r == 0 ==> TailBytes(t) == []
    ensures r == 1 ==> TailBytes(t) == [Value(t[4 * q]) * 4 + Value(t[4 * q + 1]) / 16]
    ensures r == 2 ==>
      TailBytes(t) == [Value(t[4 * q]) * 4 + Value(t[4 * q + 1]) / 16, Value(t[4 * q + 1]) % 16 * 16 + Value(t[4 * q + 2]) / 4]
  {
    hide Holders, WholeGroups, Value;
  }

  lemma TailBytesOfEncoded(b: seq<Byte>, q: nat, r: nat)
    requires |b| == 3 * q + r && r < 3
    ensures TailBytes(Encoded(b)) == b[3 * q..]
  {
    hide Encoded, Valid, Holders, WholeGroups, Value, TailBytes;
    var t := Encoded(b);
    EncodedLengths(b, q, r);
    HoldersFrom(t, q, r);
    TailBytesFrom(t, q, r);
    TailOfEncoded(b[3 * q..]);
    if r > 0 {
      LastGroup(t, 4 * q);
    } else {
      assert b[3 * q..] == [];
    }
  }

  lemma LastGroup(t: seq<nat>, k: nat)
    requires |t| == k + 4
    ensures t[k..][0] == t[k] && t[k..][1] == t[k + 1] && t[k..][2] == t[k + 2]
  {
  }

  lemma TailOfEncoded(y: seq<Byte>)
    requires |y| < 3
    ensures
      var t := Encoded(y);
      && (|y| == 1 ==> |t| == 4 && [Value(t[0]) * 4 + Value(t[1]) / 16] == y)
      && (|y| == 2 ==> |t| == 4 && [Value(t[0]) * 4 + Value(t[1]) / 16, Value(t[1]) % 16 * 16 + Value(t[2]) / 4] == y)
  {
    hide Letter, Value;
    if |y| == 1 {
      ValueOfLetter(y[0] / 4);
      ValueOfLetter(y[0] % 4 * 16);
    } else if |y| == 2 {
      ValueOfLetter(y[0] / 4);
      ValueOfLetter(y[0] % 4 * 16 + y[1] / 16);
      ValueOfLetter(y[1] % 16 * 4);
    }
  }

  /** The inverse pair. */
  method BytesAndBack(b: seq<Byte>) returns (h: array<Byte>)
    ensures h[..] == b
  {
    var t := FromByteArray(b);
    DecodedOfEncoded(b);
    ValidFirst(t);
    var bytes := ToByteArray(t);
    h := bytes.value;
  }

  /** The text with the characters of the URL-safe alphabet. */
  function UrlSafe(t: seq<nat>): (r: seq<nat>)
    ensures |r| == |t|
  {
    seq(|t|, i requires 0 <= i < |t| => if t[i] == 43 then 45 else if t[i] == 47 then 95 else t[i])
  }

  lemma {:induction false} ValidUrlSafe(t: seq<nat>)
    ensures Valid(UrlSafe(t)) == Valid(t)
  {
    if t != [] {
      ValidUrlSafe(t[1..]);
      assert UrlSafe(t)[1..] == UrlSafe(t[1..]);
    }
  }

  lemma {:induction false} UngroupedUrlSafe(t: seq<nat>, groups: nat)
    requires 4 * groups <= |t|
    ensures Ungrouped(UrlSafe(t), groups) == Ungrouped(t, groups)
  {
    if groups > 0 {
      UngroupedUrlSafe(t, groups - 1);
      assert forall i | 0 <= i < |t| :: Value(UrlSafe(t)[i]) == Value(t[i]);
    }
  }

  /** Both alphabets decode alike. */
  lemma UrlSafeDecodes(t: seq<nat>)
    ensures Decoded(UrlSafe(t)) == Decoded(t)
  {
    ValidUrlSafe(t);
    hide Valid, Ungrouped;
    UngroupedUrlSafe(t, WholeGroups(t));
    assert forall i | 0 <= i < |t| :: Value(UrlSafe(t)[i]) == Value(t[i]);
  }
}
