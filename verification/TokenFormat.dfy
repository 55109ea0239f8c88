/** Length and distance codes (section 3.2.5 of RFC 1951) and their packing into one integer. */
module TokenFormat {
  import opened Bits

  // ---------- the format's tables ----------

  const LENGTH_BASE: seq<nat> :=
    [3, 4, 5, 6, 7, 8, 9, 10, 11, 13, 15, 17, 19, 23, 27, 31, 35, 43, 51, 59, 67, 83, 99, 115, 131, 163, 195, 227, 258]

  const DISTANCE_BASE: seq<nat> :=
    [1, 2, 3, 4, 5, 7, 9, 13, 17, 25, 33, 49, 65, 97, 129, 193, 257, 385, 513, 769, 1025, 1537, 2049, 3073,
     4097, 6145, 8193, 12289, 16385, 24577]

  // ---------- the encoder's tables ----------

  const LENGTH_EXTRA: seq<nat> :=
    [0, 0, 0, 0, 0, 0, 0, 0, 1, 1, 1, 1, 2, 2, 2, 2, 3, 3, 3, 3, 4, 4, 4, 4, 5, 5, 5, 5, 0, 0, 0, 0]

  const DISTANCE_EXTRA: seq<nat> :=
    [0, 0, 0, 0, 1, 1, 2, 2, 3, 3, 4, 4, 5, 5, 6, 6, 7, 7, 8, 8, 9, 9, 10, 10, 11, 11, 12, 12, 13, 13, 0, 0]

  /** Extra bits and base values by code; 0 beyond the tables. */
  function LenBits(code: nat): nat {
    if code < 29 then LENGTH_EXTRA[code] else 0
  }

  function DistBits(code: nat): nat {
    if code < 30 then DISTANCE_EXTRA[code] else 0
  }

  function LenBase(code: nat): nat {
    if code < 29 then LENGTH_BASE[code] else 0
  }

  function DistBase(code: nat): nat {
    if code < 30 then DISTANCE_BASE[code] else 0
  }

  /** The r-th base: each code covers 2^extra values after the previous base. */
  function Base(extra: seq<nat>, t: nat, r: nat): nat
    requires r <= |extra|
  {
    if r == 0 then t + 1 else Base(extra, t, r - 1) + Pow2(extra[r - 1])
  }

  lemma {:induction false} BaseGrows(extra: seq<nat>, t: nat, a: nat, b: nat)
    requires a <= b <= |extra|
    ensures Base(extra, t, a) + (b - a) <= Base(extra, t, b)
  {
    if a < b {
      BaseGrows(extra, t, a, b - 1);
    }
  }

  /** Entry o is (offset from its base) << 5 | code. */
  ghost predicate CodeEntry(extra: seq<nat>, t: nat, o: nat, entry: nat) {
    exists r :: 0 <= r < |extra| && InClass(extra, t, o, entry, r)
  }

  ghost predicate InClass(extra: seq<nat>, t: nat, o: nat, entry: nat, r: nat)
    requires r < |extra|
  {
    && Base(extra, t, r) <= o < Base(extra, t, r + 1)
    && entry == (o - Base(extra, t, r)) * 32 + r
  }

  method BuildBases(extra: seq<nat>, t: nat) returns (n: array<nat>)
    requires |extra| == 32 && forall k :: 0 <= k < 32 ==> extra[k] <= 13
    ensures fresh(n) && n.Length == 31
    ensures forall r :: 0 <= r < 31 ==> n[r] == Base(extra, t, r)
  {
    n := new nat[31];
    var sum := t;
    for r := 0 to 31
      invariant sum == if r == 0 then t else Base(extra, t, r - 1)
      invariant forall k :: 0 <= k < r ==> n[k] == Base(extra, t, k)
    {
      sum := sum + if r == 0 then 1 else OneShl(extra[r - 1]);
      n[r] := sum;
    }
  }

  /** The lookup from a value to its packed code, class by class. */
  method BuildReverse(extra: seq<nat>, t: nat, n: array<nat>) returns (i: array<nat>)
    requires |extra| == 32 && extra[0] == 0 && n.Length == 31
    requires forall r :: 0 <= r < 31 ==> n[r] == Base(extra, t, r)
    ensures fresh(i) && i.Length == Base(extra, t, 30)
    ensures forall o :: t < o < i.Length ==> CodeEntry(extra, t, o, i[o])
  {
    i := new nat[n[30]](_ => 0);
    assert Base(extra, t, 1) == t + 2;
    assert InClass(extra, t, t + 1, 0, 0);
    BaseGrows(extra, t, 1, 30);
    for r := 1 to 30
      invariant n[r] <= i.Length
      invariant forall o :: t < o < n[r] ==> CodeEntry(extra, t, o, i[o])
    {
      BaseGrows(extra, t, r, r + 1);
      BaseGrows(extra, t, r + 1, 30);
      FillClass(extra, t, n, i, r);
    }
  }

  /** All values of class r. */
  method FillClass(extra: seq<nat>, t: nat, n: array<nat>, i: array<nat>, r: nat)
    requires |extra| == 32 && n.Length == 31 && n != i && 1 <= r < 30
    requires n[r] == Base(extra, t, r) <= n[r + 1] == Base(extra, t, r + 1) <= i.Length
    modifies i
    ensures forall k :: 0 <= k < n[r] && k < i.Length ==> i[k] == old(i[k])
    ensures forall o :: n[r] <= o < n[r + 1] ==> CodeEntry(extra, t, o, i[o])
  {
    for o := n[r] to n[r + 1]
      invariant forall k :: 0 <= k < n[r] ==> i[k] == old(i[k])
      invariant forall k :: n[r] <= k < o ==> CodeEntry(extra, t, k, i[k])
    {
      i[o] := BitOr(Shl(o - n[r], 5), r);
      assert Pow2(5) == 32;
      OrDisjoint(o - n[r], 5, r);
      assert InClass(extra, t, o, i[o], r);
    }
  }

  // ---------- agreement with the format ----------

  lemma LengthStep(r: nat)
    requires 1 <= r < 28
    ensures LENGTH_BASE[r] == LENGTH_BASE[r - 1] + Pow2(LENGTH_EXTRA[r - 1])
  {
    hide Pow2;
    SmallPow2s();
    if r < 8 {
      assert LENGTH_EXTRA[r - 1] == 0;
    } else if r < 16 {
      LengthStepMiddle(r);
    } else {
      LengthStepHigh(r);
    }
  }

  lemma SmallPow2s()
    ensures Pow2(0) == 1 && Pow2(1) == 2 && Pow2(2) == 4 && Pow2(3) == 8 && Pow2(4) == 16 && Pow2(5) == 32
  {
  }

  lemma LengthStepMiddle(r: nat)
    requires 8 <= r < 16
    ensures LENGTH_BASE[r] == LENGTH_BASE[r - 1] + Pow2(LENGTH_EXTRA[r - 1])
  {
    hide Pow2;
    SmallPow2s();
  }

  lemma LengthStepHigh(r: nat)
    requires 16 <= r < 28
    ensures LENGTH_BASE[r] == LENGTH_BASE[r - 1] + Pow2(LENGTH_EXTRA[r - 1])
  {
    hide Pow2;
    SmallPow2s();
  }

  lemma DistanceStep(r: nat)
    requires 1 <= r < 30
    ensures DISTANCE_BASE[r] == DISTANCE_BASE[r - 1] + Pow2(DISTANCE_EXTRA[r - 1])
  {
    assert Pow2(0) == 1 && Pow2(1) == 2 && Pow2(2) == 4 && Pow2(3) == 8 && Pow2(4) == 16 && Pow2(5) == 32;
    assert Pow2(6) == 64 && Pow2(7) == 128 && Pow2(8) == 256 && Pow2(9) == 512 && Pow2(10) == 1024;
    assert Pow2(11) == 2048 && Pow2(12) == 4096 && Pow2(13) == 8192;
  }

  /** The generated bases are the format's; only length 258 has a code of its own there. */
  lemma {:induction false} LengthBases(r: nat)
    requires r < 28
    ensures Base(LENGTH_EXTRA, 2, r) == LENGTH_BASE[r]
  {
    if r > 0 {
      LengthBases(r - 1);
      LengthStep(r);
    }
  }

  lemma {:induction false} DistanceBases(r: nat)
    requires r < 30
    ensures Base(DISTANCE_EXTRA, 0, r) == DISTANCE_BASE[r]
  {
    if r > 0 {
      DistanceBases(r - 1);
      DistanceStep(r);
    }
  }

  lemma LastBases()
    ensures Base(LENGTH_EXTRA, 2, 28) == 259 && Base(LENGTH_EXTRA, 2, 30) == 261
    ensures Base(DISTANCE_EXTRA, 0, 30) == 32769
  {
    LengthBases(27);
    DistanceBases(29);
    assert Pow2(5) == 32 && Pow2(0) == 1;
    assert Base(LENGTH_EXTRA, 2, 28) == 227 + Pow2(LENGTH_EXTRA[27]);
    assert Base(LENGTH_EXTRA, 2, 29) == 259 + Pow2(LENGTH_EXTRA[28]);
    assert Pow2(13) == 8192;
    assert Base(DISTANCE_EXTRA, 0, 30) == 24577 + Pow2(DISTANCE_EXTRA[29]);
  }

  /** The packed entry names a length code and an extra value that decode to the length. */
  ghost predicate LengthEntry(length: nat, entry: nat) {
    var code, extra := entry % 32, entry / 32;
    code < 29 && extra < Pow2(LENGTH_EXTRA[code]) && LENGTH_BASE[code] + extra == length
  }

  ghost predicate DistanceEntry(distance: nat, entry: nat) {
    var code, extra := entry % 32, entry / 32;
    code < 30 && extra < Pow2(DISTANCE_EXTRA[code]) && DISTANCE_BASE[code] + extra == distance
  }

  lemma EntryIsLength(length: nat, entry: nat)
    requires 3 <= length < 258 && CodeEntry(LENGTH_EXTRA, 2, length, entry)
    ensures LengthEntry(length, entry)
  {
    var r :| 0 <= r < 32 && InClass(LENGTH_EXTRA, 2, length, entry, r);
    LastBases();
    if r >= 28 {
      BaseGrows(LENGTH_EXTRA, 2, 28, r);
    } else {
      LengthBases(r);
      DivModUnique(entry, 32, length - Base(LENGTH_EXTRA, 2, r), r);
    }
  }

  lemma EntryIsDistance(distance: nat, entry: nat)
    requires 1 <= distance < 32769 && CodeEntry(DISTANCE_EXTRA, 0, distance, entry)
    ensures DistanceEntry(distance, entry)
  {
    var r :| 0 <= r < 32 && InClass(DISTANCE_EXTRA, 0, distance, entry, r);
    LastBases();
    if r >= 30 {
      BaseGrows(DISTANCE_EXTRA, 0, 30, r);
    } else {
      DistanceBases(r);
      DivModUnique(entry, 32, distance - Base(DISTANCE_EXTRA, 0, r), r);
    }
  }

  /** The two lookups the encoder uses. */
  ghost predicate CodeTables(te: seq<nat>, tr: seq<nat>) {
    && |te| >= 259 && |tr| >= 32769
    && (forall length :: 3 <= length <= 258 ==> LengthEntry(length, te[length]))
    && (forall distance :: 1 <= distance <= 32768 ==> DistanceEntry(distance, tr[distance]))
  }

  lemma LengthTable(te: seq<nat>)
    requires |te| >= 259 && te[258] == 28
    requires forall o :: 2 < o < 258 ==> CodeEntry(LENGTH_EXTRA, 2, o, te[o])
    ensures forall length :: 3 <= length <= 258 ==> LengthEntry(length, te[length])
  {
    assert Pow2(LENGTH_EXTRA[28]) == 1;
    forall length | 3 <= length <= 258 ensures LengthEntry(length, te[length]) {
      if length < 258 {
        EntryIsLength(length, te[length]);
      }
    }
  }

  lemma DistanceTable(tr: seq<nat>)
    requires |tr| >= 32769 && forall o :: 0 < o < 32769 ==> CodeEntry(DISTANCE_EXTRA, 0, o, tr[o])
    ensures forall distance :: 1 <= distance <= 32768 ==> DistanceEntry(distance, tr[distance])
  {
    forall distance | 1 <= distance <= 32768 ensures DistanceEntry(distance, tr[distance]) {
      EntryIsDistance(distance, tr[distance]);
    }
  }

  lemma ExtraWidthsFit()
    ensures forall k :: 0 <= k < 32 ==> LENGTH_EXTRA[k] <= 13 && DISTANCE_EXTRA[k] <= 13
  {
  }

  method BuildCodeTables() returns (te: seq<nat>, tr: seq<nat>)
    ensures CodeTables(te, tr)
  {
    LastBases();
    ExtraWidthsFit();
    var n := BuildBases(LENGTH_EXTRA, 2);
    var i := BuildReverse(LENGTH_EXTRA, 2, n);
    te := i[..][258 := 28];
    LengthTable(te);
    n := BuildBases(DISTANCE_EXTRA, 0);
    i := BuildReverse(DISTANCE_EXTRA, 0, n);
    tr := i[..];
    DistanceTable(tr);
  }

  // ---------- packing a match into one integer ----------

  const MATCH_FLAG: nat := 0x10000000

  function PackMatch(lengthEntry: nat, distanceEntry: nat): nat {
    BitOr(BitOr(MATCH_FLAG, Shl(lengthEntry, 18)), distanceEntry)
  }

  predicate IsMatch(token: nat) {
    token > 255
  }

  function LengthCode(token: nat): nat {
    BitAnd(Shr(token, 18), 31)
  }

  function LengthExtra(token: nat): nat {
    BitAnd(Shr(token, 23), 31)
  }

  function DistanceCode(token: nat): nat {
    BitAnd(31, token)
  }

  function DistanceExtra(token: nat): nat {
    BitAnd(Shr(token, 5), 8191)
  }

  /** The same, in terms of the accessors of the tables. */
  lemma EntryFields(length: nat, le: nat, distance: nat, de: nat)
    requires LengthEntry(length, le) && DistanceEntry(distance, de)
    ensures le % 32 < 29 && le / 32 < Pow2(LenBits(le % 32)) && LenBase(le % 32) + le / 32 == length
    ensures de % 32 < 30 && de / 32 < Pow2(DistBits(de % 32)) && DistBase(de % 32) + de / 32 == distance
  {
  }

  lemma EntryBounds(length: nat, le: nat, distance: nat, de: nat)
    requires LengthEntry(length, le) && DistanceEntry(distance, de)
    ensures le < 1024 && de / 32 < 8192
  {
    Pow2Monotone(LENGTH_EXTRA[le % 32], 5);
    Pow2Monotone(DISTANCE_EXTRA[de % 32], 13);
    assert Pow2(5) == 32 && Pow2(13) == 8192;
  }

  /** A packed match gives back the length and distance its table entries were looked up for. */
  lemma PackedEntries(length: nat, le: nat, distance: nat, de: nat)
    requires LengthEntry(length, le) && DistanceEntry(distance, de)
    ensures
      var token := PackMatch(le, de);
      && IsMatch(token)
      && LengthCode(token) < 29 && LengthExtra(token) < Pow2(LenBits(LengthCode(token)))
      && LenBase(LengthCode(token)) + LengthExtra(token) == length
      && DistanceCode(token) < 30 && DistanceExtra(token) < Pow2(DistBits(DistanceCode(token)))
      && DistBase(DistanceCode(token)) + DistanceExtra(token) == distance
  {
    hide PackMatch, LengthCode, DistanceCode, LengthExtra, DistanceExtra, IsMatch;
    hide LengthEntry, DistanceEntry, LenBits, LenBase, DistBits, DistBase, Pow2;
    EntryBounds(length, le, distance, de);
    EntryFields(length, le, distance, de);
    UnpackMatch(le, de);
  }

  lemma PackedValue(le: nat, de: nat)
    requires le < 1024 && de / 32 < 8192
    ensures PackMatch(le, de) == (1024 + le) * 262144 + de
    ensures de < 262144
  {
    assert Pow2(5) == 32 && Pow2(8) == 256 && Pow2(10) == 1024;
    Pow2Add(8, 10);
    Pow2Add(18, 10);
    assert le * Pow2(18) < Pow2(28);
    OrDisjoint(1, 28, le * Pow2(18));
    OrDisjoint(1024 + le, 18, de);
    assert BitOr(MATCH_FLAG, Shl(le, 18)) == (1024 + le) * Pow2(18);
  }

  /** A packed match comes apart into the fields it was made of. */
  lemma UnpackMatch(le: nat, de: nat)
    requires le < 1024 && de / 32 < 8192
    ensures var token := PackMatch(le, de);
            && IsMatch(token)
            && LengthCode(token) == le % 32 && LengthExtra(token) == le / 32
            && DistanceCode(token) == de % 32 && DistanceExtra(token) == de / 32
  {
    hide PackMatch, LengthCode, LengthExtra, DistanceCode, DistanceExtra;
    PackedValue(le, de);
    UnpackLength(PackMatch(le, de), le, de);
    UnpackDistance(PackMatch(le, de), le, de);
  }

  lemma UnpackLength(token: nat, le: nat, de: nat)
    requires le < 1024 && de < 262144 && token == (1024 + le) * 262144 + de
    ensures LengthCode(token) == le % 32 && LengthExtra(token) == le / 32
  {
    assert Pow2(5) == 32 && Pow2(8) == 256 && Pow2(10) == 1024;
    Pow2Add(8, 10);
    Pow2Add(18, 5);
    hide Pow2, BitAnd;
    DivModUnique(token, 262144, 1024 + le, de);
    DivModUnique(token, 8388608, 32 + le / 32, le % 32 * 262144 + de);
    AndMask(Shr(token, 18), 5);
    AndMask(Shr(token, 23), 5);
    DivModUnique(1024 + le, 32, 32 + le / 32, le % 32);
    DivModUnique(32 + le / 32, 32, 1, le / 32);
  }

  lemma UnpackDistance(token: nat, le: nat, de: nat)
    requires de < 262144 && token == (1024 + le) * 262144 + de
    ensures DistanceCode(token) == de % 32 && DistanceExtra(token) == de / 32
  {
    assert Pow2(5) == 32 && Pow2(8) == 256;
    Pow2Add(8, 5);
    hide Pow2, BitAnd;
    DivModUnique(token, 32, (1024 + le) * 8192 + de / 32, de % 32);
    AndMask(Shr(token, 5), 13);
    AndCommutes(31, token);
    AndMask(token, 5);
    DivModUnique((1024 + le) * 8192 + de / 32, 8192, 1024 + le, de / 32);
  }
}
