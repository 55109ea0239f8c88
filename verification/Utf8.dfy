/** UTF-8 and UTF-16 as sequences of Unicode scalar values, and the buffer's encoder and decoder between them. */
module Utf8 {
  import opened Bits
  import opened Options

  type Byte = n: nat | n < 256
  type Unit = n: nat | n < 0x10000
  type Scalar = n: nat | n < 0x110000 && !(0xD800 <= n < 0xE000)

  const REPLACEMENT: Scalar := 0xFFFD

  // ---------- the two encoding forms ----------

  /** Section 3 of RFC 3629. */
  function Utf8One(c: Scalar): (r: seq<Byte>)
    ensures 1 <= |r| <= 4
  {
    if c < 0x80 then [c]
    else if c < 0x800 then [0xC0 + c / 64, 0x80 + c % 64]
    else if c < 0x10000 then [0xE0 + c / 4096, 0x80 + c / 64 % 64, 0x80 + c % 64]
    else [0xF0 + c / 0x40000, 0x80 + c / 4096 % 64, 0x80 + c / 64 % 64, 0x80 + c % 64]
  }

  /** Section 2.1 of RFC 2781. */
  function Utf16One(c: Scalar): (r: seq<Unit>)
    ensures 1 <= |r| <= 2
  {
    if c < 0x10000 then [c] else [0xD800 + (c - 0x10000) / 1024, 0xDC00 + (c - 0x10000) % 1024]
  }

  function Utf8(cs: seq<Scalar>): seq<Byte> {
    if cs == [] then [] else Utf8One(cs[0]) + Utf8(cs[1..])
  }

  function Utf16(cs: seq<Scalar>): seq<Unit> {
    if cs == [] then [] else Utf16One(cs[0]) + Utf16(cs[1..])
  }

  lemma {:induction false} Utf8Append(cs: seq<Scalar>, c: Scalar)
    ensures Utf8(cs + [c]) == Utf8(cs) + Utf8One(c)
  {
    if cs == [] {
      assert cs + [c] == [c] && [c][1..] == [];
    } else {
      assert (cs + [c])[1..] == cs[1..] + [c];
      Utf8Append(cs[1..], c);
    }
  }

  lemma {:induction false} Utf16Append(cs: seq<Scalar>, c: Scalar)
    ensures Utf16(cs + [c]) == Utf16(cs) + Utf16One(c)
  {
    if cs == [] {
      assert cs + [c] == [c] && [c][1..] == [];
    } else {
      assert (cs + [c])[1..] == cs[1..] + [c];
      Utf16Append(cs[1..], c);
    }
  }

  // ---------- reading UTF-8 ----------

  predicate Trail(b: Byte) {
    0x80 <= b < 0xC0
  }

  /** The number four digits in base 64 spell. */
  function Spell(p: nat, q: nat, r: nat, s: nat): (n: nat) {
    p * 0x40000 + q * 4096 + r * 64 + s
  }

  /** The character that bytes begin with, if they begin with one. */
  function FirstChar(b: seq<Byte>): (c: Option<Scalar>) {
    if b == [] then None
    else if b[0] < 0x80 then Some(b[0])
    else if b[0] < 0xC0 then None
    else if b[0] < 0xE0 then
      if |b| >= 2 && Trail(b[1]) then Checked(Spell(0, 0, b[0] - 0xC0, b[1] - 0x80), 0x80) else None
    else if b[0] < 0xF0 then
      if |b| >= 3 && Trail(b[1]) && Trail(b[2]) then
        Checked(Spell(0, b[0] - 0xE0, b[1] - 0x80, b[2] - 0x80), 0x800)
      else None
    else
      if |b| >= 4 && Trail(b[1]) && Trail(b[2]) && Trail(b[3]) then
        Checked(Spell(b[0] - 0xF0, b[1] - 0x80, b[2] - 0x80, b[3] - 0x80), 0x10000)
      else None
  }

  /** Not when it would be overlong, a surrogate, or beyond Unicode. */
  function Checked(n: nat, least: nat): Option<Scalar> {
    if least <= n < 0x110000 && !(0xD800 <= n < 0xE000) then Some(n) else None
  }

  lemma Spelled(p: nat, q: nat, r: nat, s: nat)
    requires q < 64 && r < 64 && s < 64
    ensures
      var n := Spell(p, q, r, s);
      n / 0x40000 == p && n / 4096 % 64 == q && n / 64 % 64 == r && n % 64 == s
  {
    var n := Spell(p, q, r, s);
    DivModUnique(n, 0x40000, p, q * 4096 + r * 64 + s);
    DivModUnique(n, 4096, p * 64 + q, r * 64 + s);
    DivModUnique(p * 64 + q, 64, p, q);
    DivModUnique(n, 64, p * 4096 + q * 64 + r, s);
    DivModUnique(p * 4096 + q * 64 + r, 64, p * 64 + q, r);
  }

  /** The encoding of a character, by its digits in base 64. */
  lemma Utf8OneSpells(c: Scalar)
    ensures c == Spell(c / 0x40000, c / 4096 % 64, c / 64 % 64, c % 64)
    ensures c < 0x10000 ==> c / 4096 % 64 == c / 4096 < 16 && c / 0x40000 == 0
    ensures c < 0x800 ==> c / 64 % 64 == c / 64 < 32 && c / 4096 == 0
  {
    var a, b, d := c / 64, c / 64 / 64, c / 64 / 64 / 64;
    DivModUnique(c, 4096, b, a % 64 * 64 + c % 64);
    DivModUnique(c, 0x40000, d, b % 64 * 4096 + a % 64 * 64 + c % 64);
  }

  /** Bytes that begin with the encoding of a character are read as that character. */
  lemma FirstCharOf(b: seq<Byte>, c: Scalar)
    requires Utf8One(c) <= b
    ensures FirstChar(b) == Some(c)
  {
    hide Spell;
    Utf8OneSpells(c);
    assert forall i | 0 <= i < |Utf8One(c)| :: b[i] == Utf8One(c)[i];
  }

  /** And bytes read as a character begin with its encoding. */
  lemma FirstCharReads(b: seq<Byte>, c: Scalar)
    requires FirstChar(b) == Some(c)
    ensures Utf8One(c) <= b
  {
    hide Utf8One;
    if b[0] >= 0xF0 {
      FourRead(b, c);
    } else if b[0] >= 0xE0 {
      ThreeRead(b, c);
    } else if b[0] >= 0xC0 {
      TwoRead(b, c);
    } else {
      OneRead(b, c);
    }
  }

  lemma OneRead(b: seq<Byte>, c: Scalar)
    requires b != [] && b[0] == c < 0x80
    ensures Utf8One(c) <= b
  {
  }

  lemma TwoRead(b: seq<Byte>, c: Scalar)
    requires |b| >= 2 && 0xC0 <= b[0] < 0xE0 && Trail(b[1]) && c == Spell(0, 0, b[0] - 0xC0, b[1] - 0x80) && c >= 0x80
    ensures Utf8One(c) <= b
  {
    Spelled(0, 0, b[0] - 0xC0, b[1] - 0x80);
    assert Utf8One(c) == b[..2];
  }

  lemma ThreeRead(b: seq<Byte>, c: Scalar)
    requires |b| >= 3 && 0xE0 <= b[0] < 0xF0 && Trail(b[1]) && Trail(b[2])
    requires c == Spell(0, b[0] - 0xE0, b[1] - 0x80, b[2] - 0x80) && c >= 0x800
    ensures Utf8One(c) <= b
  {
    Spelled(0, b[0] - 0xE0, b[1] - 0x80, b[2] - 0x80);
    assert Utf8One(c) == b[..3];
  }

  lemma FourRead(b: seq<Byte>, c: Scalar)
    requires |b| >= 4 && b[0] >= 0xF0 && Trail(b[1]) && Trail(b[2]) && Trail(b[3])
    requires c == Spell(b[0] - 0xF0, b[1] - 0x80, b[2] - 0x80, b[3] - 0x80) && c >= 0x10000
    ensures Utf8One(c) <= b
  {
    Spelled(b[0] - 0xF0, b[1] - 0x80, b[2] - 0x80, b[3] - 0x80);
    assert Utf8One(c) == b[..4];
  }

  /** The characters of any bytes: one that cannot be read stands for one byte. */
  function Scan(b: seq<Byte>): seq<Scalar>
    decreases |b|
  {
    if b == [] then []
    else
      var c := FirstChar(b);
      if c.None? then [REPLACEMENT] + Scan(b[1..])
      else
        FirstCharReads(b, c.value);
        [c.value] + Scan(b[|Utf8One(c.value)|..])
  }

  /** Reading what was written gives it back. */
  lemma {:induction false} ScanUtf8(cs: seq<Scalar>)
    ensures Scan(Utf8(cs)) == cs
  {
    if cs != [] {
      var one, b := Utf8One(cs[0]), Utf8(cs);
      assert b == one + Utf8(cs[1..]);
      FirstCharOf(b, cs[0]);
      assert b[|one|..] == Utf8(cs[1..]);
      ScanUtf8(cs[1..]);
    }
  }

  ghost predicate WellFormed8(b: seq<Byte>) {
    exists cs :: b == Utf8(cs)
  }

  /** So bytes are well formed exactly when writing what was read gives them back. */
  lemma WellFormedUtf8(b: seq<Byte>)
    ensures WellFormed8(b) <==> Utf8(Scan(b)) == b
  {
    if WellFormed8(b) {
      var cs :| b == Utf8(cs);
      ScanUtf8(cs);
    }
  }

  // ---------- reading UTF-16 ----------

  predicate LeadUnit(u: Unit) {
    0xD800 <= u < 0xDC00
  }

  predicate TrailUnit(u: Unit) {
    0xDC00 <= u < 0xE000
  }

  function Paired(lead: Unit, trail: Unit): (c: Scalar)
    requires LeadUnit(lead) && TrailUnit(trail)
    ensures c >= 0x10000 && Utf16One(c) == [lead, trail]
  {
    (lead - 0xD800) * 1024 + (trail - 0xDC00) + 0x10000
  }

  /** The characters of any units: a surrogate without its partner is unreadable. */
  function Repair(u: seq<Unit>): (cs: seq<Scalar>)
    ensures u != [] ==> cs != []
  {
    if u == [] then []
    else if LeadUnit(u[0]) then
      if |u| > 1 && TrailUnit(u[1]) then [Paired(u[0], u[1])] + Repair(u[2..]) else [REPLACEMENT] + Repair(u[1..])
    else if TrailUnit(u[0]) then [REPLACEMENT] + Repair(u[1..])
    else [u[0]] + Repair(u[1..])
  }

  lemma {:induction false} RepairUtf16(cs: seq<Scalar>)
    ensures Repair(Utf16(cs)) == cs
  {
    if cs != [] {
      var one, u := Utf16One(cs[0]), Utf16(cs);
      assert u == one + Utf16(cs[1..]);
      assert u[|one|..] == Utf16(cs[1..]);
      if |one| == 2 {
        assert u[0] == one[0] && u[1] == one[1];
        assert LeadUnit(u[0]) && TrailUnit(u[1]);
        Utf16OneInjective(Paired(u[0], u[1]), cs[0]);
      }
      RepairUtf16(cs[1..]);
    }
  }

  lemma Utf16OneInjective(c: Scalar, d: Scalar)
    requires Utf16One(c) == Utf16One(d)
    ensures c == d
  {
    if c >= 0x10000 && d >= 0x10000 {
      var m, n := c - 0x10000, d - 0x10000;
      assert m / 1024 == n / 1024 && m % 1024 == n % 1024;
    }
  }

  ghost predicate WellFormed16(u: seq<Unit>) {
    exists cs :: u == Utf16(cs)
  }

  lemma WellFormedUtf16(u: seq<Unit>)
    ensures WellFormed16(u) <==> Utf16(Repair(u)) == u
  {
    if WellFormed16(u) {
      var cs :| u == Utf16(cs);
      RepairUtf16(cs);
    }
  }

  // ---------- what the encoder emits ----------

  /** As the encoder reads units: of two lead surrogates that end the text, the second is lost. */
  function Emitted(u: seq<Unit>): seq<Scalar> {
    if u == [] then []
    else if |u| == 2 && LeadUnit(u[0]) && LeadUnit(u[1]) then [REPLACEMENT]
    else if LeadUnit(u[0]) then
      if |u| > 1 && TrailUnit(u[1]) then [Paired(u[0], u[1])] + Emitted(u[2..]) else [REPLACEMENT] + Emitted(u[1..])
    else if TrailUnit(u[0]) then [REPLACEMENT] + Emitted(u[1..])
    else [u[0]] + Emitted(u[1..])
  }

  predicate EndsInTwoLeads(u: seq<Unit>) {
    |u| >= 2 && LeadUnit(u[|u| - 1]) && LeadUnit(u[|u| - 2])
  }

  /** That is the only loss: the encoder emits every character of the text exactly when the text does not end in
      two lead surrogates, and then misses one replacement character. */
  lemma {:induction false} EmittedIsRepair(u: seq<Unit>)
    ensures Emitted(u) == if EndsInTwoLeads(u) then Repair(u)[..|Repair(u)| - 1] else Repair(u)
    ensures Emitted(u) == Repair(u) <==> !EndsInTwoLeads(u)
  {
    hide Repair, Emitted, Paired;
    if u == [] {
      NothingEmitted(u);
    } else if |u| == 2 && LeadUnit(u[0]) && LeadUnit(u[1]) {
      TwoLeads(u);
    } else {
      var c, k := EmittedStep(u);
      var rest := u[k..];
      EmittedIsRepair(rest);
      assert EndsInTwoLeads(u) <==> EndsInTwoLeads(rest);
    }
  }

  lemma NothingEmitted(u: seq<Unit>)
    requires u == []
    ensures Emitted(u) == [] == Repair(u)
  {
  }

  lemma TwoLeads(u: seq<Unit>)
    requires |u| == 2 && LeadUnit(u[0]) && LeadUnit(u[1])
    ensures Emitted(u) == [REPLACEMENT] && Repair(u) == [REPLACEMENT, REPLACEMENT]
  {
    assert u[1..] == [u[1]] && u[1..][1..] == [];
    assert Repair(u[1..]) == [REPLACEMENT];
  }

  /** But for that, both take the same first character from the same units. */
  lemma EmittedStep(u: seq<Unit>) returns (c: Scalar, k: nat)
    requires u != [] && !(|u| == 2 && LeadUnit(u[0]) && LeadUnit(u[1]))
    ensures k == if LeadUnit(u[0]) && |u| > 1 && TrailUnit(u[1]) then 2 else 1
    ensures Repair(u) == [c] + Repair(u[k..]) && Emitted(u) == [c] + Emitted(u[k..])
  {
    c := Repair(u)[0];
    k := if LeadUnit(u[0]) && |u| > 1 && TrailUnit(u[1]) then 2 else 1;
  }

  // ---------- what fits a budget of bytes ----------

  /** The characters that fit, up to the first that does not. */
  function Fit(cs: seq<Scalar>, room: int): seq<Scalar> {
    if cs == [] || |Utf8One(cs[0])| > room then [] else [cs[0]] + Fit(cs[1..], room - |Utf8One(cs[0])|)
  }

  /** A budget of 0 is none. */
  function Kept(cs: seq<Scalar>, budget: nat): seq<Scalar> {
    if budget == 0 then cs else Fit(cs, budget)
  }

  /** A budget never splits a character, is never exceeded, and leaves no character out that fits. */
  lemma {:induction false} FitLongest(cs: seq<Scalar>, room: nat)
    ensures Fit(cs, room) <= cs && |Utf8(Fit(cs, room))| <= room
    ensures Fit(cs, room) == cs || |Utf8(cs[..|Fit(cs, room)| + 1])| > room
  {
    if cs != [] && |Utf8One(cs[0])| <= room {
      var n := |Utf8One(cs[0])|;
      FitLongest(cs[1..], room - n);
      var fit := Fit(cs[1..], room - n);
      assert Fit(cs, room)[1..] == fit;
      assert Fit(cs, room) == [cs[0]] + fit;
      assert cs == [cs[0]] + cs[1..];
      if fit != cs[1..] {
        assert cs[..|fit| + 2][1..] == cs[1..][..|fit| + 1];
      }
    } else if cs != [] {
      assert cs[..1] == [cs[0]] && cs[..1][1..] == [];
    }
  }

  lemma {:induction false} FitAppend(cs: seq<Scalar>, c: Scalar, room: int)
    ensures Fit(cs + [c], room) == if Fit(cs, room) == cs && |Utf8(cs)| + |Utf8One(c)| <= room then cs + [c] else Fit(cs, room)
  {
    if cs == [] {
      assert cs + [c] == [c] && [c][1..] == [];
    } else {
      assert (cs + [c])[1..] == cs[1..] + [c];
      assert cs + [c] == [cs[0]] + (cs[1..] + [c]) && cs == [cs[0]] + cs[1..];
      var n := |Utf8One(cs[0])|;
      if n <= room {
        FitAppend(cs[1..], c, room - n);
        assert Fit(cs, room) == [cs[0]] + Fit(cs[1..], room - n);
        assert Fit(cs, room)[1..] == Fit(cs[1..], room - n);
      }
    }
  }

  lemma {:induction false} FitStuck(cs: seq<Scalar>, more: seq<Scalar>, room: int)
    requires Fit(cs, room) != cs
    ensures Fit(cs + more, room) == Fit(cs, room)
  {
    if cs != [] {
      assert (cs + more)[1..] == cs[1..] + more && (cs + more)[0] == cs[0];
      var n := |Utf8One(cs[0])|;
      if n <= room {
        assert Fit(cs[1..], room - n) != cs[1..] by {
          assert cs == [cs[0]] + cs[1..];
        }
        FitStuck(cs[1..], more, room - n);
      }
    }
  }

  // ---------- the bytes the encoder pushes ----------

  function Low6(x: nat): nat {
    BitAnd(63, x)
  }

  /** The pushes for one character, bit operation by bit operation. */
  function Pushed(r: nat): seq<nat> {
    if r < 128 then [r]
    else if r < 2048 then [BitOr(Shr(r, 6), 192), BitOr(Low6(r), 128)]
    else if r < 65536 then [BitOr(Shr(r, 12), 224), BitOr(Low6(Shr(r, 6)), 128), BitOr(Low6(r), 128)]
    else [BitOr(Shr(r, 18), 240), BitOr(Low6(Shr(r, 12)), 128), BitOr(Low6(Shr(r, 6)), 128), BitOr(Low6(r), 128)]
  }

  lemma Low6Is(x: nat)
    ensures Low6(x) == x % 64 && BitOr(Low6(x), 128) == 0x80 + x % 64
  {
    assert Pow2(6) == 64;
    AndCommutes(63, x);
    AndMask(x, 6);
    hide BitAnd, BitOr;
    OrDisjoint(2, 6, x % 64);
  }

  /** A marker above a small value: or is plus. */
  lemma MarkerIs(x: nat, k: nat, m: nat)
    requires x < Pow2(k)
    ensures BitOr(x, m * Pow2(k)) == m * Pow2(k) + x
  {
    OrDisjoint(m, k, x);
  }

  lemma Shifts(r: nat)
    ensures Shr(r, 6) == r / 64 && Shr(r, 12) == r / 4096 && Shr(r, 18) == r / 0x40000 && Shr(r, 10) == r / 1024
  {
    assert Pow2(6) == 64 && Pow2(10) == 1024;
    Pow2Add(6, 6);
    Pow2Add(12, 6);
  }

  lemma PushedIsUtf8(c: Scalar)
    ensures Pushed(c) == Utf8One(c)
  {
    hide BitAnd, BitOr, Pow2, Low6, Shr;
    Shifts(c);
    Low6Is(c);
    Low6Is(c / 64);
    if 128 <= c < 2048 {
      Marker2(c / 64);
    } else if 2048 <= c < 65536 {
      Marker3(c / 4096);
    } else if c >= 65536 {
      Low6Is(c / 4096);
      Marker4(c / 0x40000);
    }
  }

  lemma Marker2(x: nat)
    requires x < 32
    ensures BitOr(x, 192) == 0xC0 + x
  {
    assert Pow2(6) == 64;
    MarkerIs(x, 6, 3);
  }

  lemma Marker3(x: nat)
    requires x < 16
    ensures BitOr(x, 224) == 0xE0 + x
  {
    assert Pow2(5) == 32;
    MarkerIs(x, 5, 7);
  }

  lemma Marker4(x: nat)
    requires x < 8
    ensures BitOr(x, 240) == 0xF0 + x
  {
    assert Pow2(4) == 16;
    MarkerIs(x, 4, 15);
  }

  // ---------- the encoder ----------

  /** What has been pushed after some characters, and the budget left: negative once a character did not fit. */
  ghost predicate Packed(done: seq<Scalar>, budget: nat, left: int, o: seq<Byte>) {
    && o == Utf8(Kept(done, budget))
    && (budget == 0 || left >= 0 ==> Kept(done, budget) == done && left == budget - |o|)
    && (budget > 0 && left < 0 ==> Kept(done, budget) != done)
  }

  lemma PackNext(done: seq<Scalar>, budget: nat, left: int, o: seq<Byte>, c: Scalar)
    requires Packed(done, budget, left, o)
    ensures
      var left' := left - |Utf8One(c)|;
      Packed(done + [c], budget, left', if budget == 0 || left' >= 0 then o + Utf8One(c) else o)
  {
    hide Utf8One, Utf8, Fit;
    Utf8Append(done, c);
    if budget > 0 {
      FitAppend(done, c, budget);
      assert |done + [c]| == |done| + 1;
      FitNoLonger(done, budget);
    }
  }

  lemma FitNoLonger(cs: seq<Scalar>, room: nat)
    ensures |Fit(cs, room)| <= |cs|
  {
    FitLongest(cs, room);
  }

  lemma PackedNone(budget: nat)
    ensures Packed([], budget, budget, [])
  {
  }

  lemma PackedAll(done: seq<Scalar>, budget: nat, left: int, o: seq<Byte>)
    requires Packed(done, budget, left, o)
    ensures o == Utf8(Kept(done, budget))
  {
  }

  /** Once a character did not fit, none that follows counts. */
  lemma NothingMore(done: seq<Scalar>, more: seq<Scalar>, budget: nat, left: int, o: seq<Byte>)
    requires Packed(done, budget, left, o) && budget > 0 && left < 0
    ensures o == Utf8(Kept(done + more, budget))
  {
    FitStuck(done, more, budget);
  }

  /** Take a character off the budget, and push it if it fits. */
  method Push(ghost done: seq<Scalar>, budget: nat, left: int, o: seq<Byte>, c: Scalar) returns (o': seq<Byte>, left': int)
    requires Packed(done, budget, left, o)
    ensures Packed(done + [c], budget, left', o')
  {
    hide Packed, Utf8One, Pushed;
    PackNext(done, budget, left, o, c);
    PushedIsUtf8(c);
    var bytes := Pushed(c);
    o', left' := o, left - |bytes|;
    if budget == 0 || left' >= 0 {
      o' := o + bytes;
    }
  }

  ghost predicate LeadAt(lead: Option<Unit>) {
    lead.Some? ==> LeadUnit(lead.value)
  }

  /** What is still to come after f units, with a lead surrogate perhaps held back. */
  ghost function Pending(t: seq<Unit>, f: nat, lead: Option<Unit>): seq<Scalar>
    requires f <= |t|
  {
    if f == |t| then [] else if lead.Some? then Emitted([lead.value] + t[f..]) else Emitted(t[f..])
  }

  lemma PendingFresh(t: seq<Unit>, f: nat)
    requires f <= |t|
    ensures Pending(t, f, None) == Emitted(t[f..])
  {
    if f == |t| {
      assert t[f..] == [];
    }
  }

  /** One unit more, with no lead held back. */
  lemma EmitFresh(t: seq<Unit>, f: nat)
    requires f < |t|
    ensures
      var r := t[f];
      && (LeadUnit(r) && f + 1 < |t| ==> Pending(t, f, None) == Pending(t, f + 1, Some(r)))
      && (TrailUnit(r) || (LeadUnit(r) && f + 1 == |t|) ==> Pending(t, f, None) == [REPLACEMENT] + Pending(t, f + 1, None))
      && (!LeadUnit(r) && !TrailUnit(r) ==> Pending(t, f, None) == [r] + Pending(t, f + 1, None))
  {
    var u := t[f..];
    assert u == [t[f]] + t[f + 1..] && u[1..] == t[f + 1..];
    PendingFresh(t, f + 1);
  }

  /** One unit more after a lead that was held back. */
  lemma EmitHeld(t: seq<Unit>, f: nat, i: Unit)
    requires f < |t| && LeadUnit(i)
    ensures
      var r := t[f];
      && (LeadUnit(r) ==> Pending(t, f, Some(i)) == [REPLACEMENT] + Pending(t, f + 1, Some(r)))
      && (TrailUnit(r) ==> Pending(t, f, Some(i)) == [Paired(i, r)] + Pending(t, f + 1, None))
      && (!LeadUnit(r) && !TrailUnit(r) ==> Pending(t, f, Some(i)) == [REPLACEMENT] + ([r] + Pending(t, f + 1, None)))
  {
    var u := [i] + t[f..];
    assert u[1..] == t[f..] && t[f..] == [t[f]] + t[f + 1..] && u[2..] == t[f + 1..] && t[f..][1..] == t[f + 1..];
    PendingFresh(t, f + 1);
    assert !LeadUnit(t[f]) && !TrailUnit(t[f]) ==> Emitted(t[f..]) == [t[f]] + Emitted(t[f + 1..]);
  }

  lemma PairIs(i: Unit, r: Unit)
    requires LeadUnit(i) && TrailUnit(r)
    ensures BitOr(Shl(i - 55296, 10), r - 56320) + 65536 == Paired(i, r)
  {
    assert Pow2(10) == 1024;
    OrDisjoint(i - 55296, 10, r - 56320);
  }

  /** Encode text, within a budget of bytes unless it is 0. */
  method Encode(t: seq<Unit>, budget: nat) returns (o: seq<Byte>)
    ensures o == Utf8(Kept(Emitted(t), budget))
  {
    hide Utf8One, Utf8, Kept, Emitted, Packed, Pending, Paired, BitOr, Shl;
    o := [];
    var left: int := budget;
    var lead: Option<Unit> := None;
    ghost var done: seq<Scalar> := [];
    PackedNone(budget);
    PendingAll(t);
    var f := 0;
    while f < |t|
      invariant 0 <= f <= |t| && LeadAt(lead) && Packed(done, budget, left, o)
      invariant Emitted(t) == done + Pending(t, f, lead)
    {
      var r: nat := t[f];
      if 55295 < r < 57344 {
        if lead == None {
          EmitFresh(t, f);
          if r > 56319 || f + 1 == |t| {
            o, left := Push(done, budget, left, o, REPLACEMENT);
            done := done + [REPLACEMENT];
          } else {
            lead := Some(r);
          }
          f := f + 1;
          continue;
        }
        EmitHeld(t, f, lead.value);
        if r < 56320 {
          o, left := Push(done, budget, left, o, REPLACEMENT);
          done, lead, f := done + [REPLACEMENT], Some(r), f + 1;
          continue;
        }
        PairIs(lead.value, r);
        r := BitOr(Shl(lead.value - 55296, 10), r - 56320) + 65536;
      } else if lead.Some? {
        EmitHeld(t, f, lead.value);
        o, left := Push(done, budget, left, o, REPLACEMENT);
        done := done + [REPLACEMENT];
      } else {
        EmitFresh(t, f);
      }
      lead := None;
      o, left := Push(done, budget, left, o, r);
      done := done + [r];
      assert Emitted(t) == done + Pending(t, f + 1, lead);
      if budget > 0 && left < 0 {
        NothingMore(done, Pending(t, f + 1, lead), budget, left, o);
        return;
      }
      f := f + 1;
    }
    PendingNone(t, lead);
    assert done + [] == done;
    PackedAll(done, budget, left, o);
  }

  lemma PendingAll(t: seq<Unit>)
    ensures Emitted(t) == [] + Pending(t, 0, None)
  {
    assert t[0..] == t;
    assert Pending(t, 0, None) == Emitted(t);
  }

  lemma PendingNone(t: seq<Unit>, lead: Option<Unit>)
    ensures Pending(t, |t|, lead) == []
  {
  }

  // ---------- the decoder ----------

  /** How many bytes the first byte of a character announces. */
  function Announced(b: Byte): (f: nat)
    ensures 1 <= f <= 4
  {
    if b > 239 then 4 else if b > 223 then 3 else if b > 191 then 2 else 1
  }

  predicate TrailBits(b: nat) {
    BitAnd(192, b) == 128
  }

  /** The character at i, bit operation by bit operation; none when it does not decode. */
  function DecodedAt(t: seq<Byte>, i: nat, r: nat): Option<nat>
    requires i < r <= |t|
  {
    var e, f := t[i], Announced(t[i]);
    if i + f > r then None
    else if f == 1 then
      if e < 128 then Some(e) else None
    else if f == 2 then
      if TrailBits(t[i + 1]) then Above(BitOr(Shl(BitAnd(31, e), 6), Low6(t[i + 1])), 127) else None
    else if f == 3 then
      if TrailBits(t[i + 1]) && TrailBits(t[i + 2]) then
        var s := BitOr(BitOr(Shl(BitAnd(15, e), 12), Shl(Low6(t[i + 1]), 6)), Low6(t[i + 2]));
        if s > 2047 && (s < 55296 || s > 57343) then Some(s) else None
      else None
    else
      if TrailBits(t[i + 1]) && TrailBits(t[i + 2]) && TrailBits(t[i + 3]) then
        var s := BitOr(BitOr(BitOr(Shl(BitAnd(15, e), 18), Shl(Low6(t[i + 1]), 12)), Shl(Low6(t[i + 2]), 6)), Low6(t[i + 3]));
        if s > 65535 && s < 1114112 then Some(s) else None
      else None
  }

  function Above(s: nat, bound: nat): Option<nat> {
    if s > bound then Some(s) else None
  }

  lemma TrailBitsIs(b: Byte)
    ensures TrailBits(b) <==> Trail(b)
    ensures Trail(b) ==> Low6(b) == b - 0x80
  {
    hide BitAnd, Low6, BitOr;
    Low6Is(b);
    AndEven(96, b);
    AndEven(48, b / 2);
    AndEven(24, b / 2 / 2);
    AndEven(12, b / 2 / 2 / 2);
    AndEven(6, b / 2 / 2 / 2 / 2);
    AndEven(3, b / 2 / 2 / 2 / 2 / 2);
    assert Pow2(2) == 4;
    AndMaskFirst(b / 64, 2);
    assert b / 2 / 2 / 2 / 2 / 2 / 2 == b / 64;
  }

  lemma AndEven(m: nat, x: nat)
    ensures BitAnd(2 * m, x) == 2 * BitAnd(m, x / 2)
  {
  }

  lemma Or2(x: nat, y: nat)
    requires y < 64
    ensures BitOr(Shl(x, 6), y) == x * 64 + y
  {
    assert Pow2(6) == 64;
    OrDisjoint(x, 6, y);
  }

  lemma Or3(x: nat, y: nat, z: nat)
    requires y < 64 && z < 64
    ensures BitOr(Shl(x, 12), Shl(y, 6)) == x * 4096 + y * 64
    ensures BitOr(BitOr(Shl(x, 12), Shl(y, 6)), z) == x * 4096 + y * 64 + z
  {
    assert Pow2(6) == 64;
    Pow2Add(6, 6);
    hide BitOr;
    OrDisjoint(x, 12, y * 64);
    OrDisjoint(x * 64 + y, 6, z);
  }

  lemma Or4(w: nat, x: nat, y: nat, z: nat)
    requires x < 64 && y < 64 && z < 64
    ensures BitOr(BitOr(BitOr(Shl(w, 18), Shl(x, 12)), Shl(y, 6)), z) == w * 0x40000 + x * 4096 + y * 64 + z
  {
    assert Pow2(6) == 64;
    Pow2Add(6, 6);
    Pow2Add(12, 6);
    hide BitOr;
    OrDisjoint(w, 18, x * 4096);
    OrDisjoint(w * 64 + x, 12, y * 64);
    OrDisjoint(w * 4096 + x * 64 + y, 6, z);
  }

  lemma LeadBits(b: Byte)
    ensures 0xC0 <= b < 0xE0 ==> BitAnd(31, b) == b - 0xC0
    ensures 0xE0 <= b < 0xF0 ==> BitAnd(15, b) == b - 0xE0
    ensures 0xF0 <= b ==> BitAnd(15, b) == b - 0xF0
  {
    assert Pow2(4) == 16 && Pow2(5) == 32;
    AndMaskFirst(b, 4);
    AndMaskFirst(b, 5);
    hide BitAnd, Pow2;
    if 0xC0 <= b < 0xE0 {
      DivModUnique(b, Pow2(5), 6, b - 0xC0);
    } else if 0xE0 <= b < 0xF0 {
      DivModUnique(b, Pow2(4), 14, b - 0xE0);
    } else if 0xF0 <= b {
      DivModUnique(b, Pow2(4), 15, b - 0xF0);
    }
  }

  /** A two-byte form, read bit by bit, is the character it spells. */
  lemma TwoBytes(e: Byte, g: Byte)
    requires 0xC0 <= e < 0xE0 && Trail(g)
    ensures Above(BitOr(Shl(BitAnd(31, e), 6), Low6(g)), 127) == Checked(Spell(0, 0, e - 0xC0, g - 0x80), 0x80)
  {
    hide BitAnd, BitOr, Shl, Pow2, Low6;
    LeadBits(e);
    TrailBitsIs(g);
    Or2(e - 0xC0, g - 0x80);
  }

  lemma DecodedTwo(t: seq<Byte>, i: nat, r: nat)
    requires i < r <= |t| && Announced(t[i]) == 2 && i + 2 <= r
    ensures DecodedAt(t, i, r) == FirstChar(t[i..r])
  {
    hide BitAnd, BitOr, Shl, Pow2, TrailBits, Low6, Spell, Above, Checked;
    TrailBitsIs(t[i + 1]);
    if Trail(t[i + 1]) {
      TwoBytes(t[i], t[i + 1]);
    }
  }

  lemma DecodedThree(t: seq<Byte>, i: nat, r: nat)
    requires i < r <= |t| && Announced(t[i]) == 3 && i + 3 <= r
    ensures DecodedAt(t, i, r) == FirstChar(t[i..r])
  {
    hide BitAnd, BitOr, Shl, Pow2, TrailBits, Low6;
    LeadBits(t[i]);
    TrailBitsIs(t[i + 1]);
    TrailBitsIs(t[i + 2]);
    if Trail(t[i + 1]) && Trail(t[i + 2]) {
      Or3(t[i] - 0xE0, t[i + 1] - 0x80, t[i + 2] - 0x80);
    }
  }

  lemma DecodedFour(t: seq<Byte>, i: nat, r: nat)
    requires i < r <= |t| && Announced(t[i]) == 4 && i + 4 <= r
    ensures DecodedAt(t, i, r) == FirstChar(t[i..r])
  {
    hide BitAnd, BitOr, Shl, Pow2, TrailBits, Low6;
    LeadBits(t[i]);
    TrailBitsIs(t[i + 1]);
    TrailBitsIs(t[i + 2]);
    TrailBitsIs(t[i + 3]);
    if Trail(t[i + 1]) && Trail(t[i + 2]) && Trail(t[i + 3]) {
      Or4(t[i] - 0xF0, t[i + 1] - 0x80, t[i + 2] - 0x80, t[i + 3] - 0x80);
    }
  }

  /** The bit operations read exactly the character the bytes begin with, and announce its length. */
  lemma DecodedAtIs(t: seq<Byte>, i: nat, r: nat)
    requires i < r <= |t|
    ensures DecodedAt(t, i, r) == FirstChar(t[i..r])
    ensures FirstChar(t[i..r]).Some? ==> Announced(t[i]) == |Utf8One(FirstChar(t[i..r]).value)|
  {
    var f, b := Announced(t[i]), t[i..r];
    if i + f > r {
    } else if f == 2 {
      DecodedTwo(t, i, r);
    } else if f == 3 {
      DecodedThree(t, i, r);
    } else if f == 4 {
      DecodedFour(t, i, r);
    }
    if FirstChar(b).Some? {
      FirstCharReads(b, FirstChar(b).value);
    }
  }

  /** The units pushed for one character. */
  function PushedUnits(o: nat): seq<nat> {
    if o > 65535 then
      var p := o - 65536;
      [BitOr(BitAnd(Shr(p, 10), 1023), 55296), BitOr(56320, BitAnd(1023, p))]
    else [o]
  }

  lemma LeadHalf(p: nat)
    requires p < 0x100000
    ensures BitOr(BitAnd(Shr(p, 10), 1023), 55296) == 0xD800 + p / 1024
  {
    hide BitOr, BitAnd, Shr;
    Shifts(p);
    var q := p / 1024;
    Low10(q);
  }

  lemma Low10(q: nat)
    requires q < 1024
    ensures BitAnd(q, 1023) == q && BitOr(q, 55296) == 0xD800 + q
  {
    Mask10(q);
    Marker10(q);
  }

  lemma Mask10(q: nat)
    requires q < 1024
    ensures BitAnd(q, 1023) == q
  {
    assert Pow2(10) == 1024;
    DivModUnique(q, Pow2(10), 0, q);
    hide BitAnd, Pow2;
    AndMask(q, 10);
  }

  lemma Marker10(q: nat)
    requires q < 1024
    ensures BitOr(q, 55296) == 0xD800 + q
  {
    assert Pow2(10) == 1024;
    hide BitOr, Pow2;
    MarkerIs(q, 10, 54);
  }

  lemma TrailHalf(p: nat)
    ensures BitOr(56320, BitAnd(1023, p)) == 0xDC00 + p % 1024
  {
    assert Pow2(10) == 1024;
    hide BitOr, BitAnd, Pow2;
    AndMaskFirst(p, 10);
    OrDisjoint(55, 10, p % 1024);
  }

  lemma PushedUnitsAre(c: Scalar)
    ensures PushedUnits(c) == Utf16One(c)
  {
    hide BitOr, BitAnd, Shr;
    if c > 65535 {
      LeadHalf(c - 65536);
      TrailHalf(c - 65536);
    }
  }

  /** Decode the bytes from start to end, each that cannot be decoded as one replacement character. */
  method Decode(t: seq<Byte>, start: nat, end: nat) returns (text: seq<Unit>)
    ensures
      var r := if end <= |t| then end else |t|;
      text == if start <= r then Utf16(Scan(t[start..r])) else []
  {
    hide Utf16, DecodedAt, FirstChar, PushedUnits, Utf16One, Utf8One, Scan, Announced;
    var r := if end <= |t| then end else |t|;
    var n: seq<Unit>, i := [], start;
    while i < r
      invariant start <= i && (start <= r ==> i <= r && Utf16(Scan(t[start..r])) == n + Utf16(Scan(t[i..r])))
      invariant start > r ==> n == []
    {
      DecodedAtIs(t, i, r);
      var o, f := DecodedAt(t, i, r), Announced(t[i]);
      ScanStep(t, i, r);
      if o == None {
        o, f := Some(REPLACEMENT), 1;
      }
      PushedUnitsAre(o.value);
      n, i := n + PushedUnits(o.value), i + f;
    }
    ScanNone(t, r);
    text := Joined(n);
  }

  /** The text put together from pieces of 4096 units. */
  method Joined(o: seq<Unit>) returns (u: seq<Unit>)
    ensures u == o
  {
    if |o| <= 4096 {
      return o;
    }
    u := [];
    var s := 0;
    while s < |o|
      invariant u == o[..if s <= |o| then s else |o|]
    {
      var e := if s + 4096 <= |o| then s + 4096 else |o|;
      u, s := u + o[s..e], s + 4096;
    }
  }

  lemma Utf16First(c: Scalar, cs: seq<Scalar>)
    ensures Utf16([c] + cs) == Utf16One(c) + Utf16(cs)
  {
    assert ([c] + cs)[1..] == cs;
  }

  lemma ScanNone(t: seq<Byte>, r: nat)
    ensures r <= |t| ==> Utf16(Scan(t[r..r])) == []
  {
  }

  lemma ScanStep(t: seq<Byte>, i: nat, r: nat)
    requires i < r <= |t|
    ensures
      var c := FirstChar(t[i..r]);
      if c.None? then Utf16(Scan(t[i..r])) == Utf16One(REPLACEMENT) + Utf16(Scan(t[i + 1..r]))
      else
        && i + |Utf8One(c.value)| <= r
        && Utf16(Scan(t[i..r])) == Utf16One(c.value) + Utf16(Scan(t[i + |Utf8One(c.value)|..r]))
  {
    hide FirstChar, Utf8One, Utf16One, Utf16;
    var b := t[i..r];
    var c := FirstChar(b);
    if c.Some? {
      FirstCharReads(b, c.value);
      assert b[|Utf8One(c.value)|..] == t[i + |Utf8One(c.value)|..r];
      Utf16First(c.value, Scan(t[i + |Utf8One(c.value)|..r]));
    } else {
      assert b[1..] == t[i + 1..r];
      Utf16First(REPLACEMENT, Scan(t[i + 1..r]));
    }
  }

  // ---------- the pair ----------

  /** The encoder loses nothing of well-formed text. */
  lemma EmittedOfText(cs: seq<Scalar>)
    ensures Emitted(Utf16(cs)) == cs
  {
    EmittedIsRepair(Utf16(cs));
    RepairUtf16(cs);
    WellFormedEnds(cs);
  }

  lemma {:induction false} WellFormedEnds(cs: seq<Scalar>)
    ensures !EndsInTwoLeads(Utf16(cs))
    ensures cs != [] ==> Utf16(cs) != [] && !LeadUnit(Utf16(cs)[|Utf16(cs)| - 1])
  {
    if cs != [] {
      WellFormedEnds(cs[1..]);
    }
  }

  /** Encode text and decode the bytes: the text again exactly when it is well formed, and always the characters
      emitted. */
  method TextAndBack(u: seq<Unit>) returns (v: seq<Unit>)
    ensures v == Utf16(Emitted(u))
    ensures WellFormed16(u) <==> v == u
  {
    var b := Encode(u, 0);
    v := Decode(b, 0, |b|);
    assert b[0..|b|] == b;
    ScanUtf8(Emitted(u));
    WellFormedUtf16(u);
    if WellFormed16(u) {
      EmittedOfText(Repair(u));
    }
  }

  /** Decode bytes and encode the text: the bytes again when they are well formed, and always the UTF-8 form of the
      characters read. */
  method BytesAndBack(b: seq<Byte>) returns (c: seq<Byte>)
    ensures c == Utf8(Scan(b))
    ensures WellFormed8(b) <==> c == b
  {
    var u := Decode(b, 0, |b|);
    c := Encode(u, 0);
    assert b[0..|b|] == b;
    EmittedOfText(Scan(b));
    WellFormedUtf8(b);
  }
}
