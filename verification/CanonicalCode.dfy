/** Canonical Huffman codes from code lengths, stored bit-reversed (section 3.2.2 of RFC 1951). */
module CanonicalCode {
  import opened Bits
  import opened BitReversal
  import opened KraftSums

  /** How many of the first k symbols have codes of length len. */
  function Count(lens: seq<nat>, k: nat, len: nat): nat
    requires k <= |lens|
  {
    if k == 0 then 0 else Count(lens, k - 1, len) + (if lens[k - 1] == len then 1 else 0)
  }

  /** The numerically smallest code of each length. */
  function FirstCode(lens: seq<nat>, len: nat): nat {
    if len <= 1 then 0 else 2 * (FirstCode(lens, len - 1) + Count(lens, |lens|, len - 1))
  }

  /** The code of symbol o before reversal: codes of one length count up in symbol order. */
  function CodeOf(lens: seq<nat>, o: nat): nat
    requires o < |lens|
  {
    FirstCode(lens, lens[o]) + Count(lens, o, lens[o])
  }

  /** The code as transmitted, most significant bit first into the low bits; 0 for unused symbols. */
  function Transmitted(lens: seq<nat>, o: nat): nat
    requires o < |lens|
  {
    if lens[o] == 0 then 0 else Reverse(CodeOf(lens, o), lens[o])
  }

  /** No length over w, and no more code space asked for than there is. */
  predicate Codable(lens: seq<nat>, w: nat) {
    && (forall o :: 0 <= o < |lens| ==> lens[o] <= w)
    && TableKraft(lens, |lens|, w) <= Pow2(w)
  }

  // ---------- code space ----------

  /** Space taken by the codes of lengths 1 to len among the first k symbols. */
  function SpaceUpTo(lens: seq<nat>, k: nat, len: nat, w: nat): nat
    requires k <= |lens|
  {
    if len == 0 then 0 else SpaceUpTo(lens, k, len - 1, w) + Count(lens, k, len) * Share(len, w)
  }

  lemma {:induction false} SpaceOneMore(lens: seq<nat>, k: nat, len: nat, w: nat)
    requires k < |lens|
    ensures SpaceUpTo(lens, k + 1, len, w)
         == SpaceUpTo(lens, k, len, w) + (if 1 <= lens[k] <= len then Share(lens[k], w) else 0)
  {
    if len > 0 {
      SpaceOneMore(lens, k, len - 1, w);
      assert (Count(lens, k, len) + 1) * Share(len, w) == Count(lens, k, len) * Share(len, w) + Share(len, w);
    }
  }

  lemma {:induction false} SpaceIsKraft(lens: seq<nat>, k: nat, w: nat)
    requires k <= |lens| && forall o :: 0 <= o < |lens| ==> lens[o] <= w
    ensures SpaceUpTo(lens, k, w, w) == TableKraft(lens, k, w)
  {
    if k == 0 {
      NoSpace(lens, w, w);
    } else {
      SpaceIsKraft(lens, k - 1, w);
      SpaceOneMore(lens, k - 1, w, w);
    }
  }

  lemma {:induction false} NoSpace(lens: seq<nat>, len: nat, w: nat)
    ensures SpaceUpTo(lens, 0, len, w) == 0
  {
    if len > 0 {
      NoSpace(lens, len - 1, w);
    }
  }

  lemma {:induction false} SpaceGrows(lens: seq<nat>, a: nat, b: nat, w: nat)
    requires a <= b
    ensures SpaceUpTo(lens, |lens|, a, w) <= SpaceUpTo(lens, |lens|, b, w)
  {
    if a < b {
      SpaceGrows(lens, a, b - 1, w);
      assert Count(lens, |lens|, b) * Share(b, w) >= 0;
    }
  }

  lemma DoubledSum(f: nat, c: nat, p: nat)
    ensures 2 * (f + c) * p == f * (2 * p) + c * (2 * p)
  {
    assert 2 * (f + c) * p == (f + c) * (2 * p);
  }

  /** The first code of a length starts right after the space of all shorter codes. */
  lemma {:induction false} FirstCodeSpace(lens: seq<nat>, len: nat, w: nat)
    requires 1 <= len <= w
    ensures FirstCode(lens, len) * Pow2(w - len) == SpaceUpTo(lens, |lens|, len - 1, w)
  {
    if len > 1 {
      FirstCodeSpace(lens, len - 1, w);
      var f, c, p := FirstCode(lens, len - 1), Count(lens, |lens|, len - 1), Pow2(w - len);
      assert Pow2(w - len + 1) == 2 * p;
      assert FirstCode(lens, len) == 2 * (f + c);
      hide Pow2, Count, FirstCode;
      DoubledSum(f, c, p);
    }
  }

  lemma SumWithin(f: nat, c: nat, p: nat, q: nat, whole: nat)
    requires p > 0 && f * p + c * p <= whole == q * p
    ensures f + c <= q
  {
    assert f * p + c * p == p * (f + c);
    ProductCancels(p, q, f + c);
  }

  /** All codes of a length fit into that many bits. */
  lemma CodesFit(lens: seq<nat>, len: nat, w: nat)
    requires Codable(lens, w) && 1 <= len <= w
    ensures FirstCode(lens, len) + Count(lens, |lens|, len) <= Pow2(len)
  {
    var f, c, p := FirstCode(lens, len), Count(lens, |lens|, len), Pow2(w - len);
    assert f * p + c * p == SpaceUpTo(lens, |lens|, len, w) by {
      FirstCodeSpace(lens, len, w);
    }
    assert SpaceUpTo(lens, |lens|, len, w) <= Pow2(w) by {
      SpaceGrows(lens, len, w, w);
      SpaceIsKraft(lens, |lens|, w);
    }
    SumWithin(f, c, p, Pow2(len), Pow2(w)) by {
      Pow2Add(len, w - len);
    }
  }

  lemma {:induction false} CountGrows(lens: seq<nat>, j: nat, k: nat, len: nat)
    requires j <= k <= |lens|
    ensures Count(lens, j, len) <= Count(lens, k, len)
    ensures j < k && lens[j] == len ==> Count(lens, j, len) < Count(lens, k, len)
    decreases k
  {
    if j < k - 1 {
      CountGrows(lens, j, k - 1, len);
    } else if j < k {
      assert k - 1 == j;
    }
  }

  lemma CodeFits(lens: seq<nat>, o: nat, w: nat)
    requires Codable(lens, w) && o < |lens| && lens[o] > 0
    ensures CodeOf(lens, o) < Pow2(lens[o])
  {
    CodesFit(lens, lens[o], w);
    CountGrows(lens, o, |lens|, lens[o]);
  }

  // ---------- prefix freedom ----------

  /** Longer codes lie beyond everything that starts with a shorter one. */
  lemma {:induction false} LongerCodesBeyond(lens: seq<nat>, a: nat, b: nat)
    requires 1 <= a < b
    ensures FirstCode(lens, b) >= (FirstCode(lens, a) + Count(lens, |lens|, a)) * Pow2(b - a)
  {
    hide Count;
    if b == a + 1 {
      assert Pow2(1) == 2;
    } else {
      LongerCodesBeyond(lens, a, b - 1);
      Doubled(FirstCode(lens, a) + Count(lens, |lens|, a), Pow2(b - 1 - a));
      assert Pow2(b - a) == 2 * Pow2(b - 1 - a);
    }
  }

  lemma Doubled(s: nat, p: nat)
    ensures s * (2 * p) == 2 * (s * p)
  {
  }

  /** The leading bits of a code never spell the code of another symbol. */
  lemma NoCodeIsPrefix(lens: seq<nat>, a: nat, b: nat)
    requires a < |lens| && b < |lens| && a != b
    requires 0 < lens[a] <= lens[b]
    ensures CodeOf(lens, b) / Pow2(lens[b] - lens[a]) != CodeOf(lens, a)
  {
    CountGrows(lens, a, |lens|, lens[a]);
    if lens[a] == lens[b] {
      if a < b {
        CountGrows(lens, a, b, lens[a]);
      } else {
        CountGrows(lens, b, a, lens[a]);
      }
      DivModUnique(CodeOf(lens, b), 1, CodeOf(lens, b), 0);
    } else {
      LongerCodesBeyond(lens, lens[a], lens[b]);
      var p := Pow2(lens[b] - lens[a]);
      var s := FirstCode(lens, lens[a]) + Count(lens, |lens|, lens[a]);
      QuotientAtLeast(CodeOf(lens, b), p, s);
    }
  }

  lemma QuotientAtLeast(x: nat, p: nat, s: nat)
    requires p > 0 && x >= s * p
    ensures x / p >= s
  {
    var q := x / p;
    assert x == p * q + x % p;
    ProductCancels(p, q + 1, s);
    assert p * (q + 1) == p * q + p;
  }

  lemma ReversedPrefixDiffers(x: nat, la: nat, y: nat, lb: nat, top: nat)
    requires la <= lb && x < Pow2(la) && y < Pow2(lb) && top == y / Pow2(lb - la) && top != x
    ensures Reverse(y, lb) % Pow2(la) != Reverse(x, la)
  {
    assert Reverse(y, lb) % Pow2(la) == Reverse(top, la) by {
      ReversePrefix(y, lb, la);
    }
    assert Reverse(top, la) != Reverse(x, la) by {
      TopBits(y, lb, la);
      ReverseInjective(top, x, la);
    }
  }

  /** In transmission order: no code is a prefix of another. */
  lemma PrefixFree(lens: seq<nat>, w: nat, a: nat, b: nat)
    requires Codable(lens, w) && a < |lens| && b < |lens| && a != b
    requires 0 < lens[a] <= lens[b]
    ensures Transmitted(lens, b) % Pow2(lens[a]) != Transmitted(lens, a)
  {
    NoCodeIsPrefix(lens, a, b);
    CodeFits(lens, a, w);
    CodeFits(lens, b, w);
    ReversedPrefixDiffers(CodeOf(lens, a), lens[a], CodeOf(lens, b), lens[b],
                          CodeOf(lens, b) / Pow2(lens[b] - lens[a]));
  }

  lemma TopBits(y: nat, n: nat, k: nat)
    requires k <= n && y < Pow2(n)
    ensures y / Pow2(n - k) < Pow2(k)
  {
    Pow2Add(k, n - k);
    assert k + (n - k) == n;
    DivBelow(y, Pow2(k), Pow2(n - k));
  }

  lemma ReverseInjective(x: nat, y: nat, n: nat)
    requires x < Pow2(n) && y < Pow2(n) && x != y
    ensures Reverse(x, n) != Reverse(y, n)
  {
    ReverseTwice(x, n);
    ReverseTwice(y, n);
  }

  // ---------- the table-driven assignment ----------

  const UINT16 := 65536

  method CountLengths(lens: seq<nat>, t: nat) returns (s: array<nat>)
    requires t <= 15 && Codable(lens, t)
    ensures s.Length == t && forall k :: 0 <= k < t ==> s[k] == Count(lens, |lens|, k + 1)
  {
    s := new nat[t](_ => 0);
    for o := 0 to |lens|
      invariant forall k :: 0 <= k < t ==> s[k] == Count(lens, o, k + 1)
    {
      if lens[o] > 0 {
        CounterFits(lens, o, t);
        s[lens[o] - 1] := (s[lens[o] - 1] + 1) % UINT16;
      }
    }
  }

  method FirstCodes(lens: seq<nat>, t: nat, s: array<nat>) returns (u: array<nat>)
    requires t <= 15 && Codable(lens, t)
    requires s.Length == t && forall k :: 0 <= k < t ==> s[k] == Count(lens, |lens|, k + 1)
    ensures fresh(u) && u.Length == t && forall k :: 0 <= k < t ==> u[k] == FirstCode(lens, k + 1)
  {
    u := new nat[t];
    for o := 0 to t
      invariant forall k :: 0 <= k < o ==> u[k] == FirstCode(lens, k + 1)
    {
      FirstCodeFits(lens, o + 1, t);
      u[o] := if o == 0 then 0 else 2 * (u[o - 1] + s[o - 1]) % UINT16;
    }
  }

  /** Fill in the reversed code of every symbol, counting up per length; 16-bit counters suffice. */
  method AssignCodes(lens: seq<nat>, t: nat, ti: array<nat>) returns (r: array<nat>)
    requires t <= 15 && Codable(lens, t)
    requires ti.Length == 32768 && forall x :: 0 <= x < 32768 ==> ti[x] == Reverse(x, 15)
    ensures fresh(r) && r.Length == |lens|
    ensures forall o :: 0 <= o < |lens| ==> r[o] == Transmitted(lens, o)
  {
    hide Count, FirstCode, Transmitted, CodeOf, Reverse, Shr, Codable;
    var s := CountLengths(lens, t);
    var u := FirstCodes(lens, t, s);
    CountNone(lens);
    r := new nat[|lens|];
    for o := 0 to |lens|
      invariant forall k :: 0 <= k < t ==> u[k] == FirstCode(lens, k + 1) + Count(lens, o, k + 1)
      invariant forall k :: 0 <= k < o ==> r[k] == Transmitted(lens, k)
    {
      CountNext(lens, o);
      if lens[o] == 0 {
        Unused(lens, o);
        r[o] := 0;
      } else {
        CodeEntry(lens, o, t);
        r[o] := Shr(ti[u[lens[o] - 1]], 15 - lens[o]);
        u[lens[o] - 1] := (u[lens[o] - 1] + 1) % UINT16;
      }
    }
  }

  lemma SmallPowers(len: nat)
    requires len <= 15
    ensures Pow2(len) <= 32768
  {
    Fifteen();
    Pow2Monotone(len, 15);
  }

  lemma FirstCodeFits(lens: seq<nat>, len: nat, t: nat)
    requires 1 <= len <= t <= 15 && Codable(lens, t)
    ensures FirstCode(lens, len) < UINT16
    ensures len > 1 ==> FirstCode(lens, len) == 2 * (FirstCode(lens, len - 1) + Count(lens, |lens|, len - 1)) % UINT16
  {
    CodesFit(lens, len, t);
    SmallPowers(len);
  }

  lemma CounterFits(lens: seq<nat>, o: nat, t: nat)
    requires t <= 15 && Codable(lens, t) && o < |lens| && lens[o] > 0
    ensures lens[o] <= t && Count(lens, o, lens[o]) + 1 < UINT16
  {
    CodeFits(lens, o, t);
    SmallPowers(lens[o]);
  }

  lemma CountNone(lens: seq<nat>)
    ensures forall len :: Count(lens, 0, len) == 0
  {
  }

  lemma CountNext(lens: seq<nat>, o: nat)
    requires o < |lens|
    ensures forall len :: Count(lens, o + 1, len) == Count(lens, o, len) + if lens[o] == len then 1 else 0
  {
  }

  lemma Unused(lens: seq<nat>, o: nat)
    requires o < |lens| && lens[o] == 0
    ensures Transmitted(lens, o) == 0
  {
  }

  lemma CodeEntry(lens: seq<nat>, o: nat, t: nat)
    requires t <= 15 && Codable(lens, t) && o < |lens| && lens[o] > 0
    ensures lens[o] <= t && CodeOf(lens, o) < 32768
    ensures CodeOf(lens, o) == FirstCode(lens, lens[o]) + Count(lens, o, lens[o])
    ensures Shr(Reverse(CodeOf(lens, o), 15), 15 - lens[o]) == Transmitted(lens, o)
  {
    CodeFits(lens, o, t);
    SmallPowers(lens[o]);
    ReverseWide(CodeOf(lens, o), lens[o], 15);
  }
}
