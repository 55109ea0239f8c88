/** Squeezing Huffman code lengths under a limit without losing completeness. */
module LengthLimit {
  import opened Bits
  import opened Huffman
  import opened KraftSums

  /** The leaves being coded: distinct symbols, all inside the length table. */
  ghost predicate Coded(o: seq<Tree>, size: nat) {
    Distinct(o) && forall x :: x in o ==> x.Leaf? && x.s < size
  }

  ghost predicate LengthsWithin(o: seq<Tree>, h: seq<nat>, lo: nat, hi: nat) {
    forall k :: 0 <= k < |o| ==> lo <= LenOf(h, o[k]) <= hi
  }

  ghost predicate Descending(o: seq<Tree>, h: seq<nat>) {
    forall i, j :: 0 <= i < j < |o| ==> LenOf(h, o[i]) >= LenOf(h, o[j])
  }

  /** Only entries of coded symbols differ. */
  ghost predicate SameElsewhere(o: seq<Tree>, h: seq<nat>, h': seq<nat>) {
    && |h| == |h'|
    && forall s :: 0 <= s < |h| && (forall k :: 0 <= k < |o| ==> Sym(o[k]) != s) ==> h[s] == h'[s]
  }

  lemma {:induction false} PositiveShare(ts: seq<Tree>, h: seq<nat>, w: nat)
    requires ts != [] && AtMost(ts, h, w)
    ensures Kraft(ts, h, w) > 0
  {
    assert ts[0] in ts;
  }

  lemma BelowWhole(t: nat, m: nat, q: nat)
    requires m <= t && Pow2(t - m) * q < Pow2(t)
    ensures Pow2(t - m) * q <= Pow2(t) - Pow2(t - m)
  {
    Pow2Add(t - m, m);
    assert t - m + m == t;
    ProductCancels(Pow2(t - m), q, Pow2(m));
    assert Pow2(t - m) * (Pow2(m) - q) == Pow2(t - m) * Pow2(m) - Pow2(t - m) * q;
    ProductCancels(Pow2(t - m), 0, Pow2(m) - q);
    ProductAtLeast(Pow2(t - m), Pow2(m) - q);
  }

  lemma ProductAtLeast(c: nat, k: nat)
    requires k >= 1
    ensures c * k >= c
  {
  }

  /** The first symbol that was not clamped: the r clamped ones outnumber its own share. */
  lemma ClampedOutnumber(o: seq<Tree>, h: seq<nat>, t: nat, r: nat, p: int)
    requires r < |o| && p > 0
    requires forall k :: 0 <= k < r ==> LenOf(h, o[k]) == t
    requires forall k :: r <= k < |o| ==> LenOf(h, o[k]) <= LenOf(h, o[r]) <= t
    requires Kraft(o, h, t) == Pow2(t) + p && Kraft(o[r..], h, t) < Pow2(t)
    ensures r >= Pow2(t - LenOf(h, o[r])) + p
  {
    var m := LenOf(h, o[r]);
    KraftSplit(o, r, h, t);
    KraftAllAt(o[..r], h, t);
    assert AtMost(o[r..], h, m) by {
      forall x | x in o[r..] ensures LenOf(h, x) <= m {
        var j :| 0 <= j < |o| - r && o[r..][j] == x;
        assert x == o[r + j];
      }
    }
    KraftRescale(o[r..], h, m, t);
    BelowWhole(t, m, Kraft(o[r..], h, m));
  }

  // ---------- clamping ----------

  /** The first r symbols are cut down to t; p is what that overdraws, in units of 2^-v. */
  ghost predicate Clamped(o: seq<Tree>, H: seq<nat>, h: seq<nat>, v: nat, t: nat, r: nat, p: nat) {
    && t <= v && r <= |o| && SameElsewhere(o, H, h)
    && (forall k :: 0 <= k < r ==> LenOf(H, o[k]) > t && LenOf(h, o[k]) == t)
    && (forall k :: r <= k < |o| ==> LenOf(h, o[k]) == LenOf(H, o[k]))
    && Kraft(o, h, v) == Kraft(o, H, v) + p
    && p <= r * Pow2(v - t) && (r > 0 ==> p > 0)
  }

  lemma OneChanged(o: seq<Tree>, r: nat, h: seq<nat>, len: nat)
    requires Coded(o, |h|) && r < |o|
    ensures LenOf(h[Sym(o[r]) := len], o[r]) == len
    ensures forall k :: 0 <= k < |o| && k != r ==> LenOf(h[Sym(o[r]) := len], o[k]) == LenOf(h, o[k])
    ensures SameElsewhere(o, h, h[Sym(o[r]) := len])
  {
    assert o[r] in o;
  }

  lemma ClampStep(o: seq<Tree>, H: seq<nat>, h: seq<nat>, v: nat, t: nat, r: nat, p: nat)
    requires Clamped(o, H, h, v, t, r, p) && Coded(o, |h|) && r < |o|
    requires t < LenOf(h, o[r]) <= v
    ensures Pow2(v - t) >= Pow2(v - LenOf(h, o[r]))
    ensures Clamped(o, H, h[Sym(o[r]) := t], v, t, r + 1, p + (Pow2(v - t) - Pow2(v - LenOf(h, o[r]))))
  {
    assert o[r] in o;
    OneChanged(o, r, h, t);
    KraftUpdate(o, r, h, t, v);
    Pow2Monotone(v - LenOf(h, o[r]) + 1, v - t);
    assert (r + 1) * Pow2(v - t) == r * Pow2(v - t) + Pow2(v - t);
  }

  /** Cut every length above t down to t. */
  method Clamp(o: seq<Tree>, h: array<nat>, v: nat, t: nat) returns (r: nat, p: nat)
    requires t <= v <= 30 && Coded(o, h.Length) && LengthsWithin(o, h[..], 1, v) && Descending(o, h[..])
    modifies h
    ensures Clamped(o, old(h[..]), h[..], v, t, r, p)
    ensures forall k :: r <= k < |o| ==> LenOf(h[..], o[k]) <= t
  {
    ghost var H := h[..];
    r, p := 0, 0;
    var m := OneShl(v - t);
    while r < |o| && h[o[r].s] > t
      invariant r <= |o| && Clamped(o, H, h[..], v, t, r, p)
    {
      var y := o[r].s;
      ClampStep(o, H, h[..], v, t, r, p);
      p := p + (m - OneShl(v - h[y]));
      ghost var was := h[..];
      h[y] := t;
      assert h[..] == was[y := t];
      r := r + 1;
    }
    forall k | r <= k < |o| ensures LenOf(h[..], o[k]) <= t {
      assert LenOf(H, o[r]) >= LenOf(H, o[k]);
    }
  }

  // ---------- paying back ----------

  /** The first r symbols are at the limit, those after r are still as they were, p is overdrawn. */
  ghost predicate Lengthening(o: seq<Tree>, H: seq<nat>, h: seq<nat>, t: nat, r: nat, p: int) {
    && r < |o| && SameElsewhere(o, H, h) && LengthsWithin(o, h, 1, t)
    && (forall k :: 0 <= k < r ==> LenOf(h, o[k]) == t)
    && (forall k :: r < k < |o| ==> LenOf(h, o[k]) == LenOf(H, o[k]))
    && Kraft(o[r + 1..], h, t) < Pow2(t)
    && Kraft(o, h, t) == Pow2(t) + p
    && (p > 0 ==> r >= Pow2(t - LenOf(h, o[r])))
    && (p <= 0 ==> r >= 1 - p)
  }

  lemma LengtheningBounds(o: seq<Tree>, H: seq<nat>, h: seq<nat>, t: nat, r: nat, p: int)
    requires Lengthening(o, H, h, t, r, p)
    ensures r < |o| && LenOf(h, o[r]) <= t
  {
  }

  lemma RaiseStep(o: seq<Tree>, H: seq<nat>, h: seq<nat>, t: nat, r: nat, p: int)
    requires Coded(o, |h|) && Lengthening(o, H, h, t, r, p) && p > 0 && LenOf(h, o[r]) < t
    ensures var len := LenOf(h, o[r]);
            Lengthening(o, H, h[Sym(o[r]) := len + 1], t, r, p - Pow2(t - len - 1))
  {
    hide Kraft;
    var len := LenOf(h, o[r]);
    var h' := h[Sym(o[r]) := len + 1];
    assert o[r] in o;
    OneChanged(o, r, h, len + 1);
    KraftUpdate(o, r, h, len + 1, t);
    forall x | x in o[r + 1..] ensures LenOf(h, x) == LenOf(h', x) {
      var j :| 0 <= j < |o| - r - 1 && o[r + 1..][j] == x;
      assert x == o[r + 1 + j];
    }
    KraftFrame(o[r + 1..], h, h', t);
    assert Pow2(t - len) == 2 * Pow2(t - len - 1);
  }

  lemma NextStep(o: seq<Tree>, H: seq<nat>, h: seq<nat>, t: nat, r: nat, p: int, r0: nat)
    requires Lengthening(o, H, h, t, r, p) && p > 0 && LenOf(h, o[r]) == t && |o| <= Pow2(t)
    requires r0 <= r && forall i, j :: r0 <= i <= j < |o| ==> LenOf(H, o[i]) >= LenOf(H, o[j])
    ensures r + 1 < |o| && Lengthening(o, H, h, t, r + 1, p)
  {
    if r + 1 == |o| {
      KraftAllAt(o, h, t);
    } else {
      KraftSplit(o[r + 1..], 1, h, t);
      assert o[r + 1..][1..] == o[r + 2..];
      ClampedOutnumber(o, h, t, r + 1, p);
    }
  }

  lemma StartLengthening(o: seq<Tree>, h: seq<nat>, t: nat, r: nat, p: nat)
    requires LengthsWithin(o, h, 1, t) && 0 < r < |o| && p > 0
    requires forall k :: 0 <= k < r ==> LenOf(h, o[k]) == t
    requires forall i, j :: r <= i <= j < |o| ==> LenOf(h, o[i]) >= LenOf(h, o[j])
    requires Kraft(o, h, t) == Pow2(t) + p && Kraft(o[r..], h, t) < Pow2(t)
    ensures Lengthening(o, h, h, t, r, p)
  {
    ClampedOutnumber(o, h, t, r, p);
    KraftSplit(o[r..], 1, h, t);
    assert o[r..][1..] == o[r + 1..];
  }

  /** Lengthen codes below the limit until the overdraft p is covered. */
  method Lengthen(o: seq<Tree>, h: array<nat>, t: nat, r0: nat, p0: nat) returns (r: nat, p: int)
    requires Coded(o, h.Length) && |o| <= Pow2(t) && p0 > 0 && t <= 30
    requires Lengthening(o, h[..], h[..], t, r0, p0)
    requires forall i, j :: r0 <= i <= j < |o| ==> LenOf(h[..], o[i]) >= LenOf(h[..], o[j])
    modifies h
    ensures Lengthening(o, old(h[..]), h[..], t, r, p) && p <= 0
  {
    hide Kraft, Lengthening;
    ghost var H := h[..];
    r, p := r0, p0;
    while p > 0
      invariant r0 <= r && Lengthening(o, H, h[..], t, r, p)
      decreases if p > 0 then p else 0, |o| - r
    {
      LengtheningBounds(o, H, h[..], t, r, p);
      assert o[r] in o;
      var b := o[r].s;
      if h[b] < t {
        RaiseStep(o, H, h[..], t, r, p);
        ghost var was := h[..];
        p := p - OneShl(t - h[b] - 1);
        h[b] := h[b] + 1;
        assert h[..] == was[b := was[b] + 1];
      } else {
        NextStep(o, H, h[..], t, r, p, r0);
        r := r + 1;
      }
    }
  }

  /** Shorten codes at the limit, one unit each, until nothing is left unused. */
  method Shorten(o: seq<Tree>, h: array<nat>, t: nat, r0: nat, p0: int)
    requires 2 <= t && Coded(o, h.Length) && LengthsWithin(o, h[..], 1, t)
    requires r0 < |o| && p0 <= 0 && r0 >= 1 - p0
    requires forall k :: 0 <= k < r0 ==> LenOf(h[..], o[k]) == t
    requires Kraft(o, h[..], t) == Pow2(t) + p0
    modifies h
    ensures SameElsewhere(o, old(h[..]), h[..]) && LengthsWithin(o, h[..], 1, t)
    ensures Kraft(o, h[..], t) == Pow2(t)
  {
    ghost var H := h[..];
    var r: int, p := r0, p0;
    while r >= 0 && p != 0
      invariant -1 <= r < |o| && p <= 0
      invariant SameElsewhere(o, H, h[..]) && LengthsWithin(o, h[..], 1, t)
      invariant forall k :: 0 <= k < r ==> LenOf(h[..], o[k]) == t
      invariant r + 1 > -p
      invariant r == r0 ==> r > -p
      invariant r != r0 && r >= 0 ==> LenOf(h[..], o[r]) == t
      invariant Kraft(o, h[..], t) == Pow2(t) + p
    {
      var b := o[r].s;
      if h[b] == t {
        ghost var was := h[..];
        ghost var less: nat := t - 1;
        KraftUpdate(o, r, was, less, t);
        assert Pow2(1) == 2 && Pow2(0) == 1;
        h[b] := h[b] - 1;
        assert h[..] == was[b := less];
        p := p + 1;
      }
      r := r - 1;
    }
  }
}
