/** Length-limited Huffman code lengths from symbol frequencies. */
module HuffmanCoder {
  import opened Bits
  import opened Huffman
  import opened HuffmanLengths
  import opened KraftSums
  import opened LengthLimit

  // ---------- reading depths off the tree ----------

  lemma {:induction false} DepthsFrame(t: Tree, h: seq<nat>, h': seq<nat>, d: nat)
    requires DepthsAgree(t, h, d) && |h| == |h'|
    requires forall x :: x in Leaves(t) && Sym(x) < |h| ==> h[Sym(x)] == h'[Sym(x)]
    ensures DepthsAgree(t, h', d)
  {
    if t.Node? {
      DepthsFrame(t.left, h, h', d + 1);
      DepthsFrame(t.right, h, h', d + 1);
    } else {
      assert t in Leaves(t);
    }
  }

  /** Record every leaf's depth in h and return the greatest one. */
  method AssignDepths(t: Tree, h: array<nat>, d: nat) returns (m: nat)
    requires Coded(Leaves(t), h.Length)
    modifies h
    ensures m == d + Height(t)
    ensures DepthsAgree(t, h[..], d)
    ensures SameElsewhere(Leaves(t), old(h[..]), h[..])
    decreases t
  {
    if t.Node? {
      ghost var H := h[..];
      CodedParts(t, h.Length);
      var ml := AssignDepths(t.left, h, d + 1);
      ghost var mid := h[..];
      var mr := AssignDepths(t.right, h, d + 1);
      PartsUntouched(t, H, mid, h[..]);
      DepthsFrame(t.left, mid, h[..], d + 1);
      m := Max(ml, mr);
    } else {
      assert t in Leaves(t);
      h[t.s] := d;
      m := d;
    }
  }

  lemma CodedParts(t: Tree, size: nat)
    requires t.Node? && Coded(Leaves(t), size)
    ensures Coded(Leaves(t.left), size) && Coded(Leaves(t.right), size)
    ensures forall x, y :: x in Leaves(t.left) && y in Leaves(t.right) ==> Sym(x) != Sym(y)
  {
    assert Leaves(t) == Leaves(t.left) + Leaves(t.right);
    hide Leaves;
    DistinctParts(Leaves(t.left), Leaves(t.right));
  }

  lemma DistinctParts(l: seq<Tree>, r: seq<Tree>)
    requires Distinct(l + r)
    ensures Distinct(l) && Distinct(r)
    ensures forall x, y :: x in l && y in r ==> Sym(x) != Sym(y)
  {
    hide Sym;
    forall i, j | 0 <= i < j < |l| ensures Sym(l[i]) != Sym(l[j]) {
      assert (l + r)[i] == l[i] && (l + r)[j] == l[j];
    }
    forall i, j | 0 <= i < j < |r| ensures Sym(r[i]) != Sym(r[j]) {
      assert (l + r)[|l| + i] == r[i] && (l + r)[|l| + j] == r[j];
    }
    forall x, y | x in l && y in r ensures Sym(x) != Sym(y) {
      var i :| 0 <= i < |l| && l[i] == x;
      var j :| 0 <= j < |r| && r[j] == y;
      assert (l + r)[i] == x && (l + r)[|l| + j] == y;
    }
  }

  lemma PartsUntouched(t: Tree, H: seq<nat>, mid: seq<nat>, h: seq<nat>)
    requires t.Node? && Coded(Leaves(t), |H|)
    requires SameElsewhere(Leaves(t.left), H, mid) && SameElsewhere(Leaves(t.right), mid, h)
    ensures SameElsewhere(Leaves(t), H, h)
    ensures forall x :: x in Leaves(t.left) && Sym(x) < |mid| ==> mid[Sym(x)] == h[Sym(x)]
  {
    CodedParts(t, |H|);
    var l, r := Leaves(t.left), Leaves(t.right);
    forall s | 0 <= s < |H| && (forall k :: 0 <= k < |l + r| ==> Sym((l + r)[k]) != s)
      ensures H[s] == h[s]
    {
      forall k | 0 <= k < |l| ensures Sym(l[k]) != s {
        assert (l + r)[k] == l[k];
      }
      forall k | 0 <= k < |r| ensures Sym(r[k]) != s {
        assert (l + r)[|l| + k] == r[k];
      }
    }
  }

  // ---------- the two sort orders ----------

  function ByWeight(): (Tree, Tree) -> bool {
    (a: Tree, b: Tree) => a.f <= b.f
  }

  /** Longest code first; among equals the lighter symbol first. */
  function ByLength(h: seq<nat>): (Tree, Tree) -> bool {
    (a: Tree, b: Tree) => LenOf(h, a) > LenOf(h, b) || (LenOf(h, a) == LenOf(h, b) && a.f <= b.f)
  }

  lemma OrdersAreTotal(h: seq<nat>)
    ensures TotalPreorder(ByWeight()) && TotalPreorder(ByLength(h))
  {
  }

  /** The tree that Huffman's algorithm builds for these frequencies. */
  function HuffmanTree(freq: seq<nat>): Tree
    requires Used(freq, |freq|) != []
  {
    SortNonempty(Used(freq, |freq|), ByWeight());
    Merge(SortBy(Used(freq, |freq|), ByWeight()), [])
  }

  lemma {:induction false} SortNonempty(ts: seq<Tree>, le: (Tree, Tree) -> bool)
    ensures |SortBy(ts, le)| == |ts|
  {
    if ts != [] {
      SortNonempty(ts[1..], le);
      InsertLength(ts[0], SortBy(ts[1..], le), le);
    }
  }

  lemma {:induction false} InsertLength(x: Tree, ts: seq<Tree>, le: (Tree, Tree) -> bool)
    ensures |InsertBy(x, ts, le)| == |ts| + 1
  {
    if ts == [] || le(x, ts[0]) {
    } else {
      InsertLength(x, ts[1..], le);
    }
  }

  // ---------- permutations ----------

  lemma PermutedMembers(a: seq<Tree>, b: seq<Tree>)
    requires multiset(a) == multiset(b)
    ensures |a| == |b| && forall x :: x in a <==> x in b
  {
    assert |multiset(a)| == |a| && |multiset(b)| == |b|;
    forall x ensures x in a <==> x in b {
      assert x in a <==> x in multiset(a);
      assert x in b <==> x in multiset(b);
    }
  }

  lemma TwiceCounts(a: seq<Tree>, i: nat, j: nat)
    requires i < j < |a| && a[i] == a[j]
    ensures multiset(a)[a[i]] >= 2
  {
    assert a == a[..j] + a[j..];
    assert a[i] in a[..j] && a[j] in a[j..];
    assert multiset(a[..j])[a[i]] >= 1 && multiset(a[j..])[a[i]] >= 1;
  }

  lemma {:induction false} OnceCounts(a: seq<Tree>, x: Tree)
    requires Distinct(a)
    ensures multiset(a)[x] <= 1
  {
    if a != [] {
      assert a == [a[0]] + a[1..];
      assert Distinct(a[1..]);
      OnceCounts(a[1..], x);
      forall j | 0 <= j < |a| - 1 ensures a[1..][j] != a[0] {
        assert Sym(a[0]) != Sym(a[j + 1]);
      }
    }
  }

  /** Permuting leaves with distinct symbols keeps the symbols distinct. */
  lemma CodedPermuted(a: seq<Tree>, b: seq<Tree>, size: nat)
    requires Coded(a, size) && multiset(a) == multiset(b)
    ensures Coded(b, size) && |b| == |a|
  {
    PermutedMembers(a, b);
    forall i, j | 0 <= i < j < |b| ensures Sym(b[i]) != Sym(b[j]) {
      if Sym(b[i]) == Sym(b[j]) {
        assert b[i] in a && b[j] in a;
        var k :| 0 <= k < |a| && a[k] == b[i];
        var m :| 0 <= m < |a| && a[m] == b[j];
        assert k == m;
        TwiceCounts(b, i, j);
        OnceCounts(a, b[i]);
      }
    }
  }

  lemma SameElsewherePermuted(a: seq<Tree>, b: seq<Tree>, h: seq<nat>, h': seq<nat>)
    requires multiset(a) == multiset(b) && SameElsewhere(a, h, h')
    ensures SameElsewhere(b, h, h')
  {
    PermutedMembers(a, b);
    forall s | 0 <= s < |h| && (forall k :: 0 <= k < |b| ==> Sym(b[k]) != s) ensures h[s] == h'[s] {
      forall k | 0 <= k < |a| ensures Sym(a[k]) != s {
        assert a[k] in b;
      }
    }
  }

  lemma WithinPermuted(a: seq<Tree>, b: seq<Tree>, h: seq<nat>, lo: nat, hi: nat)
    requires multiset(a) == multiset(b) && LengthsWithin(a, h, lo, hi)
    ensures LengthsWithin(b, h, lo, hi)
  {
    PermutedMembers(a, b);
    forall k | 0 <= k < |b| ensures lo <= LenOf(h, b[k]) <= hi {
      assert b[k] in a;
    }
  }

  // ---------- limiting ----------

  /** What the limiting phases start from. */
  ghost predicate Limitable(leaves: seq<Tree>, h: seq<nat>, v: nat, t: nat) {
    && 2 <= t < v && Coded(leaves, |h|) && LengthsWithin(leaves, h, 1, v)
    && |leaves| <= Pow2(t) && Kraft(leaves, h, v) == Pow2(v)
    && exists x :: x in leaves && LenOf(h, x) == v
  }

  lemma SortForClamping(leaves: seq<Tree>, h: seq<nat>, v: nat, t: nat)
    requires Limitable(leaves, h, v, t)
    ensures var o := SortBy(leaves, ByLength(h));
            multiset(o) == multiset(leaves) && Limitable(o, h, v, t) && Descending(o, h)
  {
    OrdersAreTotal(h);
    SortBySorts(leaves, ByLength(h));
    var o := SortBy(leaves, ByLength(h));
    CodedPermuted(leaves, o, |h|);
    WithinPermuted(leaves, o, h, 1, v);
    KraftPermutation(leaves, o, h, v);
    PermutedMembers(leaves, o);
  }

  lemma SomeClamped(o: seq<Tree>, H: seq<nat>, h: seq<nat>, v: nat, t: nat, r: nat, p: nat)
    requires Clamped(o, H, h, v, t, r, p) && Limitable(o, H, v, t)
    requires forall k :: r <= k < |o| ==> LenOf(h, o[k]) <= t
    ensures r > 0 && p > 0 && AtMost(o, h, t)
  {
    var x :| x in o && LenOf(H, x) == v;
    var k :| 0 <= k < |o| && o[k] == x;
    assert k < r;
    forall y | y in o ensures LenOf(h, y) <= t {
      var j :| 0 <= j < |o| && o[j] == y;
    }
  }

  lemma DebtInUnits(c: nat, k: nat, whole: nat, p: nat)
    requires c > 0 && c * k == c * whole + p && p > 0
    ensures p / c == k - whole > 0
  {
    ProductCancels(c, whole, k);
    assert c * (k - whole) == c * k - c * whole;
    DivModUnique(p, c, k - whole, 0);
  }

  /** After clamping, the debt is a whole number of units of 2^-t. */
  lemma DebtIsWhole(o: seq<Tree>, H: seq<nat>, h: seq<nat>, v: nat, t: nat, r: nat, p: nat)
    requires Clamped(o, H, h, v, t, r, p) && Limitable(o, H, v, t)
    requires forall k :: r <= k < |o| ==> LenOf(h, o[k]) <= t
    ensures 0 < r < |o| && p / Pow2(v - t) > 0
    ensures Kraft(o, h, t) == Pow2(t) + p / Pow2(v - t)
  {
    SomeClamped(o, H, h, v, t, r, p);
    KraftRescale(o, h, t, v);
    Pow2Add(v - t, t);
    assert v - t + t == v;
    DebtInUnits(Pow2(v - t), Kraft(o, h, t), Pow2(t), p);
    if r == |o| {
      forall x | x in o ensures LenOf(h, x) == t {
        var j :| 0 <= j < |o| && o[j] == x;
      }
      KraftAllAt(o, h, t);
    }
  }

  /** What was not clamped used less than the whole code space. */
  lemma RestIsBelowWhole(o: seq<Tree>, H: seq<nat>, h: seq<nat>, v: nat, t: nat, r: nat, p: nat)
    requires Clamped(o, H, h, v, t, r, p) && Limitable(o, H, v, t) && 0 < r < |o|
    requires forall k :: r <= k < |o| ==> LenOf(h, o[k]) <= t
    ensures Kraft(o[r..], h, t) < Pow2(t)
  {
    hide Kraft;
    KraftSplit(o, r, H, v);
    assert AtMost(o[..r], H, v) by {
      forall x | x in o[..r] ensures LenOf(H, x) <= v {
        var j :| 0 <= j < r && o[j] == x;
      }
    }
    PositiveShare(o[..r], H, v);
    forall x | x in o[r..] ensures LenOf(H, x) == LenOf(h, x) && LenOf(h, x) <= t {
      var j :| 0 <= j < |o| - r && o[r..][j] == x;
      assert x == o[r + j];
    }
    KraftFrame(o[r..], H, h, v);
    KraftRescale(o[r..], h, t, v);
    Pow2Add(v - t, t);
    assert v - t + t == v;
    ProductCancels(Pow2(v - t), Kraft(o[r..], h, t), Pow2(t));
  }

  lemma ClampedDebt(o: seq<Tree>, H: seq<nat>, h: seq<nat>, v: nat, t: nat, r: nat, p: nat)
    requires Clamped(o, H, h, v, t, r, p) && Limitable(o, H, v, t) && Descending(o, H)
    requires forall k :: r <= k < |o| ==> LenOf(h, o[k]) <= t
    ensures p / Pow2(v - t) > 0
    ensures forall i, j :: r <= i <= j < |o| ==> LenOf(h, o[i]) >= LenOf(h, o[j])
    ensures Lengthening(o, h, h, t, r, p / Pow2(v - t))
  {
    DebtIsWhole(o, H, h, v, t, r, p);
    RestIsBelowWhole(o, H, h, v, t, r, p);
    forall i, j | r <= i <= j < |o| ensures LenOf(h, o[i]) >= LenOf(h, o[j]) {
      assert i < j ==> LenOf(H, o[i]) >= LenOf(H, o[j]);
    }
    forall k | 0 <= k < |o| ensures 1 <= LenOf(h, o[k]) <= t {
      assert LenOf(H, o[k]) >= 1;
    }
    StartLengthening(o, h, t, r, p / Pow2(v - t));
  }

  /** The debt stays a 32-bit value, so shifting it right is dividing it. */
  lemma DebtFits(r: nat, v: nat, t: nat, p: nat)
    requires r <= Pow2(t) && t <= v && p <= r * Pow2(v - t)
    ensures p <= Pow2(v)
  {
    Pow2Add(v - t, t);
    assert v - t + t == v;
    assert (Pow2(t) - r) * Pow2(v - t) >= 0;
  }

  /** Bring complete code lengths of up to v bits down to at most t bits, still complete. */
  method LimitLengths(leaves: seq<Tree>, h: array<nat>, v: nat, t: nat)
    requires v <= 30 && Limitable(leaves, h[..], v, t)
    modifies h
    ensures LengthsWithin(leaves, h[..], 1, t) && Kraft(leaves, h[..], t) == Pow2(t)
    ensures SameElsewhere(leaves, old(h[..]), h[..])
  {
    ghost var H := h[..];
    SortForClamping(leaves, H, v, t);
    var o := SortBy(leaves, ByLength(h[..]));
    var r, p := Clamp(o, h, v, t);
    ClampedDebt(o, H, h[..], v, t, r, p);
    DebtFits(r, v, t, p);
    p := p / OneShl(v - t);
    ghost var mid := h[..];
    var r', p' := Lengthen(o, h, t, r, p);
    ghost var mid' := h[..];
    Shorten(o, h, t, r', p');
    SameElsewhereChain(o, H, mid, mid', h[..]);
    SameElsewherePermuted(o, leaves, H, h[..]);
    WithinPermuted(o, leaves, h[..], 1, t);
    KraftPermutation(leaves, o, h[..], t);
  }

  lemma SameElsewhereChain(o: seq<Tree>, a: seq<nat>, b: seq<nat>, c: seq<nat>, d: seq<nat>)
    requires SameElsewhere(o, a, b) && SameElsewhere(o, b, c) && SameElsewhere(o, c, d)
    ensures SameElsewhere(o, a, d)
  {
  }

  // ---------- the whole builder ----------

  /** The table codes exactly the used symbols and ends with the last of them. */
  ghost predicate CodesUsed(freq: seq<nat>, lens: seq<nat>) {
    && |lens| <= |freq|
    && (forall s :: 0 <= s < |freq| ==> (freq[s] > 0 <==> s < |lens| && lens[s] > 0))
    && (lens != [] ==> lens[|lens| - 1] > 0)
  }

  lemma {:induction false} TableKraftOfUsed(freq: seq<nat>, lens: seq<nat>, k: nat, w: nat)
    requires k <= |freq| && CodesUsed(freq, lens)
    ensures Kraft(Used(freq, k), lens, w) == TableKraft(lens, if k <= |lens| then k else |lens|, w)
  {
    if k > 0 {
      TableKraftOfUsed(freq, lens, k - 1, w);
      if freq[k - 1] > 0 {
        var x := Leaf(k - 1, freq[k - 1]);
        KraftConcat(Used(freq, k - 1), [x], lens, w);
        assert Kraft([x], lens, w) == Share(lens[k - 1], w) by { assert [x][1..] == []; }
      } else {
        assert Used(freq, k) == Used(freq, k - 1);
      }
    }
  }

  lemma LeavesAreQueues(sorted: seq<Tree>)
    requires SortedBy(sorted, ByWeight())
    requires forall x :: x in sorted ==> x.Leaf? && x.f >= 1
    ensures Queues(sorted, [], 0)
  {
  }

  /** The sorted used leaves meet what merging asks for. */
  lemma SortForMerging(freq: seq<nat>)
    requires Sum(freq, |freq|) <= SENTINEL_WEIGHT
    ensures var n := Used(freq, |freq|);
            var sorted := SortBy(n, ByWeight());
            Mergeable(sorted) && multiset(sorted) == multiset(n) && |sorted| == |n|
  {
    var n := Used(freq, |freq|);
    var sorted := SortBy(n, ByWeight());
    UsedFacts(freq, |freq|);
    OrdersAreTotal([]);
    SortBySorts(n, ByWeight());
    PermutedMembers(n, sorted);
    LeavesAreQueues(sorted);
    WeightPermutation(sorted, n);
  }

  lemma {:induction false} AllLeavesOfLeaves(ts: seq<Tree>)
    requires forall x :: x in ts ==> !x.Node?
    ensures AllLeaves(ts) == ts
  {
    if ts != [] {
      AllLeavesOfLeaves(ts[1..]);
      assert ts[0] in ts;
    }
  }

  lemma {:induction false} WeightTakeOut(ts: seq<Tree>, k: nat)
    requires k < |ts|
    ensures TotalWeight(ts) == ts[k].f + TotalWeight(ts[..k] + ts[k + 1..])
  {
    if k == 0 {
      assert ts[..0] + ts[1..] == ts[1..];
    } else {
      WeightTakeOut(ts[1..], k - 1);
      assert (ts[..k] + ts[k + 1..])[1..] == ts[1..][..k - 1] + ts[1..][k..];
    }
  }

  lemma {:induction false} WeightPermutation(a: seq<Tree>, b: seq<Tree>)
    requires multiset(a) == multiset(b)
    ensures TotalWeight(a) == TotalWeight(b)
  {
    hide TotalWeight;
    if a == [] {
      assert |multiset(b)| == 0;
    } else {
      var k := TakeOutFirst(a, b);
      WeightPermutation(a[1..], b[..k] + b[k + 1..]);
      WeightTakeOut(a, 0);
      WeightTakeOut(b, k);
      var empty: seq<Tree> := a[..0];
      assert empty + a[1..] == a[1..];
    }
  }

  /** Two or more used symbols: the tree is an inner node of height at most 20 over exactly them. */
  lemma TreeFacts(freq: seq<nat>)
    requires Sum(freq, |freq|) <= SENTINEL_WEIGHT && |Used(freq, |freq|)| >= 2
    ensures var root := HuffmanTree(freq);
            root.Node? && 1 <= Height(root) <= 20 && multiset(Leaves(root)) == multiset(Used(freq, |freq|))
  {
    var n := Used(freq, |freq|);
    var sorted := SortBy(n, ByWeight());
    SortForMerging(freq);
    HeightBound(sorted);
    MergeKeepsLeaves(sorted, []);
    AllLeavesOfLeaves(sorted);
    assert multiset(AllLeaves([])) == multiset{};
    var root := Merge(sorted, []);
    PermutedMembers(Leaves(root), sorted);
    assert |Leaves(root)| >= 2;
  }

  lemma DepthsWithin(root: Tree, n: seq<Tree>, h: seq<nat>)
    requires root.Node? && DepthsAgree(root, h, 0) && multiset(Leaves(root)) == multiset(n)
    ensures LengthsWithin(n, h, 1, Height(root))
    ensures exists x :: x in n && LenOf(h, x) == Height(root)
  {
    PermutedMembers(Leaves(root), n);
    LeafDepths(root, h, 0);
    var x := DeepestLeaf(root, h, 0);
    assert x in n && LenOf(h, x) == Height(root);
    forall k | 0 <= k < |n| ensures 1 <= LenOf(h, n[k]) <= Height(root) {
      assert n[k] in Leaves(root);
    }
  }

  ghost predicate ZeroElsewhere(o: seq<Tree>, h: seq<nat>) {
    forall s :: 0 <= s < |h| && (forall k :: 0 <= k < |o| ==> Sym(o[k]) != s) ==> h[s] == 0
  }

  lemma StaysZero(o: seq<Tree>, h: seq<nat>, h': seq<nat>)
    requires ZeroElsewhere(o, h) && SameElsewhere(o, h, h')
    ensures ZeroElsewhere(o, h')
  {
  }

  lemma ZeroPermuted(a: seq<Tree>, b: seq<Tree>, h: seq<nat>)
    requires multiset(a) == multiset(b) && ZeroElsewhere(a, h)
    ensures ZeroElsewhere(b, h)
  {
    PermutedMembers(a, b);
    forall s | 0 <= s < |h| && (forall k :: 0 <= k < |b| ==> Sym(b[k]) != s) ensures h[s] == 0 {
      forall k | 0 <= k < |a| ensures Sym(a[k]) != s {
        assert a[k] in b;
      }
    }
  }

  /** A table that is zero outside the used symbols and positive on them codes exactly those. */
  lemma TableCodesUsed(freq: seq<nat>, n: seq<Tree>, h: seq<nat>, t: nat)
    requires n == Used(freq, |freq|) && n != [] && |h| == Sym(n[|n| - 1]) + 1
    requires ZeroElsewhere(n, h) && LengthsWithin(n, h, 1, t)
    ensures CodesUsed(freq, h) && forall s :: 0 <= s < |h| ==> h[s] <= t
  {
    UsedFacts(freq, |freq|);
    assert n[|n| - 1] in n && LenOf(h, n[|n| - 1]) >= 1;
    forall s | 0 <= s < |freq|
      ensures (freq[s] > 0 <==> s < |h| && h[s] > 0) && (s < |h| ==> h[s] <= t)
    {
      if freq[s] > 0 {
        UsedEntry(freq, n, h, s, t);
      } else if s < |h| {
        forall k | 0 <= k < |n| ensures Sym(n[k]) != s {
          assert n[k] in n;
        }
      }
    }
  }

  lemma UsedEntry(freq: seq<nat>, n: seq<Tree>, h: seq<nat>, s: nat, t: nat)
    requires n == Used(freq, |freq|) && n != [] && LengthsWithin(n, h, 1, t)
    requires s < |freq| && freq[s] > 0
    ensures s <= Sym(n[|n| - 1]) && s < |h| && 1 <= h[s] <= t
  {
    UsedFacts(freq, |freq|);
    var k :| 0 <= k < |n| && n[k] == Leaf(s, freq[s]);
    assert 1 <= LenOf(h, n[k]) <= t;
    assert k < |n| - 1 ==> n[k].s < n[|n| - 1].s;
  }

  lemma UsedAscends(n: seq<Tree>, freq: seq<nat>)
    requires UsedWell(n, freq, |freq|)
    ensures SymbolsAscend(n) && forall k :: 0 <= k < |n| ==> n[k].Leaf?
  {
  }

  lemma CodedForTree(freq: seq<nat>, n: seq<Tree>, root: Tree, size: nat)
    requires n == Used(freq, |freq|) && n != [] && size == Sym(n[|n| - 1]) + 1
    requires multiset(Leaves(root)) == multiset(n)
    ensures Coded(n, size) && Coded(Leaves(root), size)
  {
    hide Leaves, Used, UsedWell, TotalWeight;
    UsedFacts(freq, |freq|);
    UsedAscends(n, freq);
    forall x | x in n ensures x.Leaf? && x.s < size {
      var k :| 0 <= k < |n| && n[k] == x;
      assert k < |n| - 1 ==> n[k].s < n[|n| - 1].s;
    }
    CodedPermuted(n, Leaves(root), size);
  }

  lemma SingleSymbol(freq: seq<nat>, n: seq<Tree>, lens: seq<nat>)
    requires n == Used(freq, |freq|) && |n| == 1 && |lens| == Sym(n[0]) + 1
    requires forall k :: 0 <= k < |lens| ==> lens[k] == if k == Sym(n[0]) then 1 else 0
    ensures CodesUsed(freq, lens)
  {
    UsedFacts(freq, |freq|);
    assert n[0] in n;
    forall s | 0 <= s < |freq| && freq[s] > 0 ensures s == n[0].s {
      assert Leaf(s, freq[s]) in n;
    }
  }

  /** The used symbols, pushed in symbol order. */
  method CollectUsed(freq: seq<nat>) returns (n: seq<Tree>)
    ensures n == Used(freq, |freq|)
  {
    n := [];
    for r := 0 to |freq|
      invariant n == Used(freq, r)
    {
      if freq[r] != 0 {
        n := n + [Leaf(r, freq[r])];
      }
    }
  }

  method MaxSymbol(o: seq<Tree>) returns (f: nat)
    requires o != [] && o[0].Leaf? && SymbolsAscend(o)
    ensures f == Sym(o[|o| - 1])
  {
    f := o[0].s;
    for r := 1 to |o|
      invariant f == Sym(o[r - 1])
    {
      assert o[r - 1].s < o[r].s;
      if o[r].s > f {
        f := o[r].s;
      }
    }
  }

  /** A complete code within the limit, and the tree's own depths if those fit. */
  ghost predicate CompleteCode(root: Tree, n: seq<Tree>, h: seq<nat>, v: nat, t: nat) {
    && v <= t && LengthsWithin(n, h, 1, v) && Kraft(n, h, t) == Pow2(t)
    && (Height(root) <= t ==> DepthsAgree(root, h, 0) && v == Height(root))
  }

  lemma TreeIsLimitable(root: Tree, n: seq<Tree>, h: seq<nat>, t: nat)
    requires root.Node? && DepthsAgree(root, h, 0) && multiset(Leaves(root)) == multiset(n)
    requires 2 <= t < Height(root) && Coded(n, |h|) && |n| <= Pow2(t)
    ensures Limitable(n, h, Height(root), t)
  {
    hide Leaves, Kraft, Height, DepthsAgree, Coded;
    DepthsWithin(root, n, h);
    KraftOfTree(root, h, 0, Height(root));
    KraftPermutation(Leaves(root), n, h, Height(root));
  }

  lemma TreeFits(root: Tree, n: seq<Tree>, h: seq<nat>, t: nat)
    requires root.Node? && DepthsAgree(root, h, 0) && multiset(Leaves(root)) == multiset(n)
    requires Height(root) <= t
    ensures CompleteCode(root, n, h, Height(root), t)
  {
    DepthsWithin(root, n, h);
    KraftOfTree(root, h, 0, t);
    KraftPermutation(Leaves(root), n, h, t);
  }

  method ReadDepths(root: Tree, n: seq<Tree>, size: nat) returns (h: array<nat>, v: nat)
    requires Coded(n, size) && Coded(Leaves(root), size) && multiset(Leaves(root)) == multiset(n)
    ensures fresh(h) && h.Length == size && v == Height(root)
    ensures DepthsAgree(root, h[..], 0) && ZeroElsewhere(n, h[..])
  {
    h := new nat[size](_ => 0);
    ghost var zero := h[..];
    v := AssignDepths(root, h, 0);
    StaysZero(Leaves(root), zero, h[..]);
    ZeroPermuted(Leaves(root), n, h[..]);
  }

  /** Depths of the tree, limited to t bits. */
  method BuildLengths(root: Tree, o: seq<Tree>, size: nat, t: nat) returns (h: array<nat>, v: nat)
    requires 2 <= t <= 30 && root.Node? && Height(root) <= 30
    requires Coded(o, size) && Coded(Leaves(root), size) && multiset(Leaves(root)) == multiset(o)
    requires |o| <= Pow2(t)
    ensures h.Length == size && CompleteCode(root, o, h[..], v, t) && ZeroElsewhere(o, h[..])
  {
    h, v := ReadDepths(root, o, size);
    if v > t {
      TreeIsLimitable(root, o, h[..], t);
      ghost var deep := h[..];
      LimitLengths(o, h, v, t);
      StaysZero(o, deep, h[..]);
      v := t;
    } else {
      TreeFits(root, o, h[..], t);
    }
  }

  /** What the builder promises: a code for exactly the used symbols, within the limit, complete
      as soon as two symbols are used, and equal to the Huffman tree's depths when those fit. */
  ghost predicate LimitedCode(freq: seq<nat>, lengths: seq<nat>, maxLen: nat, t: nat) {
    var used := |Used(freq, |freq|)|;
    && CodesUsed(freq, lengths)
    && (forall s :: 0 <= s < |lengths| ==> lengths[s] <= maxLen <= t)
    && (used == 0 ==> maxLen == 0)
    && (used == 1 ==> maxLen == 1)
    && (used <= 1 ==> 2 * TableKraft(lengths, |lengths|, t) == used * Pow2(t))
    && (used >= 2 ==> TableKraft(lengths, |lengths|, t) == Pow2(t))
    && (used >= 2 && Height(HuffmanTree(freq)) <= t ==>
          DepthsAgree(HuffmanTree(freq), lengths, 0) && maxLen == Height(HuffmanTree(freq)))
  }

  lemma CompleteIsLimited(freq: seq<nat>, n: seq<Tree>, h: seq<nat>, v: nat, t: nat)
    requires n == Used(freq, |freq|) && |n| >= 2 && |h| == Sym(n[|n| - 1]) + 1
    requires CompleteCode(HuffmanTree(freq), n, h, v, t) && ZeroElsewhere(n, h)
    ensures LimitedCode(freq, h, v, t)
  {
    hide HuffmanTree, Used, DepthsAgree, Height, Kraft, TableKraft, CodesUsed, ZeroElsewhere;
    TableCodesUsed(freq, n, h, v);
    TableKraftOfUsed(freq, h, |freq|, t);
    CodedLength(freq, h);
  }

  lemma CodedLength(freq: seq<nat>, h: seq<nat>)
    requires CodesUsed(freq, h)
    ensures |h| <= |freq|
  {
  }

  method LengthsOfMany(freq: seq<nat>, o: seq<Tree>, t: nat) returns (lengths: seq<nat>, maxLen: nat)
    requires 2 <= t <= 30 && Sum(freq, |freq|) <= SENTINEL_WEIGHT
    requires o == Used(freq, |freq|) && 2 <= |o| <= Pow2(t)
    ensures LimitedCode(freq, lengths, maxLen, t)
  {
    SortForMerging(freq);
    var n := SortBy(o, ByWeight());
    var root := BuildTree(n);
    UsedFacts(freq, |freq|);
    assert o[0] in o;
    var f := MaxSymbol(o);
    TreeFacts(freq);
    CodedForTree(freq, o, root, f + 1);
    var h, v := BuildLengths(root, o, f + 1, t);
    CompleteIsLimited(freq, o, h[..], v, t);
    lengths, maxLen := h[..], v;
  }

  lemma FewSymbols(freq: seq<nat>, n: seq<Tree>, lens: seq<nat>, t: nat)
    requires n == Used(freq, |freq|) && |n| <= 1 && t >= 1
    requires if n == [] then lens == []
             else |lens| == Sym(n[0]) + 1 && forall k :: 0 <= k < |lens| ==> lens[k] == if k == Sym(n[0]) then 1 else 0
    ensures LimitedCode(freq, lens, |n|, t)
  {
    hide CodesUsed, TableKraft, Used, HuffmanTree, Height, DepthsAgree, UsedWell;
    if |n| == 1 {
      UsedFacts(freq, |freq|);
      SingleInRange(freq, n);
      SingleSymbol(freq, n, lens);
      SingleKraft(lens, t);
    } else {
      NoSymbols(freq, t);
    }
  }

  lemma SingleInRange(freq: seq<nat>, n: seq<Tree>)
    requires UsedWell(n, freq, |freq|) && |n| == 1
    ensures n[0].Leaf? && n[0].s < |freq|
  {
    assert n[0] in n;
  }

  lemma SingleKraft(lens: seq<nat>, t: nat)
    requires lens != [] && t >= 1 && lens[|lens| - 1] == 1 && forall k :: 0 <= k < |lens| - 1 ==> lens[k] == 0
    ensures 2 * TableKraft(lens, |lens|, t) == Pow2(t)
  {
    NoKraft(lens, |lens| - 1, t);
  }

  lemma NoSymbols(freq: seq<nat>, t: nat)
    requires Used(freq, |freq|) == []
    ensures CodesUsed(freq, []) && TableKraft([], 0, t) == 0
  {
    forall s | 0 <= s < |freq| ensures freq[s] == 0 {
      EveryUsed(freq, s);
    }
  }

  lemma EveryUsed(freq: seq<nat>, s: nat)
    requires s < |freq|
    ensures freq[s] > 0 ==> Used(freq, |freq|) != []
  {
    UsedFacts(freq, |freq|);
    if freq[s] > 0 {
      assert Leaf(s, freq[s]) in Used(freq, |freq|);
    }
  }

  lemma {:induction false} NoKraft(lens: seq<nat>, k: nat, w: nat)
    requires k <= |lens| && forall s :: 0 <= s < k ==> lens[s] == 0
    ensures TableKraft(lens, k, w) == 0
  {
    if k > 0 {
      NoKraft(lens, k - 1, w);
    }
  }

  /** Code lengths of at most t bits for the symbols that occur. */
  method CodeLengths(freq: seq<nat>, t: nat) returns (lengths: seq<nat>, maxLen: nat)
    requires 2 <= t <= 30 && Sum(freq, |freq|) <= SENTINEL_WEIGHT
    requires |Used(freq, |freq|)| <= Pow2(t)
    ensures LimitedCode(freq, lengths, maxLen, t)
  {
    var n := CollectUsed(freq);
    if |n| == 0 {
      FewSymbols(freq, n, [], t);
      lengths, maxLen := [], 0;
    } else if |n| == 1 {
      UsedFacts(freq, |freq|);
      assert n[0] in n;
      lengths := seq(n[0].s + 1, k => if k == n[0].s then 1 else 0);
      FewSymbols(freq, n, lengths, t);
      maxLen := 1;
    } else {
      lengths, maxLen := LengthsOfMany(freq, n, t);
    }
  }
}
