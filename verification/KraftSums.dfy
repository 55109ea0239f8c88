/** Kraft sums over lists of leaves, in units of 2^-w, and how one changed length moves them. */
module KraftSums {
  import opened Bits
  import opened Huffman

  function Sym(x: Tree): nat {
    if x.Leaf? then x.s else 0
  }

  /** What a code word of length len uses up, in units of 2^-w. */
  function Share(len: nat, w: nat): nat {
    if len <= w then Pow2(w - len) else 0
  }

  function LenAt(h: seq<nat>, s: nat): nat {
    if s < |h| then h[s] else 0
  }

  function LenOf(h: seq<nat>, x: Tree): nat {
    LenAt(h, Sym(x))
  }

  function Kraft(ts: seq<Tree>, h: seq<nat>, w: nat): nat {
    if ts == [] then 0 else Share(LenOf(h, ts[0]), w) + Kraft(ts[1..], h, w)
  }

  ghost predicate Distinct(ts: seq<Tree>) {
    forall i, j :: 0 <= i < j < |ts| ==> Sym(ts[i]) != Sym(ts[j])
  }

  lemma {:induction false} KraftConcat(a: seq<Tree>, b: seq<Tree>, h: seq<nat>, w: nat)
    ensures Kraft(a + b, h, w) == Kraft(a, h, w) + Kraft(b, h, w)
  {
    if a == [] {
      assert a + b == b;
    } else {
      assert (a + b)[1..] == a[1..] + b;
      KraftConcat(a[1..], b, h, w);
    }
  }

  lemma KraftSplit(ts: seq<Tree>, k: nat, h: seq<nat>, w: nat)
    requires k <= |ts|
    ensures Kraft(ts, h, w) == Kraft(ts[..k], h, w) + Kraft(ts[k..], h, w)
  {
    assert ts == ts[..k] + ts[k..];
    KraftConcat(ts[..k], ts[k..], h, w);
  }

  lemma KraftTakeOut(ts: seq<Tree>, k: nat, h: seq<nat>, w: nat)
    requires k < |ts|
    ensures Kraft(ts, h, w) == Share(LenOf(h, ts[k]), w) + Kraft(ts[..k], h, w) + Kraft(ts[k + 1..], h, w)
  {
    KraftSplit(ts, k, h, w);
    assert ts[k..][1..] == ts[k + 1..];
  }

  /** A permutation holds the first element of the other somewhere, and without it permutes the rest. */
  lemma TakeOutFirst(a: seq<Tree>, b: seq<Tree>) returns (k: nat)
    requires a != [] && multiset(a) == multiset(b)
    ensures k < |b| && b[k] == a[0] && multiset(a[1..]) == multiset(b[..k] + b[k + 1..])
  {
    assert a[0] in multiset(b);
    k :| 0 <= k < |b| && b[k] == a[0];
    assert a == [a[0]] + a[1..];
    assert b == b[..k] + [b[k]] + b[k + 1..];
    assert multiset(a) == multiset{a[0]} + multiset(a[1..]);
    assert multiset(b) == multiset{a[0]} + multiset(b[..k] + b[k + 1..]);
    assert multiset(a[1..]) == multiset(a) - multiset{a[0]};
  }

  /** A Kraft sum does not depend on the order of its terms. */
  lemma {:induction false} KraftPermutation(a: seq<Tree>, b: seq<Tree>, h: seq<nat>, w: nat)
    requires multiset(a) == multiset(b)
    ensures Kraft(a, h, w) == Kraft(b, h, w)
  {
    hide Kraft;
    if a == [] {
      assert |multiset(b)| == 0;
    } else {
      var k := TakeOutFirst(a, b);
      KraftPermutation(a[1..], b[..k] + b[k + 1..], h, w);
      KraftConcat(b[..k], b[k + 1..], h, w);
      KraftTakeOut(a, 0, h, w);
      KraftTakeOut(b, k, h, w);
      KraftConcat(a[..0], a[1..], h, w);
      assert a[..0] + a[1..] == a[1..];
    }
  }

  lemma {:induction false} KraftFrame(ts: seq<Tree>, h: seq<nat>, h': seq<nat>, w: nat)
    requires forall x :: x in ts ==> LenOf(h, x) == LenOf(h', x)
    ensures Kraft(ts, h, w) == Kraft(ts, h', w)
  {
    if ts != [] {
      KraftFrame(ts[1..], h, h', w);
    }
  }

  /** Changing one length replaces exactly its own share. */
  lemma KraftUpdate(ts: seq<Tree>, k: nat, h: seq<nat>, len: nat, w: nat)
    requires k < |ts| && Distinct(ts) && Sym(ts[k]) < |h|
    ensures Kraft(ts, h[Sym(ts[k]) := len], w) + Share(LenOf(h, ts[k]), w)
         == Kraft(ts, h, w) + Share(len, w)
  {
    var h' := h[Sym(ts[k]) := len];
    KraftTakeOut(ts, k, h, w);
    KraftTakeOut(ts, k, h', w);
    forall x | x in ts[..k] || x in ts[k + 1..] ensures LenOf(h, x) == LenOf(h', x) {
      if x in ts[..k] {
        var j :| 0 <= j < k && ts[j] == x;
      } else {
        var j :| 0 <= j < |ts| - k - 1 && ts[k + 1..][j] == x;
        assert ts[k + 1 + j] == x;
      }
    }
    KraftFrame(ts[..k], h, h', w);
    KraftFrame(ts[k + 1..], h, h', w);
  }

  ghost predicate AtMost(ts: seq<Tree>, h: seq<nat>, m: nat) {
    forall x :: x in ts ==> LenOf(h, x) <= m
  }

  /** When no length exceeds m, finer units only scale the sum: it is a multiple of 2^(w-m). */
  lemma {:induction false} KraftRescale(ts: seq<Tree>, h: seq<nat>, m: nat, w: nat)
    requires m <= w && AtMost(ts, h, m)
    ensures Kraft(ts, h, w) == Pow2(w - m) * Kraft(ts, h, m)
  {
    if ts != [] {
      var len := LenOf(h, ts[0]);
      assert ts[0] in ts;
      Pow2Add(w - m, m - len);
      assert w - m + (m - len) == w - len;
      KraftRescale(ts[1..], h, m, w);
      assert Pow2(w - m) * (Pow2(m - len) + Kraft(ts[1..], h, m))
          == Pow2(w - m) * Pow2(m - len) + Pow2(w - m) * Kraft(ts[1..], h, m);
    }
  }

  lemma {:induction false} KraftAllAt(ts: seq<Tree>, h: seq<nat>, w: nat)
    requires forall x :: x in ts ==> LenOf(h, x) == w
    ensures Kraft(ts, h, w) == |ts|
  {
    if ts != [] {
      assert ts[0] in ts;
      KraftAllAt(ts[1..], h, w);
    }
  }

  /** Every leaf of t, which hangs at depth d, has its depth recorded in h. */
  ghost predicate DepthsAgree(t: Tree, h: seq<nat>, d: nat) {
    if t.Node? then DepthsAgree(t.left, h, d + 1) && DepthsAgree(t.right, h, d + 1)
    else t.Leaf? && t.s < |h| && h[t.s] == d
  }

  /** The leaf depths of a binary tree use up exactly what its root does. */
  lemma {:induction false} KraftOfTree(t: Tree, h: seq<nat>, d: nat, w: nat)
    requires DepthsAgree(t, h, d) && d + Height(t) <= w
    ensures Kraft(Leaves(t), h, w) == Pow2(w - d)
  {
    if t.Node? {
      KraftOfTree(t.left, h, d + 1, w);
      KraftOfTree(t.right, h, d + 1, w);
      KraftConcat(Leaves(t.left), Leaves(t.right), h, w);
    } else {
      assert Leaves(t)[1..] == [];
    }
  }

  lemma {:induction false} LeafDepths(t: Tree, h: seq<nat>, d: nat)
    requires DepthsAgree(t, h, d)
    ensures forall x :: x in Leaves(t) ==> x.Leaf? && x.s < |h| && d <= h[x.s] <= d + Height(t)
    ensures t.Node? ==> forall x :: x in Leaves(t) ==> h[x.s] > d
  {
    if t.Node? {
      LeafDepths(t.left, h, d + 1);
      LeafDepths(t.right, h, d + 1);
    }
  }

  lemma {:induction false} DeepestLeaf(t: Tree, h: seq<nat>, d: nat) returns (x: Tree)
    requires DepthsAgree(t, h, d)
    ensures x in Leaves(t) && x.Leaf? && x.s < |h| && h[x.s] == d + Height(t)
  {
    if t.Node? {
      if Height(t.left) > Height(t.right) {
        x := DeepestLeaf(t.left, h, d + 1);
      } else {
        x := DeepestLeaf(t.right, h, d + 1);
      }
    } else {
      x := t;
    }
  }

  /** The Kraft sum of the first k entries of a table of code lengths; 0 marks an unused symbol. */
  function TableKraft(lens: seq<nat>, k: nat, w: nat): nat
    requires k <= |lens|
  {
    if k == 0 then 0
    else TableKraft(lens, k - 1, w) + (if lens[k - 1] > 0 then Share(lens[k - 1], w) else 0)
  }
}
