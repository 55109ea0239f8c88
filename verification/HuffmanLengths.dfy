/** Code lengths from frequencies: collect, sort, merge, read depths off the tree, then limit. */
module HuffmanLengths {
  import opened Huffman

  // ---------- collecting and sorting ----------

  /** The used symbols among the first k, in symbol order. */
  function Used(freq: seq<nat>, k: nat): seq<Tree>
    requires k <= |freq|
  {
    if k == 0 then []
    else Used(freq, k - 1) + (if freq[k - 1] > 0 then [Leaf(k - 1, freq[k - 1])] else [])
  }

  function Sum(freq: seq<nat>, k: nat): nat
    requires k <= |freq|
  {
    if k == 0 then 0 else Sum(freq, k - 1) + freq[k - 1]
  }

  ghost predicate SymbolsAscend(ts: seq<Tree>) {
    forall i, j :: 0 <= i < j < |ts| ==> ts[i].Leaf? && ts[j].Leaf? && ts[i].s < ts[j].s
  }

  /** In symbol order, exactly the symbols below k with a frequency, each with it. */
  ghost predicate UsedWell(u: seq<Tree>, freq: seq<nat>, k: nat)
    requires k <= |freq|
  {
    && SymbolsAscend(u) && |u| <= k
    && (forall x :: x in u ==> x.Leaf? && x.s < k && x.f == freq[x.s] && x.f > 0)
    && (forall s :: 0 <= s < k && freq[s] > 0 ==> Leaf(s, freq[s]) in u)
  }

  lemma UsedWellNext(u: seq<Tree>, freq: seq<nat>, k: nat)
    requires k < |freq| && UsedWell(u, freq, k)
    ensures UsedWell(u + (if freq[k] > 0 then [Leaf(k, freq[k])] else []), freq, k + 1)
  {
    if freq[k] > 0 {
      var x := Leaf(k, freq[k]);
      var u' := u + [x];
      assert u'[|u|] == x;
      forall i, j | 0 <= i < j < |u'| ensures u'[i].Leaf? && u'[j].Leaf? && u'[i].s < u'[j].s {
        assert u[i] in u;
      }
      forall s | 0 <= s < k + 1 && freq[s] > 0 ensures Leaf(s, freq[s]) in u' {
        if s < k {
          assert Leaf(s, freq[s]) in u;
        }
      }
    }
  }

  lemma {:induction false} UsedFacts(freq: seq<nat>, k: nat)
    requires k <= |freq|
    ensures UsedWell(Used(freq, k), freq, k)
    ensures TotalWeight(Used(freq, k)) == Sum(freq, k)
  {
    hide UsedWell;
    if k > 0 {
      UsedFacts(freq, k - 1);
      UsedWellNext(Used(freq, k - 1), freq, k - 1);
      if freq[k - 1] > 0 {
        AllLeavesAppend(Used(freq, k - 1), Leaf(k - 1, freq[k - 1]));
      } else {
        assert Used(freq, k) == Used(freq, k - 1);
      }
    } else {
      UsedWellNone(freq);
    }
  }

  lemma UsedWellNone(freq: seq<nat>)
    ensures UsedWell(Used(freq, 0), freq, 0) && TotalWeight(Used(freq, 0)) == Sum(freq, 0)
  {
  }

  /** A stable sort by an order given as "may stand before". */
  function SortBy(ts: seq<Tree>, le: (Tree, Tree) -> bool): seq<Tree> {
    if ts == [] then [] else InsertBy(ts[0], SortBy(ts[1..], le), le)
  }

  function InsertBy(x: Tree, ts: seq<Tree>, le: (Tree, Tree) -> bool): seq<Tree> {
    if ts == [] || le(x, ts[0]) then [x] + ts else [ts[0]] + InsertBy(x, ts[1..], le)
  }

  ghost predicate TotalPreorder(le: (Tree, Tree) -> bool) {
    && (forall a, b :: le(a, b) || le(b, a))
    && (forall a, b, c :: le(a, b) && le(b, c) ==> le(a, c))
  }

  ghost predicate SortedBy(ts: seq<Tree>, le: (Tree, Tree) -> bool) {
    forall i, j :: 0 <= i < j < |ts| ==> le(ts[i], ts[j])
  }

  lemma {:induction false} InsertBySorts(x: Tree, ts: seq<Tree>, le: (Tree, Tree) -> bool)
    requires TotalPreorder(le) && SortedBy(ts, le)
    ensures SortedBy(InsertBy(x, ts, le), le)
    ensures multiset(InsertBy(x, ts, le)) == multiset(ts) + multiset{x}
  {
    if ts == [] || le(x, ts[0]) {
      assert multiset([x] + ts) == multiset{x} + multiset(ts);
    } else {
      InsertBySorts(x, ts[1..], le);
      var rest := InsertBy(x, ts[1..], le);
      InsertAfterHead(x, ts, rest, le);
    }
  }

  lemma InsertAfterHead(x: Tree, ts: seq<Tree>, rest: seq<Tree>, le: (Tree, Tree) -> bool)
    requires ts != [] && SortedBy(ts, le) && SortedBy(rest, le) && multiset(rest) == multiset(ts[1..]) + multiset{x}
    requires le(ts[0], x)
    ensures SortedBy([ts[0]] + rest, le) && multiset([ts[0]] + rest) == multiset(ts) + multiset{x}
  {
    assert ts == [ts[0]] + ts[1..];
    forall j | 0 <= j < |rest| ensures le(ts[0], rest[j]) {
      assert rest[j] in multiset(rest);
      if rest[j] != x {
        var k :| 1 <= k < |ts| && ts[k] == rest[j];
      }
    }
  }

  /** Sorting gives a sorted permutation. */
  lemma {:induction false} SortBySorts(ts: seq<Tree>, le: (Tree, Tree) -> bool)
    requires TotalPreorder(le)
    ensures SortedBy(SortBy(ts, le), le)
    ensures multiset(SortBy(ts, le)) == multiset(ts)
  {
    if ts != [] {
      SortBySorts(ts[1..], le);
      InsertBySorts(ts[0], SortBy(ts[1..], le), le);
      assert ts == [ts[0]] + ts[1..];
    }
  }

  // ---------- merging in place ----------

  lemma {:induction false} MemberWeight(ts: seq<Tree>, x: Tree)
    requires x in ts
    ensures x.f <= TotalWeight(ts)
    ensures |ts| > 1 && (forall y :: y in ts ==> y.f >= 1) ==> x.f < TotalWeight(ts)
  {
    if ts[0] == x {
      if |ts| > 1 {
        MemberWeight(ts[1..], ts[1]);
      }
    } else {
      MemberWeight(ts[1..], x);
    }
  }

  lemma QueueMembersPositive(leaves: seq<Tree>, nodes: seq<Tree>, taken: nat)
    requires Queues(leaves, nodes, taken)
    ensures forall y :: y in leaves || y in nodes ==> y.f >= 1
  {
    forall y | y in nodes ensures y.f >= 1 {
      LeastWeightPositive(Height(y));
    }
  }

  /** While two trees are left, an inner node is lighter than the sentinel. */
  lemma LighterThanSentinel(leaves: seq<Tree>, nodes: seq<Tree>, taken: nat, x: Tree)
    requires Queues(leaves, nodes, taken) && x in nodes && |leaves| + |nodes| > 1
    requires TotalWeight(leaves) + TotalWeight(nodes) <= SENTINEL_WEIGHT
    ensures x.f < SENTINEL_WEIGHT
  {
    QueueMembersPositive(leaves, nodes, taken);
    MemberWeight(nodes, x);
    if leaves != [] {
      MemberWeight(leaves, leaves[0]);
    }
  }

  ghost predicate Mergeable(leaves: seq<Tree>) {
    && Queues(leaves, [], 0)
    && TotalWeight(leaves) <= SENTINEL_WEIGHT
  }

  /** After one tree was taken, a remaining inner node is still lighter than the sentinel. */
  lemma SecondLighterThanSentinel(leaves: seq<Tree>, nodes: seq<Tree>, u: Tree)
    requires nodes != [] && u.f >= 1
    requires u.f + TotalWeight(leaves) + TotalWeight(nodes) <= SENTINEL_WEIGHT
    ensures nodes[0].f < SENTINEL_WEIGHT
  {
    MemberWeight(nodes, nodes[0]);
  }

  /** One joining step on the two queues, with everything it keeps. */
  lemma MergeStep(leaves: seq<Tree>, nodes: seq<Tree>, taken: nat)
    requires |leaves| + |nodes| > 1 && Queues(leaves, nodes, taken)
    requires TotalWeight(leaves) + TotalWeight(nodes) <= SENTINEL_WEIGHT
    ensures var (u, l1, n1) := Pick(leaves, nodes);
            var (a, l2, n2) := Pick(l1, n1);
            && Queues(l2, n2 + [Join(u, a)], a.f)
            && TotalWeight(l2) + TotalWeight(n2 + [Join(u, a)]) == TotalWeight(leaves) + TotalWeight(nodes)
            && Merge(l2, n2 + [Join(u, a)]) == Merge(leaves, nodes)
            && (nodes != [] ==> nodes[0].f < SENTINEL_WEIGHT)
            && (n1 != [] ==> n1[0].f < SENTINEL_WEIGHT)
  {
    StepKeepsQueues(leaves, nodes, taken);
    StepKeepsBag(leaves, nodes);
    if nodes != [] {
      LighterThanSentinel(leaves, nodes, taken, nodes[0]);
    }
    var (u, l1, n1) := Pick(leaves, nodes);
    if n1 != [] {
      QueueMembersPositive(leaves, nodes, taken);
      PickKeepsBag(leaves, nodes);
      assert u in leaves || u in nodes;
      SecondLighterThanSentinel(l1, n1, u);
    }
  }

  /** Take the lighter queue head; the sentinel at n[i] stands for an exhausted leaf queue. */
  method TakeLighter(n: seq<Tree>, c: nat, l: nat, d: nat, i: nat) returns (x: Tree, c': nat, d': nat)
    requires c <= l <= d <= i < |n| && (c < l || d < i)
    requires n[i] == Sentinel(SENTINEL_WEIGHT)
    requires c < l ==> n[c].f < SENTINEL_WEIGHT
    ensures c <= c' <= l && d <= d' <= i && c' + d' == c + d + 1
    ensures (x, n[d'..i], n[c'..l]) == Pick(n[d..i], n[c..l])
  {
    if c != l && n[c].f < n[d].f {
      x, c', d' := n[c], c + 1, d;
    } else {
      x, c', d' := n[d], c, d + 1;
    }
  }

  lemma SlotWritten(n: seq<Tree>, c: nat, l: nat, d: nat, i: nat, x: Tree)
    requires c <= l < d <= i < |n|
    ensures n[l := x][c..l + 1] == n[c..l] + [x]
    ensures n[l := x][d..i] == n[d..i]
  {
  }

  /** Where the merge stands: leaves from d on, inner nodes from c to l, the rest consumed. */
  ghost predicate Merging(n: seq<Tree>, c: nat, l: nat, d: nat, i: nat, taken: nat, sorted: seq<Tree>) {
    && c < l < d <= i < |n| && c + d == 2 * l && l <= i - 1
    && n[i] == Sentinel(SENTINEL_WEIGHT)
    && Queues(n[d..i], n[c..l], taken)
    && TotalWeight(n[d..i]) + TotalWeight(n[c..l]) <= SENTINEL_WEIGHT
    && sorted != [] && Merge(n[d..i], n[c..l]) == Merge(sorted, [])
  }

  /** One round of the loop: take two trees, write their join into slot l. */
  method JoinTwo(n: seq<Tree>, c: nat, l: nat, d: nat, i: nat, ghost taken: nat, ghost sorted: seq<Tree>)
    returns (n': seq<Tree>, c': nat, d': nat, ghost taken': nat)
    requires Merging(n, c, l, d, i, taken, sorted) && l != i - 1
    ensures Merging(n', c', l + 1, d', i, taken', sorted)
  {
    MergeStep(n[d..i], n[c..l], taken);
    var u, c1, d1 := TakeLighter(n, c, l, d, i);
    var a, c2, d2 := TakeLighter(n, c1, l, d1, i);
    taken' := a.f;
    SlotWritten(n, c2, l, d2, i, Join(u, a));
    n', c', d' := n[l := Join(u, a)], c2, d2;
  }

  lemma FirstMerge(sorted: seq<Tree>)
    requires |sorted| >= 2 && Mergeable(sorted)
    ensures var x := Join(sorted[0], sorted[1]);
            && Queues(sorted[2..], [x], sorted[1].f)
            && TotalWeight(sorted[2..]) + TotalWeight([x]) <= SENTINEL_WEIGHT
            && Merge(sorted[2..], [x]) == Merge(sorted, [])
  {
    hide Queues, Merge;
    MergeStep(sorted, [], 0);
    assert sorted[1..][1..] == sorted[2..];
    assert [] + [Join(sorted[0], sorted[1])] == [Join(sorted[0], sorted[1])];
  }

  lemma MergeStart(sorted: seq<Tree>)
    requires |sorted| >= 2 && Mergeable(sorted)
    ensures var n := sorted + [Sentinel(SENTINEL_WEIGHT)];
            Merging(n[0 := Join(n[0], n[1])], 0, 1, 2, |sorted|, n[1].f, sorted)
  {
    hide Queues, Mergeable, TotalWeight, Merge, Balanced;
    var n := sorted + [Sentinel(SENTINEL_WEIGHT)];
    FirstMerge(sorted);
    SlotWritten(n, 0, 0, 2, |sorted|, Join(n[0], n[1]));
    assert n[0..0] == [] && n[2..|sorted|] == sorted[2..];
  }

  lemma MergeDone(n: seq<Tree>, c: nat, l: nat, d: nat, i: nat, taken: nat, sorted: seq<Tree>)
    requires Merging(n, c, l, d, i, taken, sorted) && l == i - 1
    ensures n[l - 1] == Merge(sorted, [])
  {
    assert n[c..l] == [n[l - 1]] && n[d..i] == [];
  }

  /** Two-queue merging inside one list: inner nodes overwrite the consumed leaves from the front. */
  method BuildTree(sorted: seq<Tree>) returns (root: Tree)
    requires |sorted| >= 2 && Mergeable(sorted)
    ensures root == Merge(sorted, [])
  {
    var i := |sorted|;
    var n := sorted + [Sentinel(SENTINEL_WEIGHT)];
    var c: nat, l: nat, d: nat := 0, 1, 2;
    ghost var taken := n[1].f;
    MergeStart(sorted);
    n := n[0 := Join(n[0], n[1])];
    while l != i - 1
      invariant Merging(n, c, l, d, i, taken, sorted)
    {
      n, c, d, taken := JoinTwo(n, c, l, d, i, taken, sorted);
      l := l + 1;
    }
    MergeDone(n, c, l, d, i, taken, sorted);
    root := n[l - 1];
  }
}
