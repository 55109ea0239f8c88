/** The Huffman tree built by two-queue merging, as a recursion on the two queues. */
module Huffman {

  datatype Tree = Leaf(s: nat, f: nat) | Node(f: nat, left: Tree, right: Tree) | Sentinel(f: nat)

  /** The weight of the sentinel behind the sorted leaves: above every weight it is compared with. */
  const SENTINEL_WEIGHT := 25001

  function Height(t: Tree): nat {
    if t.Node? then 1 + Max(Height(t.left), Height(t.right)) else 0
  }

  function Max(a: int, b: int): int {
    if a > b then a else b
  }

  /** The leaves from left to right. */
  function Leaves(t: Tree): seq<Tree> {
    if t.Node? then Leaves(t.left) + Leaves(t.right) else [t]
  }

  function AllLeaves(ts: seq<Tree>): seq<Tree> {
    if ts == [] then [] else Leaves(ts[0]) + AllLeaves(ts[1..])
  }

  function TotalWeight(ts: seq<Tree>): nat {
    if ts == [] then 0 else ts[0].f + TotalWeight(ts[1..])
  }

  /** Take the lighter of the two queue heads; on a tie the leaf goes first. */
  function Pick(leaves: seq<Tree>, nodes: seq<Tree>): (r: (Tree, seq<Tree>, seq<Tree>))
    requires |leaves| + |nodes| > 0
    ensures |r.1| + |r.2| == |leaves| + |nodes| - 1
  {
    if nodes != [] && (leaves == [] || nodes[0].f < leaves[0].f)
    then (nodes[0], leaves, nodes[1..])
    else (leaves[0], leaves[1..], nodes)
  }

  function Join(u: Tree, a: Tree): Tree {
    Node(u.f + a.f, u, a)
  }

  /** Repeatedly join the two lightest trees until one is left. */
  function Merge(leaves: seq<Tree>, nodes: seq<Tree>): Tree
    requires |leaves| + |nodes| > 0
    decreases |leaves| + |nodes|
  {
    if |leaves| + |nodes| == 1 then
      if leaves == [] then nodes[0] else leaves[0]
    else
      var (u, l1, n1) := Pick(leaves, nodes);
      var (a, l2, n2) := Pick(l1, n1);
      Merge(l2, n2 + [Join(u, a)])
  }

  ghost predicate Ascending(ts: seq<Tree>) {
    forall i, j :: 0 <= i < j < |ts| ==> ts[i].f <= ts[j].f
  }

  /** The least weight a tree of height h can have: 1, 2, 3, 5, 8, ... */
  function LeastWeight(h: nat): nat {
    if h == 0 then 1 else if h == 1 then 2 else LeastWeight(h - 1) + LeastWeight(h - 2)
  }

  /** What merging keeps: sorted queues, nothing lighter than what was already taken. */
  ghost predicate Queues(leaves: seq<Tree>, nodes: seq<Tree>, taken: nat) {
    && Ascending(leaves) && Ascending(nodes)
    && (forall x :: x in leaves ==> x.Leaf? && x.f >= taken && x.f >= 1)
    && (forall x :: x in nodes ==> Balanced(x, taken))
    && (nodes != [] ==> nodes[|nodes| - 1].f <= 2 * taken)
  }

  ghost predicate Balanced(x: Tree, taken: nat) {
    && x.Node? && x.f >= taken && x.f >= LeastWeight(Height(x))
    && x.left.f <= taken && x.right.f <= taken
    && x.left.f >= LeastWeight(Height(x.left)) && x.right.f >= LeastWeight(Height(x.right))
  }

  lemma PickKeepsQueues(leaves: seq<Tree>, nodes: seq<Tree>, taken: nat)
    requires |leaves| + |nodes| > 0 && Queues(leaves, nodes, taken)
    ensures var (u, l1, n1) := Pick(leaves, nodes);
            && u.f >= taken && u.f >= LeastWeight(Height(u))
            && (u.Node? ==> Balanced(u, taken)) && !u.Sentinel?
            && Queues(l1, n1, u.f)
  {
    hide Height, LeastWeight;
    var (u, l1, n1) := Pick(leaves, nodes);
    assert leaves != [] ==> leaves[0] in leaves;
    assert nodes != [] ==> nodes[0] in nodes;
    if u.Leaf? {
      LeafHeight(u);
      LeastWeightStep(0);
    }
    forall x | x in l1 ensures x.Leaf? && x.f >= u.f && x.f >= 1 {
      assert x in leaves;
    }
    forall x | x in n1 ensures Balanced(x, u.f) {
      assert x in nodes;
    }
  }

  /** The joined weight reaches the bound of the next height: the lighter side outweighs
      both children of the taller one. */
  lemma JoinWeight(tall: Tree, low: Tree)
    requires Height(tall) >= Height(low) && tall.f >= LeastWeight(Height(tall)) && low.f >= 1
    requires tall.Node? ==>
               && low.f >= tall.left.f >= LeastWeight(Height(tall.left))
               && low.f >= tall.right.f >= LeastWeight(Height(tall.right))
    ensures tall.f + low.f >= LeastWeight(1 + Height(tall))
  {
    hide LeastWeight, Height;
    var h := Height(tall);
    LeastWeightStep(h);
    if tall.Node? {
      TallerChild(tall);
    } else {
      LeafHeight(tall);
    }
  }

  lemma LeastWeightStep(h: nat)
    ensures LeastWeight(h + 1) == if h == 0 then 2 else LeastWeight(h) + LeastWeight(h - 1)
    ensures LeastWeight(0) == 1
  {
  }

  lemma TallerChild(t: Tree)
    requires t.Node?
    ensures Height(t) > 0 && (Height(t.left) == Height(t) - 1 || Height(t.right) == Height(t) - 1)
  {
  }

  lemma LeafHeight(t: Tree)
    requires !t.Node?
    ensures Height(t) == 0
  {
  }

  lemma {:induction false} LeastWeightPositive(h: nat)
    ensures LeastWeight(h) >= 1
  {
    if h > 1 {
      LeastWeightPositive(h - 1);
      LeastWeightPositive(h - 2);
    }
  }

  /** Both sides meet the bound, and neither outweighs a child of the other. */
  ghost predicate Peers(x: Tree, y: Tree) {
    && x.f >= LeastWeight(Height(x)) && x.f >= 1
    && (x.Node? ==>
          && y.f >= x.left.f >= LeastWeight(Height(x.left))
          && y.f >= x.right.f >= LeastWeight(Height(x.right)))
  }

  lemma JoinReachesBound(u: Tree, a: Tree)
    requires Peers(u, a) && Peers(a, u)
    ensures Join(u, a).f >= LeastWeight(Height(Join(u, a)))
  {
    if Height(u) >= Height(a) {
      JoinWeight(u, a);
      assert Height(Join(u, a)) == 1 + Height(u);
    } else {
      JoinWeight(a, u);
      assert Height(Join(u, a)) == 1 + Height(a);
    }
  }

  lemma JoinIsBalanced(u: Tree, a: Tree, before: nat)
    requires before <= u.f <= a.f
    requires u.f >= LeastWeight(Height(u)) && a.f >= LeastWeight(Height(a))
    requires u.Node? ==> Balanced(u, before)
    requires a.Node? ==> Balanced(a, u.f)
    ensures Balanced(Join(u, a), a.f)
  {
    LeastWeightPositive(Height(u));
    LeastWeightPositive(Height(a));
    JoinReachesBound(u, a);
  }

  lemma AppendKeepsQueues(leaves: seq<Tree>, nodes: seq<Tree>, x: Tree, taken: nat)
    requires Queues(leaves, nodes, taken) && Balanced(x, taken)
    requires x.f <= 2 * taken
    requires nodes != [] ==> nodes[|nodes| - 1].f <= x.f
    ensures Queues(leaves, nodes + [x], taken)
  {
    var all := nodes + [x];
    forall i, j | 0 <= i < j < |all| ensures all[i].f <= all[j].f {
      if j == |nodes| {
        assert nodes[i].f <= nodes[|nodes| - 1].f;
      }
    }
  }

  lemma StepKeepsQueues(leaves: seq<Tree>, nodes: seq<Tree>, taken: nat)
    requires |leaves| + |nodes| > 1 && Queues(leaves, nodes, taken)
    ensures var (u, l1, n1) := Pick(leaves, nodes);
            var (a, l2, n2) := Pick(l1, n1);
            Queues(l2, n2 + [Join(u, a)], a.f)
  {
    var (u, l1, n1) := Pick(leaves, nodes);
    PickKeepsQueues(leaves, nodes, taken);
    var (a, l2, n2) := Pick(l1, n1);
    PickKeepsQueues(l1, n1, u.f);
    JoinIsBalanced(u, a, taken);
    if n2 != [] {
      assert n2[|n2| - 1] == nodes[|nodes| - 1];
      assert n2[|n2| - 1].f <= 2 * taken <= u.f + a.f;
    }
    AppendKeepsQueues(l2, n2, Join(u, a), a.f);
  }

  /** No tree of height h built by merging weighs less than LeastWeight(h). */
  lemma {:induction false} MergedWeightBound(leaves: seq<Tree>, nodes: seq<Tree>, taken: nat)
    requires |leaves| + |nodes| > 0 && Queues(leaves, nodes, taken)
    ensures Merge(leaves, nodes).f >= LeastWeight(Height(Merge(leaves, nodes)))
    decreases |leaves| + |nodes|
  {
    if |leaves| + |nodes| > 1 {
      StepKeepsQueues(leaves, nodes, taken);
      var (u, l1, n1) := Pick(leaves, nodes);
      var (a, l2, n2) := Pick(l1, n1);
      MergedWeightBound(l2, n2 + [Join(u, a)], a.f);
    } else {
      PickKeepsQueues(leaves, nodes, taken);
    }
  }

  lemma {:induction false} AllLeavesAppend(ts: seq<Tree>, x: Tree)
    ensures AllLeaves(ts + [x]) == AllLeaves(ts) + Leaves(x)
    ensures TotalWeight(ts + [x]) == TotalWeight(ts) + x.f
  {
    if ts == [] {
      assert ts + [x] == [x] && [x][1..] == [];
    } else {
      assert (ts + [x])[1..] == ts[1..] + [x];
      AllLeavesAppend(ts[1..], x);
      assert AllLeaves(ts + [x]) == Leaves(ts[0]) + (AllLeaves(ts[1..]) + Leaves(x));
    }
  }

  function Bag(leaves: seq<Tree>, nodes: seq<Tree>): multiset<Tree> {
    multiset(AllLeaves(leaves)) + multiset(AllLeaves(nodes))
  }

  lemma PickKeepsBag(leaves: seq<Tree>, nodes: seq<Tree>)
    requires |leaves| + |nodes| > 0
    ensures var (u, l1, n1) := Pick(leaves, nodes);
            && Bag(leaves, nodes) == multiset(Leaves(u)) + Bag(l1, n1)
            && TotalWeight(leaves) + TotalWeight(nodes) == u.f + TotalWeight(l1) + TotalWeight(n1)
  {
  }

  lemma StepKeepsBag(leaves: seq<Tree>, nodes: seq<Tree>)
    requires |leaves| + |nodes| > 1
    ensures var (u, l1, n1) := Pick(leaves, nodes);
            var (a, l2, n2) := Pick(l1, n1);
            && Bag(leaves, nodes) == Bag(l2, n2 + [Join(u, a)])
            && TotalWeight(leaves) + TotalWeight(nodes) == TotalWeight(l2) + TotalWeight(n2 + [Join(u, a)])
  {
    var (u, l1, n1) := Pick(leaves, nodes);
    PickKeepsBag(leaves, nodes);
    var (a, l2, n2) := Pick(l1, n1);
    PickKeepsBag(l1, n1);
    AllLeavesAppend(n2, Join(u, a));
    assert Leaves(Join(u, a)) == Leaves(u) + Leaves(a);
  }

  /** Merging neither loses nor duplicates a leaf, and the root carries the whole weight. */
  lemma {:induction false} MergeKeepsLeaves(leaves: seq<Tree>, nodes: seq<Tree>)
    requires |leaves| + |nodes| > 0
    ensures multiset(Leaves(Merge(leaves, nodes))) == Bag(leaves, nodes)
    ensures Merge(leaves, nodes).f == TotalWeight(leaves) + TotalWeight(nodes)
    decreases |leaves| + |nodes|
  {
    if |leaves| + |nodes| > 1 {
      StepKeepsBag(leaves, nodes);
      var (u, l1, n1) := Pick(leaves, nodes);
      var (a, l2, n2) := Pick(l1, n1);
      MergeKeepsLeaves(l2, n2 + [Join(u, a)]);
    } else {
      PickKeepsBag(leaves, nodes);
      var (u, l1, n1) := Pick(leaves, nodes);
      assert l1 == [] && n1 == [];
    }
  }

  lemma {:induction false} LeastWeightGrows(h: nat)
    requires h >= 21
    ensures LeastWeight(h) >= 28657
    decreases h
  {
    if h == 21 {
      assert LeastWeight(7) == 34 && LeastWeight(8) == 55;
      assert LeastWeight(9) == 89 && LeastWeight(10) == 144;
      assert LeastWeight(11) == 233 && LeastWeight(12) == 377;
      assert LeastWeight(13) == 610 && LeastWeight(14) == 987;
      assert LeastWeight(15) == 1597 && LeastWeight(16) == 2584;
      assert LeastWeight(17) == 4181 && LeastWeight(18) == 6765;
      assert LeastWeight(19) == 10946 && LeastWeight(20) == 17711;
    } else {
      LeastWeightGrows(h - 1);
    }
  }

  /** Leaves of total weight at most the sentinel's make a tree of height at most 20. */
  lemma HeightBound(leaves: seq<Tree>)
    requires leaves != [] && Ascending(leaves)
    requires forall x :: x in leaves ==> x.Leaf? && x.f >= 1
    requires TotalWeight(leaves) <= SENTINEL_WEIGHT
    ensures Height(Merge(leaves, [])) <= 20
  {
    MergedWeightBound(leaves, [], 0);
    MergeKeepsLeaves(leaves, []);
    if Height(Merge(leaves, [])) > 20 {
      LeastWeightGrows(Height(Merge(leaves, [])));
    }
  }
}
