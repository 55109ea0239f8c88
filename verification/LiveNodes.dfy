/** What a live iterator keeps true while the list it walks is changed: pure facts about one iterator. */
module LiveNodes {
  import opened Sequences

  type Node = nat

  function Elements(s: seq<Node>): set<Node> {
    set n | n in s
  }

  /** The members of s that are in keep, in order. */
  function Only(s: seq<Node>, keep: set<Node>): (r: seq<Node>)
    ensures |r| <= |s|
    ensures forall n :: n in r <==> n in s && n in keep
  {
    if s == [] then []
    else
      var front := Only(s[..|s| - 1], keep);
      assert s == s[..|s| - 1] + [s[|s| - 1]];
      if s[|s| - 1] in keep then front + [s[|s| - 1]] else front
  }

  lemma {:induction false} OnlyConcat(s: seq<Node>, t: seq<Node>, keep: set<Node>)
    ensures Only(s + t, keep) == Only(s, keep) + Only(t, keep)
  {
    if t == [] {
      assert s + t == s;
    } else {
      assert (s + t)[..|s + t| - 1] == s + t[..|t| - 1];
      OnlyConcat(s, t[..|t| - 1], keep);
    }
  }

  lemma {:induction false} OnlyOnly(s: seq<Node>, keep: set<Node>, less: set<Node>)
    requires less <= keep
    ensures Only(Only(s, keep), less) == Only(s, less)
  {
    if s != [] {
      var last := [s[|s| - 1]];
      OnlyOnly(s[..|s| - 1], keep, less);
      if last[0] in keep {
        OnlyConcat(Only(s[..|s| - 1], keep), last, less);
        assert last[..0] == [];
      }
    }
  }

  lemma {:induction false} OnlyNone(s: seq<Node>, keep: set<Node>)
    requires forall n | n in s :: n !in keep
    ensures Only(s, keep) == []
  {
    if s != [] {
      OnlyNone(s[..|s| - 1], keep);
    }
  }

  lemma {:induction false} OnlyAll(s: seq<Node>, keep: set<Node>)
    requires forall n | n in s :: n in keep
    ensures Only(s, keep) == s
  {
    if s != [] {
      var front, last := s[..|s| - 1], s[|s| - 1];
      assert last in s && forall n | n in front :: n in s;
      OnlyAll(front, keep);
      assert s == front + [last];
    }
  }

  lemma {:induction false} OnlyKeepsNoRepeats(s: seq<Node>, keep: set<Node>)
    requires NoRepeats(s)
    ensures NoRepeats(Only(s, keep))
  {
    if s != [] {
      OnlyKeepsNoRepeats(s[..|s| - 1], keep);
      var front := Only(s[..|s| - 1], keep);
      forall n | n in front ensures n != s[|s| - 1] {
        assert n in s[..|s| - 1];
      }
    }
  }

  /** One walk: the nodes as it began, those its callback was called with, those removed while still ahead of
      it, those inserted again, and whether an insertion spoiled it. */
  datatype Iter = Iter(order: seq<Node>, visited: seq<Node>, gone: set<Node>, readded: set<Node>, spoiled: bool)

  function Tracked(it: Iter): set<Node> {
    Elements(it.order) - it.readded
  }

  /** Of the first nodes, those visited and those ahead make up, in order, those not removed ahead of the walk. */
  ghost predicate Accounts(ahead: seq<Node>, it: Iter) {
    Only(it.visited, Tracked(it)) + Only(ahead, Tracked(it)) == Only(it.order, Tracked(it) - it.gone)
  }

  ghost predicate Sound(nodes: seq<Node>, idx: int, it: Iter) {
    && -1 <= idx < |nodes| && NoRepeats(it.order)
    && (!it.spoiled ==> Accounts(nodes[idx + 1..], it))
  }

  /** Forgetting about some nodes keeps the account. */
  lemma Forget(ahead: seq<Node>, it: Iter, nodes: set<Node>)
    requires Accounts(ahead, it)
    ensures Accounts(ahead, it.(readded := it.readded + nodes))
  {
    var it' := it.(readded := it.readded + nodes);
    var less := Tracked(it');
    assert less <= Tracked(it) && less - it.gone <= Tracked(it) - it.gone;
    OnlyConcat(Only(it.visited, Tracked(it)), Only(ahead, Tracked(it)), less);
    OnlyOnly(it.visited, Tracked(it), less);
    OnlyOnly(ahead, Tracked(it), less);
    var kept := Only(it.order, Tracked(it) - it.gone);
    OnlyGone(kept, less, it.gone);
    OnlyOnly(it.order, Tracked(it) - it.gone, less - it.gone);
  }

  lemma {:induction false} OnlyGone(s: seq<Node>, keep: set<Node>, gone: set<Node>)
    requires forall n | n in s :: n !in gone
    ensures Only(s, keep) == Only(s, keep - gone)
  {
    if s != [] {
      OnlyGone(s[..|s| - 1], keep, gone);
      assert s[|s| - 1] in s;
    }
  }

  function Inserted(it: Iter, added: seq<Node>): Iter {
    it.(readded := it.readded + Elements(added))
  }

  function Insertion(nodes: seq<Node>, p: nat, added: seq<Node>): (r: seq<Node>)
    requires p <= |nodes|
    ensures |r| == |nodes| + |added|
  {
    nodes[..p] + added + nodes[p..]
  }

  lemma AheadAfterInsertion(nodes: seq<Node>, idx: int, p: nat, added: seq<Node>)
    requires -1 <= idx < |nodes| && p <= |nodes|
    ensures p <= idx + 1 ==> Insertion(nodes, p, added)[idx + |added| + 1..] == nodes[idx + 1..]
    ensures p > idx ==> Insertion(nodes, p, added)[idx + 1..] == nodes[idx + 1..p] + (added + nodes[p..])
  {
    var r := Insertion(nodes, p, added);
    if p <= idx + 1 {
      assert r[idx + |added| + 1..] == nodes[idx + 1..];
    }
    if p > idx {
      assert r[idx + 1..] == nodes[idx + 1..p] + (added + nodes[p..]);
    }
  }

  /** Nodes that are not tracked do not show in the account. */
  lemma AddUntracked(a: seq<Node>, added: seq<Node>, b: seq<Node>, it: Iter)
    requires Accounts(a + b, it) && Elements(added) <= it.readded
    ensures Accounts(a + (added + b), it)
  {
    hide Only;
    var keep := Tracked(it);
    forall n | n in added ensures n !in keep {
      assert n in Elements(added);
    }
    OnlyNone(added, keep);
    OnlyConcat(added, b, keep);
    OnlyConcat(a, added + b, keep);
    OnlyConcat(a, b, keep);
    var empty: seq<Node> := [];
    assert empty + Only(b, keep) == Only(b, keep);
  }

  /** Nodes put in at p, with the iterator moved along or not, leave what lies ahead of it in step: it may move
      only when p is no further than the place after it, and must when p is not past it. */
  lemma InsertKeeps(nodes: seq<Node>, idx: int, it: Iter, p: nat, added: seq<Node>, moves: bool)
    requires Sound(nodes, idx, it) && p <= |nodes|
    requires if moves then p <= idx + 1 else p > idx
    ensures Sound(Insertion(nodes, p, added), if moves then idx + |added| else idx, Inserted(it, added))
  {
    hide Accounts, Insertion, Elements;
    AheadAfterInsertion(nodes, idx, p, added);
    if !it.spoiled {
      Forget(nodes[idx + 1..], it, Elements(added));
      if !moves {
        assert nodes[idx + 1..] == nodes[idx + 1..p] + nodes[p..];
        AddUntracked(nodes[idx + 1..p], added, nodes[p..], Inserted(it, added));
      }
    }
  }

  function Taken(it: Iter, n: Node, ahead: bool): Iter {
    if ahead then it.(gone := it.gone + {n}) else it
  }

  function Without(nodes: seq<Node>, e: nat): (r: seq<Node>)
    requires e < |nodes|
    ensures |r| == |nodes| - 1
  {
    nodes[..e] + nodes[e + 1..]
  }

  lemma AheadAfterRemoval(nodes: seq<Node>, idx: int, e: nat)
    requires -1 <= idx < |nodes| && e < |nodes|
    ensures idx >= e ==> Without(nodes, e)[idx..] == nodes[idx + 1..]
    ensures idx < e ==>
              && Without(nodes, e)[idx + 1..] == nodes[idx + 1..e] + nodes[e + 1..]
              && nodes[idx + 1..] == nodes[idx + 1..e] + [nodes[e]] + nodes[e + 1..]
  {
    var rest := Without(nodes, e);
    if idx >= e {
      assert rest[idx..] == nodes[idx + 1..];
    } else {
      assert rest[idx + 1..] == nodes[idx + 1..e] + nodes[e + 1..];
      assert nodes[idx + 1..] == nodes[idx + 1..e] + [nodes[e]] + nodes[e + 1..];
    }
  }

  lemma WithoutIsOnly(nodes: seq<Node>, e: nat)
    requires e < |nodes| && NoRepeats(nodes)
    ensures Without(nodes, e) == Only(nodes, Elements(nodes) - {nodes[e]})
  {
    var keep := Elements(nodes) - {nodes[e]};
    var tail, one := nodes[e + 1..], [nodes[e]];
    WithoutKeepsNoRepeats(nodes, e);
    assert nodes == nodes[..e] + one + tail;
    OnlyConcat(nodes[..e] + one, tail, keep);
    OnlyConcat(nodes[..e], one, keep);
    OnlyAll(nodes[..e], keep);
    OnlyNone(one, keep);
    OnlyAll(tail, keep);
  }

  lemma WithoutKeepsNoRepeats(nodes: seq<Node>, e: nat)
    requires e < |nodes| && NoRepeats(nodes)
    ensures NoRepeats(Without(nodes, e)) && Elements(Without(nodes, e)) == Elements(nodes) - {nodes[e]}
    ensures nodes[e] !in nodes[..e] && nodes[e] !in nodes[e + 1..]
  {
    assert nodes == nodes[..e] + [nodes[e]] + nodes[e + 1..];
    var tail := nodes[e + 1..];
    forall n | n in tail ensures n != nodes[e] {
      var i :| e < i < |nodes| && nodes[i] == n;
    }
  }

  /** Removing the node at e, with iterators at or past it moved back one. */
  lemma RemoveKeeps(nodes: seq<Node>, idx: int, it: Iter, e: nat)
    requires Sound(nodes, idx, it) && e < |nodes| && NoRepeats(nodes)
    ensures Sound(Without(nodes, e), if idx >= e then idx - 1 else idx, Taken(it, nodes[e], idx < e))
  {
    hide Accounts, Without, Elements;
    AheadAfterRemoval(nodes, idx, e);
    if !it.spoiled && idx < e {
      WithoutKeepsNoRepeats(nodes, e);
      forall n | n in nodes[idx + 1..e] ensures n in nodes[..e] {
        assert nodes[..e][idx + 1..] == nodes[idx + 1..e];
      }
      DropAhead(nodes[idx + 1..e], nodes[e], nodes[e + 1..], it);
    }
  }

  lemma DropAhead(a: seq<Node>, n: Node, b: seq<Node>, it: Iter)
    requires Accounts(a + [n] + b, it) && NoRepeats(it.order) && n !in a && n !in b
    ensures Accounts(a + b, Taken(it, n, true))
  {
    var keep := Tracked(it);
    var less := keep - {n};
    OnlyConcat(a + [n], b, keep);
    OnlyConcat(a, [n], keep);
    OnlyConcat(a, b, keep);
    var v := Only(it.visited, keep);
    var whole := Only(it.order, keep - it.gone);
    assert [n][..0] == [];
    assert v + (Only(a, keep) + Only([n], keep) + Only(b, keep)) == whole;
    if n in keep {
      OnlyKeepsNoRepeats(it.order, keep - it.gone);
      NotBefore(v, Only(a, keep), n, Only(b, keep), whole);
    }
    OnlyConcat(v, Only(a, keep) + Only([n], keep) + Only(b, keep), less);
    OnlyConcat(Only(a, keep) + Only([n], keep), Only(b, keep), less);
    OnlyConcat(Only(a, keep), Only([n], keep), less);
    OnlyNone(Only([n], keep), less);
    OnlyAll(v, less);
    OnlyAll(Only(a, keep), less);
    OnlyAll(Only(b, keep), less);
    OnlyGone(whole, less, it.gone);
    assert less - it.gone == keep - (it.gone + {n});
    OnlyOnly(it.order, keep - it.gone, less - it.gone);
  }

  lemma NotBefore(v: seq<Node>, a: seq<Node>, n: Node, b: seq<Node>, whole: seq<Node>)
    requires v + (a + [n] + b) == whole && NoRepeats(whole)
    ensures n !in v
  {
    assert whole[|v| + |a|] == n;
    forall i | 0 <= i < |v| ensures v[i] != n {
      assert whole[i] == v[i];
    }
  }

  /** Calling the callback with the next node. */
  lemma VisitKeeps(nodes: seq<Node>, idx: nat, it: Iter)
    requires idx < |nodes| && Sound(nodes, idx - 1, it)
    ensures Sound(nodes, idx, it.(visited := it.visited + [nodes[idx]]))
  {
    hide Accounts, Only;
    var n := nodes[idx];
    assert nodes[idx..] == [n] + nodes[idx + 1..];
    if !it.spoiled {
      VisitAccounts(it, n, nodes[idx + 1..]);
    }
  }

  lemma VisitAccounts(it: Iter, n: Node, ahead: seq<Node>)
    requires Accounts([n] + ahead, it)
    ensures Accounts(ahead, it.(visited := it.visited + [n]))
  {
    hide Only;
    var it' := it.(visited := it.visited + [n]);
    var keep := Tracked(it);
    assert Tracked(it') == keep;
    OnlyConcat(it.visited, [n], keep);
    OnlyConcat([n], ahead, keep);
    assert Only(it.visited, keep) + (Only([n], keep) + Only(ahead, keep)) == Only(it.visited, keep) + Only([n], keep) + Only(ahead, keep);
  }

  /** A walk about to begin. */
  lemma StartSound(nodes: seq<Node>)
    requires NoRepeats(nodes)
    ensures Sound(nodes, -1, Iter(nodes, [], {}, {}, false))
  {
    var it := Iter(nodes, [], {}, {}, false);
    assert nodes[0..] == nodes;
    assert Tracked(it) - it.gone == Tracked(it);
  }

  /** At the end of the list: every first node that was neither removed ahead of the walk nor put in again was
      visited, once, and in the order of the list. */
  lemma EndOfWalk(nodes: seq<Node>, it: Iter)
    requires Sound(nodes, |nodes| - 1, it) && !it.spoiled
    ensures Only(it.visited, Tracked(it)) == Only(it.order, Tracked(it) - it.gone)
  {
    assert nodes[|nodes|..] == [];
  }

  // ---------- splicing at a place that may lie outside the list ----------

  /** Where `splice(at, 0, x)` puts x in a list of length m: a negative place counts from the end. */
  function SpliceAt(m: nat, at: int): (p: nat)
    ensures p <= m
  {
    if at >= 0 then if at <= m then at else m
    else if m + at >= 0 then m + at
    else 0
  }

  /** The order in which nodes spliced in one after the other come to stand, where the list had length m. */
  function Block(m: nat, at: int, xs: seq<Node>): (b: seq<Node>)
    ensures |b| == |xs|
  {
    if xs == [] then []
    else
      var n := |xs| - 1;
      var b, q := Block(m, at, xs[..n]), SpliceAt(m + n, at) - SpliceAt(m, at);
      b[..q] + [xs[n]] + b[q..]
  }

  /** The list after splicing in the nodes, last first. */
  function Spliced(nodes: seq<Node>, at: int, added: seq<Node>): (r: seq<Node>)
    ensures |r| == |nodes| + |added|
  {
    Insertion(nodes, SpliceAt(|nodes|, at), Block(|nodes|, at, Reversed(added)))
  }

  lemma BlockStep(m: nat, at: int, xs: seq<Node>, x: Node)
    ensures
      var b, q := Block(m, at, xs), SpliceAt(m + |xs|, at) - SpliceAt(m, at);
      0 <= q <= |b| && Block(m, at, xs + [x]) == Insertion(b, q, [x])
  {
    assert (xs + [x])[..|xs|] == xs;
  }

  /** Putting x into a block that stands in a list puts it into the list. */
  lemma InsertionInside(nodes: seq<Node>, p: nat, b: seq<Node>, q: nat, x: Node)
    requires p <= |nodes| && q <= |b|
    ensures Insertion(Insertion(nodes, p, b), p + q, [x]) == Insertion(nodes, p, Insertion(b, q, [x]))
  {
    var r := nodes[..p] + b + nodes[p..];
    assert b == b[..q] + b[q..];
    assert r[..p + q] == nodes[..p] + b[..q] && r[p + q..] == b[q..] + nodes[p..];
  }

  /** One more splice puts its node into the block. */
  lemma SpliceStep(nodes: seq<Node>, at: int, xs: seq<Node>, x: Node)
    ensures
      var r := Insertion(nodes, SpliceAt(|nodes|, at), Block(|nodes|, at, xs));
      Insertion(r, SpliceAt(|r|, at), [x]) == Insertion(nodes, SpliceAt(|nodes|, at), Block(|nodes|, at, xs + [x]))
  {
    hide Insertion, Block, SpliceAt;
    var m, n := |nodes|, |xs|;
    var p, q := SpliceAt(m, at), SpliceAt(m + n, at) - SpliceAt(m, at);
    BlockStep(m, at, xs, x);
    InsertionInside(nodes, p, Block(m, at, xs), q, x);
  }

  lemma ElementsInserted(b: seq<Node>, q: nat, x: Node)
    requires q <= |b|
    ensures Elements(Insertion(b, q, [x])) == Elements(b) + {x}
  {
    assert b == b[..q] + b[q..];
    var r := Insertion(b, q, [x]);
    forall n | n in Elements(b) + {x} ensures n in r {
      assert n in b[..q] || n in [x] || n in b[q..];
    }
  }

  lemma BlockNone(nodes: seq<Node>, at: int)
    ensures Insertion(nodes, SpliceAt(|nodes|, at), Block(|nodes|, at, [])) == nodes
  {
  }

  lemma {:induction false} BlockElements(m: nat, at: int, xs: seq<Node>)
    ensures Elements(Block(m, at, xs)) == Elements(xs)
    ensures NoRepeats(xs) ==> NoRepeats(Block(m, at, xs))
  {
    hide NoRepeats, Insertion, SpliceAt;
    if xs == [] {
    } else {
      hide Block;
      var n := |xs| - 1;
      var front, x, q := xs[..n], xs[n], SpliceAt(m + n, at) - SpliceAt(m, at);
      BlockElements(m, at, front);
      assert xs == front + [x];
      BlockStep(m, at, front, x);
      ElementsInserted(Block(m, at, front), q, x);
      ElementsAppend(front, x);
      if NoRepeats(xs) {
        NewNotIn(front, x);
        assert x !in Elements(Block(m, at, front));
        NoRepeatsOne(x);
        InsertionNoRepeats(Block(m, at, front), q, [x]);
      }
    }
  }

  lemma ElementsAppend(s: seq<Node>, x: Node)
    ensures Elements(s + [x]) == Elements(s) + {x}
  {
  }

  lemma NoRepeatsOne(x: Node)
    ensures NoRepeats([x])
  {
  }

  lemma NewNotIn(front: seq<Node>, x: Node)
    requires NoRepeats(front + [x])
    ensures NoRepeats(front) && x !in front
  {
    var xs := front + [x];
    assert xs[|front|] == x;
    forall i | 0 <= i < |front| ensures front[i] != x {
      assert xs[i] == front[i];
    }
    forall i, j | 0 <= i < j < |front| ensures front[i] != front[j] {
      assert xs[i] == front[i] && xs[j] == front[j];
    }
  }

  /** At a place inside the list the nodes keep their order; at one counted from its end they stand in the opposite. */
  lemma {:induction false} BlockOrder(m: nat, at: int, xs: seq<Node>)
    ensures 0 <= at <= m ==> Block(m, at, xs) == Reversed(xs)
    ensures at < 0 <= m + at ==> Block(m, at, xs) == xs
  {
    if xs == [] {
    } else {
      hide Block, Reversed;
      var n := |xs| - 1;
      var front, x := xs[..n], xs[n];
      BlockOrder(m, at, front);
      assert xs == front + [x];
      ReversedAppend(front, x);
      BlockStep(m, at, front, x);
      InsertionEnds(front, x);
      InsertionEnds(Reversed(front), x);
    }
  }

  lemma InsertionEnds(b: seq<Node>, x: Node)
    ensures Insertion(b, 0, [x]) == [x] + b && Insertion(b, |b|, [x]) == b + [x]
  {
  }

  lemma {:induction false} ReversedAppend(s: seq<Node>, x: Node)
    ensures Reversed(s + [x]) == [x] + Reversed(s)
  {
    if s == [] {
      assert [x][1..] == [];
    } else {
      assert (s + [x])[1..] == s[1..] + [x];
      ReversedAppend(s[1..], x);
    }
  }

  lemma {:induction false} ReversedTwice(s: seq<Node>)
    ensures Reversed(Reversed(s)) == s
  {
    if s != [] {
      ReversedTwice(s[1..]);
      ReversedAppend(Reversed(s[1..]), s[0]);
    }
  }

  lemma SplicedInside(nodes: seq<Node>, at: int, added: seq<Node>)
    ensures 0 <= at <= |nodes| ==> Spliced(nodes, at, added) == Insertion(nodes, at, added)
    ensures at < 0 <= |nodes| + at ==> Spliced(nodes, at, added) == Insertion(nodes, |nodes| + at, Reversed(added))
  {
    BlockOrder(|nodes|, at, Reversed(added));
    ReversedTwice(added);
  }

  lemma ElementsOfBlock(nodes: seq<Node>, at: int, added: seq<Node>)
    ensures Elements(Block(|nodes|, at, Reversed(added))) == Elements(added)
    ensures NoRepeats(added) ==> NoRepeats(Block(|nodes|, at, Reversed(added)))
  {
    BlockElements(|nodes|, at, Reversed(added));
    ElementsReversed(added);
    if NoRepeats(added) {
      ReversedNoRepeats(added);
    }
  }

  /** Whether splicing at this place puts something behind an iterator that was to come ahead of it: every iterator moves
      along, and two or more of the nodes from the place on lie ahead of it. */
  predicate Misleads(nodes: seq<Node>, idx: int, at: int) {
    at < 0 && |nodes| + at > idx + 1
  }

  /** With iterators at or past the place moved along, the nodes ahead of one stay ahead exactly when the place does not
      mislead it, or nothing is inserted. */
  lemma SplicedAhead(nodes: seq<Node>, idx: int, at: int, added: seq<Node>)
    requires -1 <= idx < |nodes| && forall n | n in added :: n !in nodes
    ensures
      var ahead := Spliced(nodes, at, added)[(if at <= idx then idx + |added| else idx) + 1..];
      Only(ahead, Elements(nodes)) == nodes[idx + 1..] <==> added == [] || !Misleads(nodes, idx, at)
  {
    hide Only, Elements, Block, Insertion, NoRepeats;
    var p, block := SpliceAt(|nodes|, at), Block(|nodes|, at, Reversed(added));
    ElementsOfBlock(nodes, at, added);
    BlockStrangers(nodes, added, block);
    TailAll(nodes, idx + 1);
    if added == [] || !Misleads(nodes, idx, at) {
      InOrder(nodes, idx, p, block, at <= idx);
    } else {
      SomeSkipped(nodes, idx, p, block);
    }
  }

  lemma BlockStrangers(nodes: seq<Node>, added: seq<Node>, block: seq<Node>)
    requires Elements(block) == Elements(added) && forall n | n in added :: n !in nodes
    ensures forall n | n in block :: n !in nodes
  {
    forall n | n in block ensures n !in nodes {
      assert n in Elements(block) && n in Elements(added);
    }
  }

  lemma InOrder(nodes: seq<Node>, idx: int, p: nat, block: seq<Node>, moves: bool)
    requires -1 <= idx < |nodes| && p <= |nodes| && forall n | n in block :: n !in nodes
    requires block != [] ==> if moves then p <= idx + 1 else p > idx
    ensures
      var ahead := Insertion(nodes, p, block)[(if moves then idx + |block| else idx) + 1..];
      Only(ahead, Elements(nodes)) == Only(nodes[idx + 1..], Elements(nodes))
  {
    hide Only, Elements;
    AheadAfterInsertion(nodes, idx, p, block);
    if block == [] {
      assert Insertion(nodes, p, block) == nodes;
    } else if !moves {
      var a, b, keep := nodes[idx + 1..p], nodes[p..], Elements(nodes);
      assert nodes[idx + 1..] == a + b;
      AddedFiltered(a, block, b, nodes);
    }
  }

  lemma AddedFiltered(a: seq<Node>, block: seq<Node>, b: seq<Node>, nodes: seq<Node>)
    requires forall n | n in block :: n !in nodes
    ensures Only(a + (block + b), Elements(nodes)) == Only(a + b, Elements(nodes))
  {
    hide Only;
    var keep := Elements(nodes);
    OnlyNone(block, keep);
    OnlyConcat(block, b, keep);
    OnlyConcat(a, block + b, keep);
    OnlyConcat(a, b, keep);
    assert [] + Only(b, keep) == Only(b, keep);
  }

  /** Inserting before a node that is not a child splices at -1: the nodes ahead of an iterator stay ahead exactly when
      there is at most one of them, or nothing was inserted. */
  lemma MissingAnchor(nodes: seq<Node>, idx: int, added: seq<Node>)
    requires -1 <= idx < |nodes| && forall n | n in added :: n !in nodes
    ensures
      var ahead := Spliced(nodes, -1, added)[idx + |added| + 1..];
      Only(ahead, Elements(nodes)) == nodes[idx + 1..] <==> added == [] || |nodes| - 1 <= idx + 1
  {
    hide Only, Spliced, Elements;
    SplicedAhead(nodes, idx, -1, added);
  }

  /** A walk over 1, 2, 3 whose first callback inserts 4 before a stranger: 4 goes in before 3, the index moves on to 2,
      and so the next node visited is 4; 2 never is. */
  lemma MissedChild()
    ensures Spliced([1, 2, 3], -1, [4]) == [1, 2, 4, 3]
  {
    SplicedInside([1, 2, 3], -1, [4]);
    assert Reversed([4]) == [4];
  }

  lemma TailAll(nodes: seq<Node>, k: nat)
    requires k <= |nodes|
    ensures Only(nodes[k..], Elements(nodes)) == nodes[k..]
  {
    hide Only;
    var tail := nodes[k..];
    forall n | n in tail ensures n in nodes {
    }
    OnlyAll(tail, Elements(nodes));
  }

  /** With the place past the node that comes next, at least one node falls behind. */
  lemma SomeSkipped(nodes: seq<Node>, idx: int, p: nat, block: seq<Node>)
    requires -1 <= idx && idx + 1 < p <= |nodes| && block != []
    requires forall n | n in block :: n !in nodes
    ensures |Only(Insertion(nodes, p, block)[idx + |block| + 1..], Elements(nodes))| < |nodes| - (idx + 1)
  {
    hide Only, Elements;
    var k := idx + |block| + 1;
    var r := Insertion(nodes, p, block);
    if k < p {
      assert r[k..] == nodes[k..p] + (block + nodes[p..]);
      AddedFilteredOut(nodes[k..p], block, nodes[p..], nodes);
    } else {
      var left := block[k - p..];
      assert r[k..] == left + nodes[p..];
      assert forall n | n in left :: n in block;
      AddedFilteredOut([], left, nodes[p..], nodes);
      assert [] + (left + nodes[p..]) == left + nodes[p..];
    }
  }

  lemma AddedFilteredOut(a: seq<Node>, added: seq<Node>, b: seq<Node>, nodes: seq<Node>)
    requires forall n | n in added :: n !in nodes
    ensures |Only(a + (added + b), Elements(nodes))| <= |a| + |b|
  {
    hide Only;
    var keep := Elements(nodes);
    OnlyConcat(a, added + b, keep);
    OnlyConcat(added, b, keep);
    OnlyNone(added, keep);
  }

  // ---------- all the walks of a container ----------

  type Walks = map<nat, Iter>
  type Indexes = map<nat, int>

  /** Every walk is sound at its index. */
  ghost predicate AllSound(nodes: seq<Node>, indexes: Indexes, walks: Walks) {
    indexes.Keys == walks.Keys && forall k | k in indexes :: Sound(nodes, indexes[k], walks[k])
  }

  /** Changing the list calls no callback; only the nodes touched count as gone or put in again; and while it
      stays steady no walk is spoiled. */
  ghost predicate Follows(before: Walks, after: Walks, touched: set<Node>, steady: bool) {
    forall k | k in before :: k in after && FollowsOne(before[k], after[k], touched, steady)
  }

  ghost predicate FollowsOne(it: Iter, it': Iter, touched: set<Node>, steady: bool) {
    && it'.order == it.order && it'.visited == it.visited
    && it.gone <= it'.gone <= it.gone + touched
    && it.readded <= it'.readded <= it.readded + touched
    && (steady ==> it'.spoiled == it.spoiled)
  }

  lemma FollowsVisited(before: Walks, after: Walks, touched: set<Node>, steady: bool, s: nat)
    requires Follows(before, after, touched, steady) && s in before
    ensures s in after && after[s].visited == before[s].visited
  {
    assert FollowsOne(before[s], after[s], touched, steady);
  }

  lemma FollowsThrough(a: Walks, b: Walks, c: Walks, touched: set<Node>, steady: bool, touched': set<Node>, steady': bool)
    requires Follows(a, b, touched, steady) && Follows(b, c, touched', steady')
    ensures Follows(a, c, touched + touched', steady && steady')
  {
    hide FollowsOne;
    forall k | k in a ensures k in c && FollowsOne(a[k], c[k], touched + touched', steady && steady') {
      FollowsOneThrough(a[k], b[k], c[k], touched, steady, touched', steady');
    }
  }

  lemma FollowsOneThrough(a: Iter, b: Iter, c: Iter, touched: set<Node>, steady: bool, touched': set<Node>, steady': bool)
    requires FollowsOne(a, b, touched, steady) && FollowsOne(b, c, touched', steady')
    ensures FollowsOne(a, c, touched + touched', steady && steady')
  {
  }

  lemma FollowsMore(a: Walks, b: Walks, touched: set<Node>, steady: bool, touched': set<Node>, steady': bool)
    requires Follows(a, b, touched, steady) && touched <= touched' && (steady' ==> steady)
    ensures Follows(a, b, touched', steady')
  {
    forall k | k in a ensures FollowsOne(a[k], b[k], touched', steady') {
      assert FollowsOne(a[k], b[k], touched, steady);
    }
  }

  // ---------- which nodes are taken out ahead of which walk ----------

  /** The nodes a walk has still to come to. */
  function Ahead(nodes: seq<Node>, idx: int): set<Node> {
    if -1 <= idx < |nodes| then Elements(nodes[idx + 1..]) else {}
  }

  /** Of the nodes taken out a walk counts exactly those as gone that lay ahead of it. */
  ghost predicate GoneAhead(nodes: seq<Node>, indexes: Indexes, before: Walks, after: Walks, out: set<Node>) {
    indexes.Keys == before.Keys
    && forall k | k in indexes :: k in after && after[k].gone == before[k].gone + out * Ahead(nodes, indexes[k])
  }

  /** And nothing else falls behind it. */
  ghost predicate StillAhead(nodes: seq<Node>, indexes: Indexes, nodes': seq<Node>, indexes': Indexes, out: set<Node>) {
    indexes.Keys == indexes'.Keys
    && forall k | k in indexes :: Ahead(nodes', indexes'[k]) == Ahead(nodes, indexes[k]) - out
  }

  ghost predicate TakenOut(nodes: seq<Node>, indexes: Indexes, before: Walks,
                           nodes': seq<Node>, indexes': Indexes, after: Walks, out: set<Node>) {
    && GoneAhead(nodes, indexes, before, after, out) && indexes'.Keys == after.Keys
    && StillAhead(nodes, indexes, nodes', indexes', out)
  }

  lemma TakenOutNothing(nodes: seq<Node>, indexes: Indexes, walks: Walks)
    requires indexes.Keys == walks.Keys
    ensures TakenOut(nodes, indexes, walks, nodes, indexes, walks, {})
  {
    hide Ahead;
  }

  lemma TakenOutThrough(nodes: seq<Node>, indexes: Indexes, a: Walks, nodes': seq<Node>, indexes': Indexes, b: Walks,
                        nodes'': seq<Node>, indexes'': Indexes, c: Walks, out: set<Node>, out': set<Node>)
    requires TakenOut(nodes, indexes, a, nodes', indexes', b, out)
    requires TakenOut(nodes', indexes', b, nodes'', indexes'', c, out')
    ensures TakenOut(nodes, indexes, a, nodes'', indexes'', c, out + out')
  {
    hide Ahead;
  }

  lemma AheadWithout(nodes: seq<Node>, idx: int, e: nat)
    requires -1 <= idx < |nodes| && e < |nodes| && NoRepeats(nodes)
    ensures Ahead(Without(nodes, e), if idx >= e then idx - 1 else idx) == Ahead(nodes, idx) - {nodes[e]}
    ensures nodes[e] in Ahead(nodes, idx) <==> idx < e
  {
    hide Without;
    AheadAfterRemoval(nodes, idx, e);
    WithoutKeepsNoRepeats(nodes, e);
    if idx < e {
      var a, b := nodes[idx + 1..e], nodes[e + 1..];
      assert a == nodes[..e][idx + 1..];
      assert Elements(a + b) == Elements(a + [nodes[e]] + b) - {nodes[e]};
      assert nodes[e] in a + [nodes[e]] + b;
    } else {
      var b := nodes[e + 1..];
      assert nodes[idx + 1..] == b[idx - e..];
    }
  }

  lemma RemoveTakesOut(nodes: seq<Node>, indexes: Indexes, walks: Walks, e: nat)
    requires AllSound(nodes, indexes, walks) && e < |nodes| && NoRepeats(nodes)
    ensures TakenOut(nodes, indexes, walks, Without(nodes, e), MovedBack(indexes, e), AllTaken(walks, indexes, nodes[e], e), {nodes[e]})
  {
    hide Ahead, Without, Accounts, NoRepeats;
    forall k | k in indexes
      ensures Ahead(Without(nodes, e), if indexes[k] >= e then indexes[k] - 1 else indexes[k]) == Ahead(nodes, indexes[k]) - {nodes[e]}
      ensures nodes[e] in Ahead(nodes, indexes[k]) <==> indexes[k] < e
    {
      assert Sound(nodes, indexes[k], walks[k]);
      AheadWithout(nodes, indexes[k], e);
    }
  }

  /** A node that is not there is not taken out. */
  lemma StrangerTakesOut(nodes: seq<Node>, indexes: Indexes, walks: Walks, n: Node)
    requires indexes.Keys == walks.Keys && n !in nodes
    ensures TakenOut(nodes, indexes, walks, nodes, indexes, walks, {n})
  {
    forall k | k in indexes ensures n !in Ahead(nodes, indexes[k]) {
    }
    hide Ahead;
  }

  /** Walks that agree on what is gone. */
  ghost predicate SameGone(before: Walks, after: Walks) {
    forall k | k in before :: k in after && after[k].gone == before[k].gone
  }

  lemma TakenOutGone(nodes: seq<Node>, indexes: Indexes, before: Walks, nodes': seq<Node>, indexes': Indexes, after: Walks, out: set<Node>)
    requires TakenOut(nodes, indexes, before, nodes', indexes', after, out)
    ensures GoneAhead(nodes, indexes, before, after, out)
  {
    hide GoneAhead, StillAhead;
  }

  lemma SoundKeys(nodes: seq<Node>, indexes: Indexes, walks: Walks)
    requires AllSound(nodes, indexes, walks)
    ensures indexes.Keys == walks.Keys
  {
    hide Sound;
  }

  lemma GoneStays(nodes: seq<Node>, indexes: Indexes, a: Walks, b: Walks, c: Walks, out: set<Node>)
    requires GoneAhead(nodes, indexes, a, b, out) && SameGone(b, c)
    ensures GoneAhead(nodes, indexes, a, c, out)
  {
    hide Ahead;
  }

  lemma InsertedSameGone(walks: Walks, added: seq<Node>)
    ensures SameGone(walks, AllInserted(walks, added))
  {
  }

  // ---------- nodes that claim a parent ----------

  /** The first position of a node from the set. */
  function FirstIn(added: seq<Node>, s: set<Node>): (i: nat)
    ensures i <= |added| && (i < |added| ==> added[i] in s) && forall j | 0 <= j < i :: added[j] !in s
  {
    if added == [] || added[0] in s then 0
    else
      var i := FirstIn(added[1..], s);
      assert forall j | 0 < j < i + 1 :: added[j] == added[1..][j - 1];
      i + 1
  }

  /** How many come before one is repeated. */
  function FirstRepeat(added: seq<Node>): (i: nat)
    ensures i <= |added| && (i < |added| ==> added[i] in added[..i]) && NoRepeats(added[..i])
  {
    if added == [] then 0
    else
      var front := added[..|added| - 1];
      var i := FirstRepeat(front);
      assert front[..i] == added[..i];
      if i < |front| || added[i] in front then i
      else
        assert added[..i + 1] == front + [added[i]];
        |added|
  }

  lemma RepeatWithin(added: seq<Node>, i: nat, k: nat)
    requires i < k <= |added| && added[i] in added[..i]
    ensures !NoRepeats(added[..k])
  {
    var j :| 0 <= j < i && added[j] == added[i];
    assert added[..k][j] == added[..k][i];
  }

  lemma FirstRepeatIs(added: seq<Node>, k: nat)
    requires k < |added| && NoRepeats(added[..k]) && added[k] in added[..k]
    ensures FirstRepeat(added) == k && !NoRepeats(added)
  {
    hide NoRepeats;
    var i := FirstRepeat(added);
    if i < k {
      RepeatWithin(added, i, k);
    } else if i > k {
      RepeatWithin(added, k, i);
    }
    RepeatWithin(added, k, |added|);
    assert added[..|added|] == added;
  }

  lemma FirstInIs(added: seq<Node>, s: set<Node>, k: nat)
    requires k <= |added| && (forall j | 0 <= j < k :: added[j] !in s) && (k < |added| ==> added[k] in s)
    ensures FirstIn(added, s) == k
  {
  }

  /** The nodes reached before one that claims to be a child and is not. */
  function Reached(added: seq<Node>, orphans: set<Node>): seq<Node> {
    added[..FirstIn(added, orphans)]
  }

  predicate Insertable(added: seq<Node>, orphans: set<Node>) {
    NoRepeats(added) && FirstIn(added, orphans) == |added|
  }

  /** When a node is given twice, those before the second time have been told their parent, but do not go in. */
  function Orphaned(added: seq<Node>, orphans: set<Node>): set<Node> {
    if FirstIn(added, orphans) == |added| && !NoRepeats(added) then orphans + Elements(added[..FirstRepeat(added)]) else orphans
  }

  ghost predicate Apart(orphans: set<Node>, nodes: seq<Node>) {
    forall n | n in nodes :: n !in orphans
  }

  lemma ApartInserted(orphans: set<Node>, nodes: seq<Node>, p: nat, added: seq<Node>)
    requires Apart(orphans, nodes) && p <= |nodes| && forall n | n in added :: n !in orphans
    ensures Apart(orphans, Insertion(nodes, p, added))
  {
  }

  lemma ApartSpliced(orphans: set<Node>, nodes: seq<Node>, at: int, added: seq<Node>)
    requires Apart(orphans, nodes) && forall n | n in added :: n !in orphans
    ensures Apart(orphans, Spliced(nodes, at, added))
  {
    hide Block;
    var block := Block(|nodes|, at, Reversed(added));
    ElementsOfBlock(nodes, at, added);
    forall n | n in block ensures n !in orphans {
      assert n in Elements(block) && n in Elements(added);
    }
    ApartInserted(orphans, nodes, SpliceAt(|nodes|, at), block);
  }

  /** The place of a node, or -1. */
  function Position(nodes: seq<Node>, n: Node): (i: int)
    ensures -1 <= i < |nodes| && (i == -1 ==> n !in nodes)
    ensures i >= 0 ==> nodes[i] == n && n !in nodes[..i]
  {
    if nodes == [] then -1
    else if nodes[0] == n then 0
    else
      var i := Position(nodes[1..], n);
      assert nodes == [nodes[0]] + nodes[1..];
      assert i >= 0 ==> nodes[..i + 1] == [nodes[0]] + nodes[1..][..i];
      if i == -1 then -1 else i + 1
  }

  /** Indexes at or past e, moved back by one. */
  function MovedBack(indexes: Indexes, e: nat): Indexes {
    map k | k in indexes :: if indexes[k] >= e then indexes[k] - 1 else indexes[k]
  }

  ghost function AllTaken(walks: Walks, indexes: Indexes, n: Node, e: nat): Walks
    requires walks.Keys == indexes.Keys
  {
    map k | k in walks :: Taken(walks[k], n, indexes[k] < e)
  }

  lemma RemoveKeepsAll(nodes: seq<Node>, indexes: Indexes, walks: Walks, e: nat)
    requires AllSound(nodes, indexes, walks) && e < |nodes| && NoRepeats(nodes)
    ensures AllSound(Without(nodes, e), MovedBack(indexes, e), AllTaken(walks, indexes, nodes[e], e))
    ensures Follows(walks, AllTaken(walks, indexes, nodes[e], e), {nodes[e]}, true)
  {
    hide Sound;
    forall k | k in indexes
      ensures Sound(Without(nodes, e), if indexes[k] >= e then indexes[k] - 1 else indexes[k], Taken(walks[k], nodes[e], indexes[k] < e))
    {
      RemoveKeeps(nodes, indexes[k], walks[k], e);
    }
  }

  /** Indexes at or past from, moved along by n. */
  function MovedOn(indexes: Indexes, from: int, n: nat): Indexes {
    map k | k in indexes :: if from <= indexes[k] then indexes[k] + n else indexes[k]
  }

  function MovedAll(indexes: Indexes, n: nat): Indexes {
    map k | k in indexes :: indexes[k] + n
  }

  lemma AllMoved(nodes: seq<Node>, indexes: Indexes, walks: Walks, n: nat)
    requires AllSound(nodes, indexes, walks)
    ensures MovedAll(indexes, n) == MovedOn(indexes, -1, n)
  {
  }

  ghost function AllInserted(walks: Walks, added: seq<Node>): Walks {
    map k | k in walks :: Inserted(walks[k], added)
  }

  /** Iterators at or past from move along; p is where the nodes go in. */
  lemma InsertKeepsAll(nodes: seq<Node>, indexes: Indexes, walks: Walks, p: nat, added: seq<Node>, from: int)
    requires AllSound(nodes, indexes, walks) && p <= |nodes| && (from == p || (from < p == 0))
    ensures AllSound(Insertion(nodes, p, added), MovedOn(indexes, from, |added|), AllInserted(walks, added))
    ensures Follows(walks, AllInserted(walks, added), Elements(added), true)
  {
    hide Insertion;
    forall k | k in indexes
      ensures Sound(Insertion(nodes, p, added), if from <= indexes[k] then indexes[k] + |added| else indexes[k], Inserted(walks[k], added))
    {
      InsertKeeps(nodes, indexes[k], walks[k], p, added, from <= indexes[k]);
    }
  }

  /** Nodes spliced in, as far as one walk goes. */
  ghost function SplicedIn(it: Iter, nodes: seq<Node>, idx: int, at: int, added: seq<Node>): Iter {
    Inserted(it, added).(spoiled := it.spoiled || (added != [] && Misleads(nodes, idx, at)))
  }

  ghost function AllSplicedIn(walks: Walks, indexes: Indexes, nodes: seq<Node>, at: int, added: seq<Node>): Walks
    requires walks.Keys == indexes.Keys
  {
    map k | k in walks :: SplicedIn(walks[k], nodes, indexes[k], at, added)
  }

  lemma SpliceKeeps(nodes: seq<Node>, idx: int, it: Iter, at: int, added: seq<Node>)
    requires Sound(nodes, idx, it)
    ensures Sound(Spliced(nodes, at, added), if at <= idx then idx + |added| else idx, SplicedIn(it, nodes, idx, at, added))
  {
    hide Accounts, Only, Elements, Block, Insertion;
    var p, block := SpliceAt(|nodes|, at), Block(|nodes|, at, Reversed(added));
    ElementsOfBlock(nodes, at, added);
    if !SplicedIn(it, nodes, idx, at, added).spoiled {
      if added == [] {
        Forget(nodes[idx + 1..], it, Elements(added));
        InsertedNone(nodes, p, block);
      } else {
        InsertKeeps(nodes, idx, it, p, block, at <= idx);
        assert Inserted(it, block) == Inserted(it, added);
      }
    }
  }

  lemma InsertedNone(nodes: seq<Node>, p: nat, block: seq<Node>)
    requires p <= |nodes| && block == []
    ensures Insertion(nodes, p, block) == nodes
  {
  }

  lemma SpliceKeepsAll(nodes: seq<Node>, indexes: Indexes, walks: Walks, at: int, added: seq<Node>)
    requires AllSound(nodes, indexes, walks)
    ensures AllSound(Spliced(nodes, at, added), MovedOn(indexes, at, |added|), AllSplicedIn(walks, indexes, nodes, at, added))
    ensures Follows(walks, AllSplicedIn(walks, indexes, nodes, at, added), Elements(added), at >= 0)
  {
    hide Sound, Spliced, SplicedIn;
    var indexes', walks', nodes' := MovedOn(indexes, at, |added|), AllSplicedIn(walks, indexes, nodes, at, added), Spliced(nodes, at, added);
    forall k | k in indexes' ensures Sound(nodes', indexes'[k], walks'[k]) {
      SpliceKeeps(nodes, indexes[k], walks[k], at, added);
    }
    SplicedFollows(nodes, indexes, walks, at, added);
  }

  lemma SplicedFollows(nodes: seq<Node>, indexes: Indexes, walks: Walks, at: int, added: seq<Node>)
    requires indexes.Keys == walks.Keys
    ensures Follows(walks, AllSplicedIn(walks, indexes, nodes, at, added), Elements(added), at >= 0)
    ensures SameGone(walks, AllSplicedIn(walks, indexes, nodes, at, added))
  {
  }

  lemma SplicedNoRepeats(nodes: seq<Node>, at: int, added: seq<Node>)
    requires NoRepeats(nodes) && NoRepeats(added) && forall n | n in added :: n !in nodes
    ensures NoRepeats(Spliced(nodes, at, added))
  {
    hide NoRepeats, Insertion, Block;
    var block := Block(|nodes|, at, Reversed(added));
    ElementsOfBlock(nodes, at, added);
    BlockStrangers(nodes, added, block);
    InsertionNoRepeats(nodes, SpliceAt(|nodes|, at), block);
  }

  /** Nothing is at or past the end. */
  lemma AppendKeepsAll(nodes: seq<Node>, indexes: Indexes, walks: Walks, added: seq<Node>)
    requires AllSound(nodes, indexes, walks)
    ensures AllSound(nodes + added, indexes, AllInserted(walks, added)) && Follows(walks, AllInserted(walks, added), Elements(added), true)
  {
    InsertKeepsAll(nodes, indexes, walks, |nodes|, added, |nodes|);
    assert Insertion(nodes, |nodes|, added) == nodes + added;
    assert MovedOn(indexes, |nodes|, |added|) == indexes;
  }

  function Reversed(s: seq<Node>): (r: seq<Node>)
    ensures |r| == |s|
  {
    if s == [] then [] else Reversed(s[1..]) + [s[0]]
  }

  lemma {:induction false} ReversedAt(s: seq<Node>, i: nat)
    requires i < |s|
    ensures Reversed(s)[i] == s[|s| - 1 - i]
  {
    var rest := s[1..];
    if i < |s| - 1 {
      ReversedAt(rest, i);
      assert Reversed(s)[i] == Reversed(rest)[i] && rest[|rest| - 1 - i] == s[|s| - 1 - i];
    }
  }

  lemma InsertionNoRepeats(nodes: seq<Node>, p: nat, added: seq<Node>)
    requires NoRepeats(nodes) && NoRepeats(added) && p <= |nodes| && forall n | n in added :: n !in nodes
    ensures NoRepeats(Insertion(nodes, p, added))
  {
    var r := Insertion(nodes, p, added);
    forall i, j | 0 <= i < j < |r| ensures r[i] != r[j] {
      assert p <= i < p + |added| ==> r[i] == added[i - p] && r[i] in added;
      assert p <= j < p + |added| ==> r[j] == added[j - p] && r[j] in added;
      assert i < p ==> r[i] == nodes[i];
      assert j < p ==> r[j] == nodes[j];
      assert i >= p + |added| ==> r[i] == nodes[i - |added|];
      assert j >= p + |added| ==> r[j] == nodes[j - |added|];
    }
  }

  lemma ReversedNoRepeats(s: seq<Node>)
    requires NoRepeats(s)
    ensures NoRepeats(Reversed(s)) && forall n | n in Reversed(s) :: n in s
  {
    var r := Reversed(s);
    forall i, j | 0 <= i < j < |r| ensures r[i] != r[j] {
      ReversedAt(s, i);
      ReversedAt(s, j);
    }
    forall n | n in r ensures n in s {
      var i :| 0 <= i < |r| && r[i] == n;
      ReversedAt(s, i);
    }
  }

  lemma ElementsReversed(s: seq<Node>)
    ensures Elements(Reversed(s)) == Elements(s)
  {
    forall n | n in s ensures n in Reversed(s) {
      var i :| 0 <= i < |s| && s[i] == n;
      ReversedAt(s, |s| - 1 - i);
    }
    forall n | n in Reversed(s) ensures n in s {
      var i :| 0 <= i < |s| && Reversed(s)[i] == n;
      ReversedAt(s, i);
    }
  }

  // ---------- one walk among the others ----------

  lemma FollowsItself(walks: Walks)
    ensures Follows(walks, walks, {}, true)
  {
  }

  /** Between two callbacks of walk s its index names the node to come, not the one just visited. */
  ghost predicate SoundAtHead(nodes: seq<Node>, indexes: Indexes, walks: Walks, s: nat) {
    indexes.Keys == walks.Keys && s in indexes
    && forall k | k in indexes :: Sound(nodes, if k == s then indexes[k] - 1 else indexes[k], walks[k])
  }

  /** Walk s began with these nodes, and what it counts as gone or put in again was touched. */
  ghost predicate WalkSince(it: Iter, nodes: seq<Node>, touched: set<Node>, steady: bool) {
    it.order == nodes && it.gone <= touched && it.readded <= touched && (steady ==> !it.spoiled)
  }

  ghost predicate Walked(before: Walks, walks: Walks, s: nat, nodes: seq<Node>, touched: set<Node>, steady: bool) {
    s !in before && s in walks && WalkSince(walks[s], nodes, touched, steady) && Follows(before, walks, touched, steady)
  }

  lemma VisitWalked(before: Walks, walks: Walks, s: nat, nodes: seq<Node>, touched: set<Node>, steady: bool, n: Node)
    requires Walked(before, walks, s, nodes, touched, steady)
    ensures Walked(before, Visited(walks, s, n), s, nodes, touched, steady)
  {
  }

  lemma WalkedThrough(before: Walks, walks: Walks, walks': Walks, s: nat, nodes: seq<Node>,
                      touched: set<Node>, steady: bool, touched': set<Node>, steady': bool)
    requires Walked(before, walks, s, nodes, touched, steady) && Follows(walks, walks', touched', steady')
    ensures Walked(before, walks', s, nodes, touched + touched', steady && steady')
    ensures s in walks'
  {
    FollowsThrough(before, walks, walks', touched, steady, touched', steady');
    assert s in walks && FollowsOne(walks[s], walks'[s], touched', steady');
  }

  lemma WalkedEnds(before: Walks, walks: Walks, s: nat, nodes: seq<Node>, touched: set<Node>, steady: bool, touched': set<Node>, steady': bool)
    requires Walked(before, walks, s, nodes, touched, steady) && touched <= touched' && (steady' ==> steady)
    ensures s in walks && WalkSince(walks[s], nodes, touched', steady')
    ensures Follows(before, walks - {s}, touched', steady') && Follows(before, walks, touched', steady')
  {
    FollowsMore(before, walks, touched, steady, touched', steady');
  }

  /** What a walk has visited so far is the start of what it will. */
  lemma StoppedWalk(nodes: seq<Node>, indexes: Indexes, walks: Walks, s: nat)
    requires AllSound(nodes, indexes, walks) && s in walks
    ensures s in indexes && AllSound(nodes, indexes - {s}, walks - {s})
    ensures
      var walk := walks[s];
      !walk.spoiled ==> Only(walk.visited, Tracked(walk)) <= Only(walk.order, Tracked(walk) - walk.gone)
  {
    assert Sound(nodes, indexes[s], walks[s]);
    hide Sound;
  }

  lemma FinishedWalk(nodes: seq<Node>, indexes: Indexes, walks: Walks, s: nat)
    requires SoundAtHead(nodes, indexes, walks, s) && indexes[s] >= |nodes|
    ensures s in walks && AllSound(nodes, indexes - {s}, walks - {s})
    ensures
      var walk := walks[s];
      !walk.spoiled ==> Only(walk.visited, Tracked(walk)) == Only(walk.order, Tracked(walk) - walk.gone)
  {
    assert Sound(nodes, indexes[s] - 1, walks[s]);
    if !walks[s].spoiled {
      EndOfWalk(nodes, walks[s]);
    }
    hide Sound;
  }

  lemma StartAtHead(nodes: seq<Node>, indexes: Indexes, walks: Walks, s: nat)
    requires AllSound(nodes, indexes, walks) && NoRepeats(nodes) && s !in indexes
    ensures SoundAtHead(nodes, indexes[s := 0], walks[s := Iter(nodes, [], {}, {}, false)], s)
    ensures Walked(walks, walks[s := Iter(nodes, [], {}, {}, false)], s, nodes, {}, true)
  {
    hide Sound;
    StartSound(nodes);
    FollowsItself(walks);
  }

  ghost function Visited(walks: Walks, s: nat, n: Node): Walks
    requires s in walks
  {
    walks[s := walks[s].(visited := walks[s].visited + [n])]
  }

  lemma VisitAtHead(nodes: seq<Node>, indexes: Indexes, walks: Walks, s: nat)
    requires SoundAtHead(nodes, indexes, walks, s) && indexes[s] < |nodes|
    ensures 0 <= indexes[s] && s in walks && AllSound(nodes, indexes, Visited(walks, s, nodes[indexes[s]]))
  {
    assert Sound(nodes, indexes[s] - 1, walks[s]);
    VisitKeeps(nodes, indexes[s], walks[s]);
    hide Sound;
  }

  lemma StepToHead(nodes: seq<Node>, indexes: Indexes, walks: Walks, s: nat)
    requires AllSound(nodes, indexes, walks) && s in indexes
    ensures SoundAtHead(nodes, indexes[s := indexes[s] + 1], walks, s)
  {
    hide Sound;
  }
}
