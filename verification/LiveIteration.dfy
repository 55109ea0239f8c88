/** A container of nodes that can be changed while it is being walked, by any number of walks at once. */
module LiveIteration {
  import opened LiveNodes
  import opened LiveSemantics
  import opened Sequences

  /** The nodes that the op takes out or puts in. */
  function TouchedBy(op: Op): set<Node> {
    match op
    case InsertBefore(_, added) => Elements(added)
    case InsertAfter(_, added) => Elements(added)
    case Prepend(added) => Elements(added)
    case Append(added) => Elements(added)
    case RemoveChild(node) => {node}
    case Each(turns) => TouchedIn(turns)
  }

  function TouchedByAll(ops: seq<Op>): set<Node> {
    if ops == [] then {} else TouchedByAll(ops[..|ops| - 1]) + TouchedBy(ops[|ops| - 1])
  }

  function TouchedIn(turns: seq<Turn>): set<Node> {
    if turns == [] then {} else TouchedIn(turns[..|turns| - 1]) + TouchedByAll(turns[|turns| - 1].ops)
  }

  lemma TouchedByPrefix(ops: seq<Op>, i: nat)
    requires i <= |ops|
    ensures TouchedByAll(ops[..i]) <= TouchedByAll(ops)
  {
    if i < |ops| {
      TouchedByPrefix(ops[..|ops| - 1], i);
      assert ops[..|ops| - 1][..i] == ops[..i];
    } else {
      assert ops[..i] == ops;
    }
  }

  lemma TouchedInPrefix(turns: seq<Turn>, i: nat)
    requires i <= |turns|
    ensures TouchedIn(turns[..i]) <= TouchedIn(turns)
  {
    if i < |turns| {
      TouchedInPrefix(turns[..|turns| - 1], i);
      assert turns[..|turns| - 1][..i] == turns[..i];
    } else {
      assert turns[..i] == turns;
    }
  }

  class Container {
    var nodes: seq<Node>
    var indexes: Indexes
    var lastEach: nat
    /** Nodes that name this container as their parent without being children. */
    var orphans: set<Node>
    ghost var walks: Walks
    /** How often nodes were spliced in at a negative place. */
    ghost var misplaced: nat

    ghost predicate Valid()
      reads this
    {
      NoRepeats(nodes) && Apart(orphans, nodes) && AllSound(nodes, indexes, walks) && forall k | k in indexes :: k <= lastEach
    }

    /** What the reference functions speak about. */
    ghost function Now(): State
      reads this
    {
      State(nodes, indexes, lastEach, orphans)
    }

    constructor (children: seq<Node>)
      requires NoRepeats(children)
      ensures Valid() && nodes == children && indexes == map[] && orphans == {}
    {
      nodes, indexes, lastEach, orphans, walks, misplaced := children, map[], 0, {}, map[], 0;
    }

    method IndexOf(n: Node) returns (i: int)
      ensures i == Position(nodes, n)
    {
      i := 0;
      while i < |nodes|
        invariant 0 <= i <= |nodes| && n !in nodes[..i]
      {
        if nodes[i] == n {
          return;
        }
        i := i + 1;
      }
      i := -1;
    }

    /** Take a child out. For a node that is not a child this throws before changing anything. A walk counts the
        node as gone exactly when it lay ahead, and comes to all other nodes ahead as before. */
    method RemoveChild(n: Node) returns (ok: bool)
      requires Valid()
      modifies this`nodes, this`indexes, this`walks
      ensures Valid() && Follows(old(walks), walks, {n}, true) && indexes.Keys == old(indexes).Keys
      ensures (Now(), ok) == Removed(old(Now()), n)
      ensures ok <==> n in old(nodes)
      ensures nodes == Only(old(nodes), Elements(old(nodes)) - {n})
      ensures !ok ==> indexes == old(indexes) && walks == old(walks)
      ensures ok ==> exists e | 0 <= e < |old(nodes)| :: old(nodes)[e] == n && walks == AllTaken(old(walks), old(indexes), n, e)
      ensures TakenOut(old(nodes), old(indexes), old(walks), nodes, indexes, walks, {n})
    {
      hide Sound, Only, TakenOut;
      var e := IndexOf(n);
      if e < 0 {
        OnlyAll(nodes, Elements(nodes) - {n});
        FollowsItself(walks);
        FollowsMore(walks, walks, {}, true, {n}, true);
        StrangerTakesOut(nodes, indexes, walks, n);
        return false;
      }
      RemoveKeepsAll(nodes, indexes, walks, e);
      RemoveTakesOut(nodes, indexes, walks, e);
      WithoutIsOnly(nodes, e);
      WithoutKeepsNoRepeats(nodes, e);
      walks := AllTaken(walks, indexes, n, e);
      nodes, indexes := nodes[..e] + nodes[e + 1..], MovedBack(indexes, e);
      ok := true;
    }

    /** Ready some nodes for insertion: children among them are taken out first. This throws at the first one that names
        this container as its parent and is not a child, and when a node is given twice. */
    method Normalize(added: seq<Node>) returns (ok: bool)
      requires Valid()
      modifies this`nodes, this`indexes, this`walks, this`orphans
      ensures Valid() && Follows(old(walks), walks, Elements(added), true) && indexes.Keys == old(indexes).Keys
      ensures (Now(), ok) == Readied(old(Now()), added)
      ensures ok <==> Insertable(added, old(orphans))
      ensures orphans == Orphaned(added, old(orphans))
      ensures
        var out := Elements(Reached(added, old(orphans)));
        && nodes == Only(old(nodes), Elements(old(nodes)) - out)
        && TakenOut(old(nodes), old(indexes), old(walks), nodes, indexes, walks, out)
      ensures ok ==> forall n | n in added :: n !in nodes && n !in orphans
      ensures (forall n | n in added :: n !in old(nodes)) ==> indexes == old(indexes)
    {
      hide AllSound, Only, NoRepeats, Follows, TakenOut, Apart;
      var reached := TakeOutAll(added);
      if reached < |added| {
        FollowsMore(old(walks), walks, Elements(added[..reached]), true, Elements(added), true);
        return false;
      }
      assert added[..|added|] == added;
      ok := Adopt(added);
    }

    /** Take out the nodes that are children, up to one that only claims to be. */
    method TakeOutAll(added: seq<Node>) returns (reached: nat)
      requires Valid()
      modifies this`nodes, this`indexes, this`walks
      ensures Valid() && reached == FirstIn(added, orphans) <= |added| && Now() == TakenAway(old(Now()), added, reached)
      ensures indexes.Keys == old(indexes).Keys
      ensures Follows(old(walks), walks, Elements(added[..reached]), true)
      ensures nodes == Only(old(nodes), Elements(old(nodes)) - Elements(added[..reached]))
      ensures TakenOut(old(nodes), old(indexes), old(walks), nodes, indexes, walks, Elements(added[..reached]))
      ensures (forall n | n in added :: n !in old(nodes)) ==> indexes == old(indexes)
    {
      hide AllSound, Only, NoRepeats, Follows, TakenOut, Apart;
      ghost var whole := nodes;
      OnlyAll(nodes, Elements(whole) - Elements(added[..0]));
      FollowsItself(walks);
      SoundKeys(nodes, indexes, walks);
      TakenOutNothing(nodes, indexes, walks);
      assert Elements(added[..0]) == {};
      reached := 0;
      while reached < |added| && added[reached] !in orphans
        invariant 0 <= reached <= |added| && forall j | 0 <= j < reached :: added[j] !in orphans
        invariant Now() == TakenAway(old(Now()), added, reached)
        invariant Valid() && Follows(old(walks), walks, Elements(added[..reached]), true) && indexes.Keys == old(indexes).Keys
        invariant nodes == Only(whole, Elements(whole) - Elements(added[..reached]))
        invariant TakenOut(old(nodes), old(indexes), old(walks), nodes, indexes, walks, Elements(added[..reached]))
        invariant (forall n | n in added :: n !in old(nodes)) ==> indexes == old(indexes)
      {
        var n := added[reached];
        ghost var done := Elements(added[..reached]);
        assert Elements(added[..reached + 1]) == done + {n};
        ghost var before, places, walked := nodes, indexes, walks;
        var _ := RemoveChild(n);
        FollowsThrough(old(walks), walked, walks, done, true, {n}, true);
        TakenOutThrough(old(nodes), old(indexes), old(walks), before, places, walked, nodes, indexes, walks, done, {n});
        OnlyOnly(whole, Elements(whole) - done, Elements(before) - {n});
        assert Elements(before) - {n} == Elements(whole) - (done + {n});
        reached := reached + 1;
      }
      FirstInIs(added, orphans, reached);
    }

    /** Tell the nodes, one by one, who their parent is; one that knows already throws. */
    method Adopt(added: seq<Node>) returns (ok: bool)
      requires Valid() && forall n | n in added :: n !in nodes
      modifies this`orphans
      ensures Valid() && (ok <==> NoRepeats(added))
      ensures orphans == if ok then old(orphans) else old(orphans) + Elements(added[..FirstRepeat(added)])
    {
      hide AllSound;
      var adopted: set<Node> := {};
      for k := 0 to |added|
        invariant adopted == Elements(added[..k]) && NoRepeats(added[..k])
      {
        if added[k] in adopted {
          FirstRepeatIs(added, k);
          orphans := orphans + adopted;
          return false;
        }
        assert added[..k + 1] == added[..k] + [added[k]];
        adopted := adopted + {added[k]};
      }
      assert added[..|added|] == added;
      ok := true;
    }

    /** The index an anchor stands for. */
    method IndexFor(anchor: Anchor) returns (s: int)
      ensures s == PlaceOf(nodes, anchor)
    {
      match anchor
      case Child(n) =>
        s := IndexOf(n);
      case Place(i) =>
        s := i;
    }

    /** Insert nodes before a child or at an index. The index of a node that is not a child is -1, and a negative one
        counts from the end, while every iterator moves along: this may spoil a walk. */
    method InsertBefore(anchor: Anchor, added: seq<Node>) returns (ok: bool)
      requires Valid()
      modifies this`nodes, this`indexes, this`walks, this`orphans, this`misplaced
      ensures Valid() && indexes.Keys == old(indexes).Keys
      ensures Follows(old(walks), walks, Elements(added), misplaced == old(misplaced))
      ensures (Now(), ok) == InsertedAt(old(Now()), anchor, 0, added)
      ensures (ok <==> Insertable(added, old(orphans))) && orphans == Orphaned(added, old(orphans))
      ensures GoneAhead(old(nodes), old(indexes), old(walks), walks, Elements(Reached(added, old(orphans))))
      ensures
        var kept := Only(old(nodes), Elements(old(nodes)) - Elements(Reached(added, old(orphans))));
        var at := PlaceOf(kept, anchor);
        && misplaced == old(misplaced) + (if ok && at < 0 then 1 else 0)
        && nodes == (if ok then Spliced(kept, at, added) else kept)
        && (ok && 0 <= at <= |kept| ==> nodes == Insertion(kept, at, added))
        && (ok && (forall n | n in added :: n !in old(nodes)) ==> indexes == MovedOn(old(indexes), at, |added|))
    {
      hide AllSound, Only, Elements, Spliced, Insertion, NoRepeats, Follows, TakenOut, GoneAhead, SameGone, Apart;
      ok := Normalize(added);
      ghost var out := Elements(Reached(added, old(orphans)));
      TakenOutGone(old(nodes), old(indexes), old(walks), nodes, indexes, walks, out);
      if !ok {
        return;
      }
      var s := IndexFor(anchor);
      ghost var before := walks;
      SpliceIn(s, added);
      FollowsThrough(old(walks), before, walks, Elements(added), true, Elements(added), s >= 0);
      assert Elements(added) + Elements(added) == Elements(added);
      GoneStays(old(nodes), old(indexes), old(walks), before, walks, out);
    }

    /** Insert nodes after a child or an index; when the anchor is not a child, at the front. */
    method InsertAfter(anchor: Anchor, added: seq<Node>) returns (ok: bool)
      requires Valid()
      modifies this`nodes, this`indexes, this`walks, this`orphans, this`misplaced
      ensures Valid() && indexes.Keys == old(indexes).Keys
      ensures Follows(old(walks), walks, Elements(added), misplaced == old(misplaced))
      ensures (Now(), ok) == InsertedAt(old(Now()), anchor, 1, added)
      ensures (ok <==> Insertable(added, old(orphans))) && orphans == Orphaned(added, old(orphans))
      ensures GoneAhead(old(nodes), old(indexes), old(walks), walks, Elements(Reached(added, old(orphans))))
      ensures
        var kept := Only(old(nodes), Elements(old(nodes)) - Elements(Reached(added, old(orphans))));
        var at := PlaceOf(kept, anchor) + 1;
        && misplaced == old(misplaced) + (if ok && at < 0 then 1 else 0)
        && nodes == (if ok then Spliced(kept, at, added) else kept)
        && (ok && 0 <= at <= |kept| ==> nodes == Insertion(kept, at, added))
        && (ok && (forall n | n in added :: n !in old(nodes)) ==> indexes == MovedOn(old(indexes), at, |added|))
    {
      hide AllSound, Only, Elements, Spliced, Insertion, NoRepeats, Follows, TakenOut, GoneAhead, SameGone, Apart;
      ok := Normalize(added);
      ghost var out := Elements(Reached(added, old(orphans)));
      TakenOutGone(old(nodes), old(indexes), old(walks), nodes, indexes, walks, out);
      if !ok {
        return;
      }
      var s := IndexFor(anchor);
      ghost var before := walks;
      SpliceIn(s + 1, added);
      FollowsThrough(old(walks), before, walks, Elements(added), true, Elements(added), s + 1 >= 0);
      assert Elements(added) + Elements(added) == Elements(added);
      GoneStays(old(nodes), old(indexes), old(walks), before, walks, out);
    }

    /** Insert nodes at the front; every iterator moves along. */
    method Prepend(added: seq<Node>) returns (ok: bool)
      requires Valid()
      modifies this`nodes, this`indexes, this`walks, this`orphans
      ensures Valid() && Follows(old(walks), walks, Elements(added), true) && indexes.Keys == old(indexes).Keys
      ensures (Now(), ok) == Prepended(old(Now()), added)
      ensures (ok <==> Insertable(added, old(orphans))) && orphans == Orphaned(added, old(orphans))
      ensures GoneAhead(old(nodes), old(indexes), old(walks), walks, Elements(Reached(added, old(orphans))))
      ensures
        var kept := Only(old(nodes), Elements(old(nodes)) - Elements(Reached(added, old(orphans))));
        nodes == if ok then added + kept else kept
    {
      hide AllSound, Only, Elements, NoRepeats, Follows, TakenOut, GoneAhead, SameGone, Apart;
      ok := Normalize(added);
      ghost var out := Elements(Reached(added, old(orphans)));
      TakenOutGone(old(nodes), old(indexes), old(walks), nodes, indexes, walks, out);
      if !ok {
        return;
      }
      ghost var kept, before := nodes, walks;
      AllMoved(kept, indexes, walks, |added|);
      InsertKeepsAll(kept, indexes, walks, 0, added, -1);
      InsertionNoRepeats(kept, 0, added);
      ApartInserted(orphans, kept, 0, added);
      InsertedSameGone(walks, added);
      SpliceAll(0, added);
      assert Insertion(kept, 0, added) == added + kept;
      indexes, walks := MovedAll(indexes, |added|), AllInserted(walks, added);
      FollowsThrough(old(walks), before, walks, Elements(added), true, Elements(added), true);
      assert Elements(added) + Elements(added) == Elements(added);
      GoneStays(old(nodes), old(indexes), old(walks), before, walks, out);
    }

    /** Add nodes at the end; no iterator moves. */
    method Append(added: seq<Node>) returns (ok: bool)
      requires Valid()
      modifies this`nodes, this`indexes, this`walks, this`orphans
      ensures Valid() && Follows(old(walks), walks, Elements(added), true) && indexes.Keys == old(indexes).Keys
      ensures (Now(), ok) == Appended(old(Now()), added)
      ensures (ok <==> Insertable(added, old(orphans))) && orphans == Orphaned(added, old(orphans))
      ensures GoneAhead(old(nodes), old(indexes), old(walks), walks, Elements(Reached(added, old(orphans))))
      ensures
        var kept := Only(old(nodes), Elements(old(nodes)) - Elements(Reached(added, old(orphans))));
        nodes == if ok then kept + added else kept
    {
      hide AllSound, Only, Elements, NoRepeats, Follows, TakenOut, GoneAhead, SameGone, Apart;
      ok := Normalize(added);
      ghost var out := Elements(Reached(added, old(orphans)));
      TakenOutGone(old(nodes), old(indexes), old(walks), nodes, indexes, walks, out);
      if !ok {
        return;
      }
      ghost var kept, before := nodes, walks;
      AppendKeepsAll(kept, indexes, walks, added);
      InsertionNoRepeats(kept, |kept|, added);
      ApartInserted(orphans, kept, |kept|, added);
      InsertedSameGone(walks, added);
      assert Insertion(kept, |kept|, added) == kept + added;
      PushAll(added);
      walks := AllInserted(walks, added);
      FollowsThrough(old(walks), before, walks, Elements(added), true, Elements(added), true);
      assert Elements(added) + Elements(added) == Elements(added);
      GoneStays(old(nodes), old(indexes), old(walks), before, walks, out);
    }

    /** The splices of an insertion, last node first, and the indexes at or past the place moved along. */
    method SpliceIn(at: int, added: seq<Node>)
      requires Valid() && NoRepeats(added) && forall n | n in added :: n !in nodes && n !in orphans
      modifies this`nodes, this`indexes, this`walks, this`misplaced
      ensures Valid() && Follows(old(walks), walks, Elements(added), at >= 0) && SameGone(old(walks), walks)
      ensures nodes == Spliced(old(nodes), at, added) && (0 <= at <= |old(nodes)| ==> nodes == Insertion(old(nodes), at, added))
      ensures indexes == MovedOn(old(indexes), at, |added|) && indexes.Keys == old(indexes).Keys
      ensures misplaced == old(misplaced) + if at < 0 then 1 else 0
    {
      hide Sound, NoRepeats, Follows, Insertion, SpliceAt, Block, SameGone, Apart;
      SpliceKeepsAll(nodes, indexes, walks, at, added);
      SplicedFollows(nodes, indexes, walks, at, added);
      SplicedNoRepeats(nodes, at, added);
      ApartSpliced(orphans, nodes, at, added);
      SplicedInside(nodes, at, added);
      walks := AllSplicedIn(walks, indexes, nodes, at, added);
      SpliceEach(at, Reversed(added));
      indexes := MovedOn(indexes, at, |added|);
      if at < 0 {
        misplaced := misplaced + 1;
      }
    }

    /** Splice the nodes in, one by one, each at the same index. */
    method SpliceEach(at: int, xs: seq<Node>)
      modifies this`nodes
      ensures nodes == Insertion(old(nodes), SpliceAt(|old(nodes)|, at), Block(|old(nodes)|, at, xs))
    {
      hide SpliceAt, Block;
      ghost var kept := nodes;
      assert xs[..0] == [];
      BlockNone(kept, at);
      for i := 0 to |xs|
        invariant nodes == Insertion(kept, SpliceAt(|kept|, at), Block(|kept|, at, xs[..i]))
      {
        SpliceStep(kept, at, xs[..i], xs[i]);
        assert xs[..i + 1] == xs[..i] + [xs[i]];
        var p := SpliceAt(|nodes|, at);
        nodes := nodes[..p] + [xs[i]] + nodes[p..];
      }
      assert xs[..|xs|] == xs;
    }

    method PushAll(added: seq<Node>)
      modifies this`nodes
      ensures nodes == old(nodes) + added
    {
      for i := 0 to |added|
        invariant nodes == old(nodes) + added[..i]
      {
        nodes := nodes + [added[i]];
      }
      assert added[..|added|] == added;
    }

    /** Splice the nodes in at one place, last first. */
    method SpliceAll(p: nat, added: seq<Node>)
      requires p <= |nodes|
      modifies this`nodes
      ensures nodes == Insertion(old(nodes), p, added)
    {
      ghost var kept := nodes;
      var i := |added|;
      assert nodes == kept[..p] + added[i..] + kept[p..];
      while i > 0
        invariant 0 <= i <= |added| && nodes == kept[..p] + added[i..] + kept[p..]
      {
        i := i - 1;
        assert added[i..] == [added[i]] + added[i + 1..];
        assert nodes[..p] == kept[..p] && nodes[p..] == added[i + 1..] + kept[p..];
        nodes := nodes[..p] + [added[i]] + nodes[p..];
      }
    }

    /** Do one thing to the container; false when it throws. */
    method Apply(op: Op) returns (ok: bool)
      requires Valid()
      modifies this
      ensures Valid() && lastEach >= old(lastEach) && misplaced >= old(misplaced)
      ensures Follows(old(walks), walks, TouchedBy(op), misplaced == old(misplaced))
      ensures ok ==> indexes.Keys == old(indexes).Keys
      ensures (Now(), ok) == Done(old(Now()), op)
      decreases op
    {
      hide AllSound, Only, Elements, Spliced, NoRepeats, Follows;
      match op
      case InsertBefore(anchor, added) =>
        ok := InsertBefore(anchor, added);
      case InsertAfter(anchor, added) =>
        ok := InsertAfter(anchor, added);
      case Prepend(added) =>
        ok := Prepend(added);
      case Append(added) =>
        ok := Append(added);
      case RemoveChild(node) =>
        ok := RemoveChild(node);
      case Each(turns) =>
        var outcome, _, _ := Each(turns);
        ok := outcome != Threw;
    }

    method ApplyAll(ops: seq<Op>) returns (ok: bool)
      requires Valid()
      modifies this
      ensures Valid() && lastEach >= old(lastEach) && misplaced >= old(misplaced)
      ensures Follows(old(walks), walks, TouchedByAll(ops), misplaced == old(misplaced))
      ensures ok ==> indexes.Keys == old(indexes).Keys
      ensures (Now(), ok) == DoneAll(old(Now()), ops)
      decreases ops
    {
      hide AllSound, NoRepeats, Follows, Done;
      ok := true;
      FollowsItself(walks);
      for i := 0 to |ops|
        invariant Valid() && lastEach >= old(lastEach) && misplaced >= old(misplaced)
        invariant Follows(old(walks), walks, TouchedByAll(ops[..i]), misplaced == old(misplaced))
        invariant indexes.Keys == old(indexes).Keys && DoneAll(Now(), ops[i..]) == DoneAll(old(Now()), ops)
      {
        assert ops[i..][0] == ops[i] && ops[i..][1..] == ops[i + 1..];
        ghost var before, slips := walks, misplaced;
        ok := Apply(ops[i]);
        assert ops[..i + 1][..i] == ops[..i];
        FollowsThrough(old(walks), before, walks, TouchedByAll(ops[..i]), slips == old(misplaced), TouchedBy(ops[i]), misplaced == slips);
        if !ok {
          TouchedByPrefix(ops, i + 1);
          FollowsMore(old(walks), walks, TouchedByAll(ops[..i + 1]), misplaced == old(misplaced), TouchedByAll(ops), misplaced == old(misplaced));
          return;
        }
      }
      assert ops[..|ops|] == ops;
    }

    /** All other walks are sound, and so is walk s, about to look at the node at its index. */
    ghost predicate AtHead(s: nat)
      reads this
    {
      NoRepeats(nodes) && Apart(orphans, nodes) && s in indexes && SoundAtHead(nodes, indexes, walks, s) && forall k | k in indexes :: k <= lastEach
    }

    /** Walk the children, whatever the callback does meanwhile: this is what getIterator and each do together.
        Callbacks beyond the turns given do nothing. As long as nothing was inserted before a node that is not a
        child, or at another negative place, a walk that comes to its end has visited, once and in order, the first children that were neither
        removed ahead of it nor put in again; one that stops early has visited a prefix of those. */
    method Each(turns: seq<Turn>) returns (outcome: Outcome, used: nat, ghost walk: Iter)
      requires Valid()
      modifies this
      ensures Valid() && lastEach >= old(lastEach) && misplaced >= old(misplaced)
      ensures Follows(old(walks), walks, TouchedIn(turns), misplaced == old(misplaced))
      ensures outcome != Threw ==> indexes.Keys == old(indexes).Keys
      ensures Walk(Now(), outcome, used, walk.visited) == WholeWalk(old(Now()), turns)
      ensures EndsRightly(Begun(old(Now())), old(lastEach) + 1, turns, 0, outcome, used)
      ensures turns == [] ==> outcome == Finished && walk.visited == old(nodes) && nodes == old(nodes) && indexes == old(indexes)
      ensures WalkSince(walk, old(nodes), TouchedIn(turns), misplaced == old(misplaced))
      ensures outcome == Finished && !walk.spoiled ==>
                Only(walk.visited, Tracked(walk)) == Only(walk.order, Tracked(walk) - walk.gone)
      ensures !walk.spoiled ==>
                Only(walk.visited, Tracked(walk)) <= Only(walk.order, Tracked(walk) - walk.gone)
      ensures !walk.spoiled ==> forall n | n in walk.visited && n in Tracked(walk) :: n !in walk.gone
      decreases turns, 2
    {
      hide AllSound, SoundAtHead, NoRepeats, Follows, Walked, Tracked, Only, WalkSince, EndsRightly, WalkedFrom;
      WalkEnds(Begun(Now()), lastEach + 1, turns, 0);
      if turns == [] {
        QuietWalk(Now(), turns);
      }
      lastEach := lastEach + 1;
      var s := lastEach;
      StartAtHead(nodes, indexes, walks, s);
      indexes, walks := indexes[s := 0], walks[s := Iter(nodes, [], {}, {}, false)];
      outcome, used := Loop(s, turns, old(walks));
      walk := EndWalk(s, outcome);
      if !walk.spoiled {
        VisitedNotGone(walk);
      }
    }

    /** The loop of walk s, from the first child on. */
    method Loop(s: nat, turns: seq<Turn>, ghost start: Walks) returns (outcome: Outcome, used: nat)
      requires AtHead(s) && s in walks && walks[s].visited == []
      requires Walked(start, walks, s, nodes, {}, true)
      modifies this
      ensures NoRepeats(nodes) && Apart(orphans, nodes) && lastEach >= old(lastEach) && misplaced >= old(misplaced)
      ensures s in walks && forall k | k in indexes :: k <= lastEach
      ensures if outcome == Finished then SoundAtHead(nodes, indexes, walks, s) && indexes[s] >= |nodes| else AllSound(nodes, indexes, walks)
      ensures outcome != Threw ==> indexes.Keys == old(indexes).Keys
      ensures Walk(Now(), outcome, used, walks[s].visited) == WalkedFrom(old(Now()), s, turns, 0)
      ensures WalkSince(walks[s], old(nodes), TouchedIn(turns), misplaced == old(misplaced))
      ensures Follows(start, walks - {s}, TouchedIn(turns), misplaced == old(misplaced))
      ensures Follows(start, walks, TouchedIn(turns), misplaced == old(misplaced))
      decreases turns, 1
    {
      hide AllSound, SoundAtHead, NoRepeats, Follows, Walked, Tracked, Only, WalkSince, WalkedFrom, VisitedFirst, CalledBack, Apart;
      outcome, used := Finished, 0;
      ghost var whole := WalkedFrom(Now(), s, turns, 0);
      WalkBegins(whole);
      while indexes[s] < |nodes|
        invariant AtHead(s) && used <= |turns| && indexes.Keys == old(indexes).Keys
        invariant Walked(start, walks, s, old(nodes), TouchedIn(turns[..used]), misplaced == old(misplaced))
        invariant outcome == Finished && lastEach >= old(lastEach) && misplaced >= old(misplaced)
        invariant s in walks && VisitedFirst(walks[s].visited, WalkedFrom(Now(), s, turns, used)) == whole
        decreases |turns| - used, |nodes| - indexes[s]
      {
        ghost var before, visited, taken := Now(), walks[s].visited, used;
        outcome, used := CallBack(s, turns, used, start, old(nodes), misplaced == old(misplaced));
        WalkStep(before, s, turns, taken, visited, whole);
        if outcome != Finished {
          break;
        }
        StepToHead(nodes, indexes, walks, s);
        indexes := indexes[s := indexes[s] + 1];
      }
      if outcome == Finished {
        WalkDone(Now(), s, turns, used, walks[s].visited);
      }
      TouchedInPrefix(turns, used);
      WalkedEnds(start, walks, s, old(nodes), TouchedIn(turns[..used]), misplaced == old(misplaced), TouchedIn(turns), misplaced == old(misplaced));
    }

    /** Call the callback of walk s with the node at its index. */
    method CallBack(s: nat, turns: seq<Turn>, used: nat, ghost start: Walks, ghost first: seq<Node>, ghost steady: bool)
      returns (outcome: Outcome, used': nat)
      requires AtHead(s) && s in walks && indexes[s] < |nodes| && used <= |turns|
      requires Walked(start, walks, s, first, TouchedIn(turns[..used]), steady)
      modifies this
      ensures Valid() && s in walks && lastEach >= old(lastEach) && misplaced >= old(misplaced)
      ensures used <= used' <= |turns|
      ensures Walked(start, walks, s, first, TouchedIn(turns[..used']), steady && misplaced == old(misplaced))
      ensures outcome != Threw ==> indexes.Keys == old(indexes).Keys
      ensures outcome == Finished ==> s in indexes
      ensures (Now(), outcome, used') == CalledBack(old(Now()), turns, used)
      ensures 0 <= old(indexes[s]) && walks[s].visited == old(walks)[s].visited + [old(nodes[indexes[s]])]
      decreases turns, 0
    {
      hide AllSound, SoundAtHead, NoRepeats, Follows, Walked, Tracked, Only, WalkSince, DoneAll;
      VisitAtHead(nodes, indexes, walks, s);
      VisitWalked(start, walks, s, first, TouchedIn(turns[..used]), steady, nodes[indexes[s]]);
      walks := Visited(walks, s, nodes[indexes[s]]);
      outcome, used' := Finished, used;
      WalkedEnds(start, walks, s, first, TouchedIn(turns[..used]), steady, TouchedIn(turns[..used]), steady);
      if used < |turns| {
        ghost var before, slips := walks, misplaced;
        var ok := ApplyAll(turns[used].ops);
        FollowsVisited(before, walks, TouchedByAll(turns[used].ops), misplaced == slips, s);
        assert turns[..used + 1][..used] == turns[..used];
        WalkedThrough(start, before, walks, s, first, TouchedIn(turns[..used]), steady, TouchedByAll(turns[used].ops), misplaced == slips);
        used' := used + 1;
        if !ok {
          outcome := Threw;
        } else if !turns[used].more {
          outcome := Stopped;
        }
      }
    }

    /** Forget the walk's index, unless a throw goes past. */
    method EndWalk(s: nat, outcome: Outcome) returns (ghost walk: Iter)
      requires NoRepeats(nodes) && Apart(orphans, nodes) && s in walks && forall k | k in indexes :: k <= lastEach
      requires if outcome == Finished then SoundAtHead(nodes, indexes, walks, s) && indexes[s] >= |nodes| else AllSound(nodes, indexes, walks)
      modifies this`indexes, this`walks
      ensures Valid() && walk == old(walks)[s]
      ensures indexes == if outcome == Threw then old(indexes) else old(indexes) - {s}
      ensures walks == if outcome == Threw then old(walks) else old(walks) - {s}
      ensures outcome != Threw ==> indexes.Keys == old(indexes).Keys - {s}
      ensures outcome == Finished && !walk.spoiled ==>
                Only(walk.visited, Tracked(walk)) == Only(walk.order, Tracked(walk) - walk.gone)
      ensures !walk.spoiled ==>
                Only(walk.visited, Tracked(walk)) <= Only(walk.order, Tracked(walk) - walk.gone)
    {
      hide AllSound, SoundAtHead, NoRepeats, Tracked, Only;
      walk := walks[s];
      if outcome == Finished {
        FinishedWalk(nodes, indexes, walks, s);
      } else {
        StoppedWalk(nodes, indexes, walks, s);
      }
      if outcome != Threw {
        indexes, walks := indexes - {s}, walks - {s};
      }
    }
  }

  /** A child removed after its turn, or not at all, is not counted as gone. */
  lemma VisitedNotGone(walk: Iter)
    requires Only(walk.visited, Tracked(walk)) <= Only(walk.order, Tracked(walk) - walk.gone)
    ensures forall n | n in walk.visited && n in Tracked(walk) :: n !in walk.gone
  {
    hide Only;
    forall n | n in walk.visited && n in Tracked(walk) ensures n !in walk.gone {
      assert n in Only(walk.visited, Tracked(walk));
      assert n in Only(walk.order, Tracked(walk) - walk.gone);
    }
  }

  /** A walk over 1, 2, 3 in the middle of its first callback. */
  method StartedWalk() returns (c: Container)
    ensures c.Valid() && fresh(c) && c.nodes == [1, 2, 3] && c.indexes == map[1 := 0] && c.orphans == {}
  {
    hide AllSound, SoundAtHead, Walked;
    c := new Container([1, 2, 3]);
    StartAtHead(c.nodes, c.indexes, c.walks, 1);
    c.lastEach := 1;
    c.indexes, c.walks := c.indexes[1 := 0], c.walks[1 := Iter(c.nodes, [], {}, {}, false)];
    VisitAtHead(c.nodes, c.indexes, c.walks, 1);
    c.walks := Visited(c.walks, 1, c.nodes[0]);
  }

  /** The callback inserts 4 before a node that is not a child: 4 goes in before 3 and the index moves along with it, so
      that 2 is passed over. */
  method MissesAChild() returns (visited: seq<Node>)
    ensures visited == [1, 4, 3]
  {
    hide AllSound, Only, Elements, Spliced, Insertion, Follows, GoneAhead, Apart, NoRepeats;
    var c := StartedWalk();
    visited := [c.nodes[0]];
    StrangersStay([1, 2, 3], [4]);
    NoRepeatsOne(4);
    var ok := c.InsertBefore(Child(9), [4]);
    MissedChild();
    assert c.nodes == [1, 2, 4, 3] && c.indexes[1] == 1;
    visited := visited + [c.nodes[2], c.nodes[3]];
  }

  lemma StrangersStay(nodes: seq<Node>, added: seq<Node>)
    requires forall n | n in added :: n !in nodes
    ensures Insertable(added, {}) == NoRepeats(added)
    ensures Only(nodes, Elements(nodes) - Elements(Reached(added, {}))) == nodes
  {
    OnlyAll(nodes, Elements(nodes) - Elements(Reached(added, {})));
  }

  /** So a child that no callback took out or put in is visited exactly when it was there at the start: those
      children come up once each, in order. */
  lemma UntouchedVisitedOnce(walk: Iter, nodes: seq<Node>, touched: set<Node>)
    requires WalkSince(walk, nodes, touched, true)
    requires Only(walk.visited, Tracked(walk)) == Only(walk.order, Tracked(walk) - walk.gone)
    ensures Only(walk.visited, Elements(nodes) - touched) == Only(nodes, Elements(nodes) - touched)
  {
    var calm := Elements(nodes) - touched;
    OnlyOnly(walk.visited, Tracked(walk), calm);
    OnlyOnly(walk.order, Tracked(walk) - walk.gone, calm);
  }
}
