/** What the operations on a container do, as functions of its state: the reference its methods are proved against. */
module LiveSemantics {
  import opened Sequences
  import opened LiveNodes

  /** An insertion names a child, or a place by its index. */
  datatype Anchor = Child(node: Node) | Place(index: int)

  /** What a callback may do to the container it walks. */
  datatype Op =
    | InsertBefore(anchor: Anchor, added: seq<Node>)
    | InsertAfter(anchor: Anchor, added: seq<Node>)
    | Prepend(added: seq<Node>)
    | Append(added: seq<Node>)
    | RemoveChild(node: Node)
    | Each(turns: seq<Turn>)

  /** One call of a callback: what it does, and whether it lets the walk go on. */
  datatype Turn = Turn(ops: seq<Op>, more: bool)

  datatype Outcome = Finished | Stopped | Threw

  /** The children, the index of every walk under way, the key last given to one, and the nodes that name the container
      as their parent without being children. */
  datatype State = State(nodes: seq<Node>, indexes: Indexes, lastEach: nat, orphans: set<Node>)

  /** What a walk left behind: how it ended, how many turns it took, and the nodes visited. */
  datatype Walk = Walk(state: State, outcome: Outcome, used: nat, visited: seq<Node>)

  /** The index an anchor stands for: -1 for a node that is not a child. */
  function PlaceOf(nodes: seq<Node>, anchor: Anchor): int {
    match anchor
    case Child(n) => Position(nodes, n)
    case Place(i) => i
  }

  // ---------- single operations ----------

  /** Removing throws for a node that is not a child. */
  function Removed(st: State, n: Node): (State, bool) {
    var e := Position(st.nodes, n);
    if e < 0 then (st, false)
    else (st.(nodes := Without(st.nodes, e), indexes := MovedBack(st.indexes, e)), true)
  }

  /** The first k of the nodes taken out, where they are children. */
  function TakenAway(st: State, added: seq<Node>, k: nat): State
    requires k <= |added|
  {
    if k == 0 then st else Removed(TakenAway(st, added, k - 1), added[k - 1]).0
  }

  /** Nodes made ready to go in, or the throw on the way. */
  function Readied(st: State, added: seq<Node>): (State, bool) {
    var away := TakenAway(st, added, FirstIn(added, st.orphans));
    (away.(orphans := Orphaned(added, st.orphans)), Insertable(added, st.orphans))
  }

  function SplicedState(st: State, at: int, added: seq<Node>): State {
    st.(nodes := Spliced(st.nodes, at, added), indexes := MovedOn(st.indexes, at, |added|))
  }

  /** Nodes spliced in next to an anchor: behind 0 or 1 from it. */
  function InsertedAt(st: State, anchor: Anchor, behind: nat, added: seq<Node>): (State, bool) {
    var (ready, ok) := Readied(st, added);
    if ok then (SplicedState(ready, PlaceOf(ready.nodes, anchor) + behind, added), true) else (ready, false)
  }

  function Prepended(st: State, added: seq<Node>): (State, bool) {
    var (ready, ok) := Readied(st, added);
    if ok then (ready.(nodes := added + ready.nodes, indexes := MovedAll(ready.indexes, |added|)), true) else (ready, false)
  }

  function Appended(st: State, added: seq<Node>): (State, bool) {
    var (ready, ok) := Readied(st, added);
    if ok then (ready.(nodes := ready.nodes + added), true) else (ready, false)
  }

  // ---------- what they keep ----------

  /** New walks get new keys. */
  predicate Keyed(st: State) {
    forall k | k in st.indexes :: k <= st.lastEach
  }

  /** The same walks are under way. */
  predicate SameWalks(st: State, st': State) {
    st'.indexes.Keys == st.indexes.Keys && st'.lastEach == st.lastEach
  }

  lemma {:induction false} TakenAwayWalks(st: State, added: seq<Node>, k: nat)
    requires k <= |added|
    ensures SameWalks(st, TakenAway(st, added, k)) && TakenAway(st, added, k).orphans == st.orphans
  {
    if k > 0 {
      TakenAwayWalks(st, added, k - 1);
    }
  }

  lemma ReadiedWalks(st: State, added: seq<Node>)
    ensures SameWalks(st, Readied(st, added).0)
  {
    TakenAwayWalks(st, added, FirstIn(added, st.orphans));
  }

  lemma SingleWalks(st: State, added: seq<Node>, anchor: Anchor, behind: nat)
    ensures SameWalks(st, InsertedAt(st, anchor, behind, added).0)
    ensures SameWalks(st, Prepended(st, added).0) && SameWalks(st, Appended(st, added).0)
  {
    hide Readied, Spliced;
    ReadiedWalks(st, added);
  }

  // ---------- operations and walks ----------

  /** One operation; false when it throws. */
  function Done(st: State, op: Op): (r: (State, bool))
    requires Keyed(st)
    ensures Keyed(r.0) && r.0.lastEach >= st.lastEach && (r.1 ==> r.0.indexes.Keys == st.indexes.Keys)
    decreases op
  {
    match op
    case InsertBefore(anchor, added) =>
      SingleWalks(st, added, anchor, 0);
      InsertedAt(st, anchor, 0, added)
    case InsertAfter(anchor, added) =>
      SingleWalks(st, added, anchor, 1);
      InsertedAt(st, anchor, 1, added)
    case Prepend(added) =>
      SingleWalks(st, added, Place(0), 0);
      Prepended(st, added)
    case Append(added) =>
      SingleWalks(st, added, Place(0), 0);
      Appended(st, added)
    case RemoveChild(n) =>
      Removed(st, n)
    case Each(turns) =>
      var w := WholeWalk(st, turns);
      (w.state, w.outcome != Threw)
  }

  /** One after the other, up to one that throws. */
  function DoneAll(st: State, ops: seq<Op>): (r: (State, bool))
    requires Keyed(st)
    ensures Keyed(r.0) && r.0.lastEach >= st.lastEach && (r.1 ==> r.0.indexes.Keys == st.indexes.Keys)
    decreases ops
  {
    if ops == [] then (st, true)
    else
      var (next, ok) := Done(st, ops[0]);
      if ok then DoneAll(next, ops[1..]) else (next, false)
  }

  /** One callback: the turn it takes, if one is left, and how that ends; what else it does is nothing. */
  function CalledBack(st: State, turns: seq<Turn>, used: nat): (r: (State, Outcome, nat))
    requires Keyed(st) && used <= |turns|
    ensures Keyed(r.0) && r.0.lastEach >= st.lastEach && (r.1 != Threw ==> r.0.indexes.Keys == st.indexes.Keys)
    ensures used <= r.2 <= |turns| && (r.2 == used ==> r.0 == st)
    decreases turns, 0
  {
    if used == |turns| then (st, Finished, used)
    else
      var (after, ok) := DoneAll(st, turns[used].ops);
      (after, if !ok then Threw else if turns[used].more then Finished else Stopped, used + 1)
  }

  /** The walk with key s from where it stands, its next callback taking turn number used. */
  function WalkedFrom(st: State, s: nat, turns: seq<Turn>, used: nat): (w: Walk)
    requires Keyed(st) && s in st.indexes && used <= |turns|
    ensures Keyed(w.state) && w.state.lastEach >= st.lastEach
    ensures w.outcome != Threw ==> w.state.indexes.Keys == st.indexes.Keys
    decreases turns, 1, |turns| - used, |st.nodes| - st.indexes[s]
  {
    var i := st.indexes[s];
    if !(0 <= i < |st.nodes|) then Walk(st, Finished, used, [])
    else
      var (after, outcome, next) := CalledBack(st, turns, used);
      if outcome != Finished then Walk(after, outcome, next, [st.nodes[i]])
      else VisitedFirst([st.nodes[i]], WalkedFrom(Advanced(after, s), s, turns, next))
  }

  function Advanced(st: State, s: nat): State
    requires s in st.indexes
  {
    st.(indexes := st.indexes[s := st.indexes[s] + 1])
  }

  function VisitedFirst(first: seq<Node>, w: Walk): Walk {
    w.(visited := first + w.visited)
  }

  /** One callback further along a walk that has visited some nodes so far. */
  lemma WalkStep(st: State, s: nat, turns: seq<Turn>, used: nat, visited: seq<Node>, whole: Walk)
    requires Keyed(st) && s in st.indexes && used <= |turns| && 0 <= st.indexes[s] < |st.nodes|
    requires whole == VisitedFirst(visited, WalkedFrom(st, s, turns, used))
    ensures
      var (after, outcome, next) := CalledBack(st, turns, used);
      var more := visited + [st.nodes[st.indexes[s]]];
      && (outcome != Finished ==> whole == Walk(after, outcome, next, more))
      && (outcome == Finished ==>
            s in after.indexes && whole == VisitedFirst(more, WalkedFrom(Advanced(after, s), s, turns, next)))
  {
    hide CalledBack;
    var (after, outcome, next) := CalledBack(st, turns, used);
    var n := [st.nodes[st.indexes[s]]];
    if outcome == Finished {
      var rest := WalkedFrom(Advanced(after, s), s, turns, next);
      assert visited + (n + rest.visited) == visited + n + rest.visited;
    }
  }

  lemma WalkDone(st: State, s: nat, turns: seq<Turn>, used: nat, visited: seq<Node>)
    requires Keyed(st) && s in st.indexes && used <= |turns| && st.indexes[s] >= |st.nodes|
    ensures VisitedFirst(visited, WalkedFrom(st, s, turns, used)) == Walk(st, Finished, used, visited)
  {
  }

  lemma WalkBegins(w: Walk)
    ensures VisitedFirst([], w) == w
  {
  }

  /** A walk under way with a new key. */
  function Begun(st: State): State {
    st.(lastEach := st.lastEach + 1, indexes := st.indexes[st.lastEach + 1 := 0])
  }

  /** A whole walk: a new key, and its index forgotten at the end unless a throw goes past. */
  function WholeWalk(st: State, turns: seq<Turn>): (w: Walk)
    requires Keyed(st)
    ensures Keyed(w.state) && w.state.lastEach >= st.lastEach
    ensures w.outcome != Threw ==> w.state.indexes.Keys == st.indexes.Keys
    decreases turns, 2
  {
    var s := st.lastEach + 1;
    var w := WalkedFrom(Begun(st), s, turns, 0);
    if w.outcome == Threw then w else w.(state := w.state.(indexes := w.state.indexes - {s}))
  }

  // ---------- how walks end ----------

  /** Where the walk stands when its callback takes turn k, the turns before it having gone well. */
  function AtTurn(st: State, s: nat, turns: seq<Turn>, used: nat, k: nat): (r: State)
    requires Keyed(st) && used <= k < |turns|
    ensures Keyed(r)
    decreases k - used
  {
    var (after, _, _) := CalledBack(st, turns, used);
    if k == used || s !in after.indexes then st else AtTurn(Advanced(after, s), s, turns, used + 1, k)
  }

  /** Some operation of turn k throws. */
  predicate Throws(st: State, s: nat, turns: seq<Turn>, used: nat, k: nat)
    requires Keyed(st) && used <= k < |turns|
  {
    !DoneAll(AtTurn(st, s, turns, used, k), turns[k].ops).1
  }

  /** A walk takes turns as long as they go on and nothing throws; it ends stopped when the last one does not let it go on,
      and thrown when an operation of that one throws. */
  ghost predicate EndsRightly(st: State, s: nat, turns: seq<Turn>, used: nat, outcome: Outcome, end: nat)
    requires Keyed(st)
  {
    && used <= end <= |turns|
    && (forall k | used <= k < end - 1 :: turns[k].more && !Throws(st, s, turns, used, k))
    && (outcome == Threw <==> end > used && Throws(st, s, turns, used, end - 1))
    && (outcome == Stopped <==> end > used && !Throws(st, s, turns, used, end - 1) && !turns[end - 1].more)
  }

  lemma ThrowsLater(st: State, s: nat, turns: seq<Turn>, used: nat, k: nat)
    requires Keyed(st) && used < k < |turns|
    requires s in CalledBack(st, turns, used).0.indexes
    ensures Throws(st, s, turns, used, k) == Throws(Advanced(CalledBack(st, turns, used).0, s), s, turns, used + 1, k)
  {
    hide DoneAll, CalledBack;
  }

  lemma {:induction false} WalkEnds(st: State, s: nat, turns: seq<Turn>, used: nat)
    requires Keyed(st) && s in st.indexes && used <= |turns|
    ensures var w := WalkedFrom(st, s, turns, used); EndsRightly(st, s, turns, used, w.outcome, w.used)
    decreases |turns| - used, |st.nodes| - st.indexes[s]
  {
    hide EndsRightly;
    var i := st.indexes[s];
    if 0 <= i < |st.nodes| {
      var (after, outcome, next) := CalledBack(st, turns, used);
      if outcome == Finished {
        WalkEnds(Advanced(after, s), s, turns, next);
        var w := WalkedFrom(Advanced(after, s), s, turns, next);
        if used < |turns| {
          EndsLater(st, s, turns, used, w.outcome, w.used);
        } else {
          NothingLeft(Advanced(after, s), s, turns, w.outcome, w.used);
          EndsUnused(st, s, turns, used);
        }
      } else {
        EndsNow(st, s, turns, used);
      }
    } else {
      EndsUnused(st, s, turns, used);
    }
  }

  lemma EndsUnused(st: State, s: nat, turns: seq<Turn>, used: nat)
    requires Keyed(st) && used <= |turns|
    ensures EndsRightly(st, s, turns, used, Finished, used)
  {
  }

  lemma NothingLeft(st: State, s: nat, turns: seq<Turn>, outcome: Outcome, end: nat)
    requires Keyed(st) && EndsRightly(st, s, turns, |turns|, outcome, end)
    ensures end == |turns| && outcome == Finished
  {
  }

  lemma EndsNow(st: State, s: nat, turns: seq<Turn>, used: nat)
    requires Keyed(st) && used <= |turns| && CalledBack(st, turns, used).1 != Finished
    ensures var (_, outcome, next) := CalledBack(st, turns, used); EndsRightly(st, s, turns, used, outcome, next)
  {
    hide DoneAll;
  }

  lemma EndsLater(st: State, s: nat, turns: seq<Turn>, used: nat, outcome: Outcome, end: nat)
    requires Keyed(st) && s in st.indexes && used < |turns| && CalledBack(st, turns, used).1 == Finished
    requires EndsRightly(Advanced(CalledBack(st, turns, used).0, s), s, turns, used + 1, outcome, end)
    ensures EndsRightly(st, s, turns, used, outcome, end)
  {
    hide Throws;
    forall k | used < k < end
      ensures Throws(st, s, turns, used, k) == Throws(Advanced(CalledBack(st, turns, used).0, s), s, turns, used + 1, k)
    {
      ThrowsLater(st, s, turns, used, k);
    }
    GoesWell(st, s, turns, used);
  }

  lemma GoesWell(st: State, s: nat, turns: seq<Turn>, used: nat)
    requires Keyed(st) && used < |turns| && CalledBack(st, turns, used).1 == Finished
    ensures turns[used].more && !Throws(st, s, turns, used, used)
  {
    hide DoneAll;
  }

  /** A callback that does nothing sees every node from where the walk stands. */
  lemma {:induction false} QuietFrom(st: State, s: nat, turns: seq<Turn>)
    requires turns == [] && Keyed(st) && s in st.indexes && 0 <= st.indexes[s] <= |st.nodes|
    ensures WalkedFrom(st, s, turns, 0)
         == Walk(st.(indexes := st.indexes[s := |st.nodes|]), Finished, 0, st.nodes[st.indexes[s]..])
    decreases |st.nodes| - st.indexes[s]
  {
    var i := st.indexes[s];
    if i < |st.nodes| {
      QuietFrom(Advanced(st, s), s, turns);
      assert st.nodes[i..] == [st.nodes[i]] + st.nodes[i + 1..];
      assert st.indexes[s := i + 1][s := |st.nodes|] == st.indexes[s := |st.nodes|];
    } else {
      assert st.indexes[s := i] == st.indexes;
    }
  }

  /** So it sees every child, in order, and leaves all as it was. */
  lemma QuietWalk(st: State, turns: seq<Turn>)
    requires turns == [] && Keyed(st)
    ensures WholeWalk(st, turns) == Walk(st.(lastEach := st.lastEach + 1), Finished, 0, st.nodes)
  {
    hide WalkedFrom, CalledBack;
    var s := st.lastEach + 1;
    QuietFrom(Begun(st), s, turns);
    assert st.nodes[0..] == st.nodes;
    ForgottenKey(st.indexes, s, |st.nodes|);
  }

  lemma ForgottenKey(indexes: Indexes, s: nat, n: nat)
    requires s !in indexes
    ensures indexes[s := 0][s := n] - {s} == indexes
  {
  }
}
