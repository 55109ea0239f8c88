/** The binary heap of tasks, least sort index first, ties broken by id. */
module TaskHeap {

  import opened Options

  datatype Task = Task(id: nat, sortIndex: int, startTime: int, expirationTime: int, priority: nat)

  /** Negative, zero or positive as a comes before, with or after b. */
  function Compare(a: Task, b: Task): int {
    if a.sortIndex != b.sortIndex then a.sortIndex - b.sortIndex else a.id - b.id
  }

  predicate NotAfter(a: Task, b: Task) {
    Compare(a, b) <= 0
  }

  /** No entry has a smaller sort index, and none of the same sort index a smaller id. */
  ghost predicate ComesFirst(t: Task, items: seq<Task>) {
    forall x | x in items :: t.sortIndex < x.sortIndex || (t.sortIndex == x.sortIndex && t.id <= x.id)
  }

  lemma FirstIsNotAfter(t: Task, items: seq<Task>)
    ensures ComesFirst(t, items) <==> forall x | x in items :: NotAfter(t, x)
  {
  }

  function Parent(i: nat): nat
    requires i > 0
  {
    (i - 1) / 2
  }

  lemma ChildrenOf(n: nat)
    ensures forall k: nat | k > 0 :: Parent(k) == n <==> k == 2 * n + 1 || k == 2 * n + 2
  {
  }

  /** No entry comes before its parent. */
  ghost predicate Ordered(s: seq<Task>) {
    forall i :: 0 < i < |s| ==> NotAfter(s[Parent(i)], s[i])
  }

  /** The root comes first. */
  lemma {:induction false} RootIsLeast(s: seq<Task>, i: nat)
    requires Ordered(s) && i < |s|
    ensures NotAfter(s[0], s[i])
  {
    if i > 0 {
      RootIsLeast(s, Parent(i));
    }
  }

  lemma SwapKeepsMultiset(s: seq<Task>, i: nat, j: nat)
    requires i < |s| && j < |s|
    ensures multiset(s[i := s[j]][j := s[i]]) == multiset(s)
  {
  }

  // ---------- sifting up ----------

  /** Ordered but for the new entry at r, which may belong further up. */
  ghost predicate RisingAt(s: seq<Task>, r: nat) {
    && r < |s|
    && (forall i :: 0 < i < |s| && i != r ==> NotAfter(s[Parent(i)], s[i]))
    && (forall i :: 0 < i < |s| && r > 0 && Parent(i) == r ==> NotAfter(s[Parent(r)], s[i]))
  }

  lemma RiseStep(s: seq<Task>, r: nat)
    requires RisingAt(s, r) && r > 0 && !NotAfter(s[Parent(r)], s[r])
    ensures RisingAt(s[Parent(r) := s[r]][r := s[Parent(r)]], Parent(r))
  {
    var n := Parent(r);
    var s' := s[n := s[r]][r := s[n]];
    forall i | 0 < i < |s'| && i != n ensures NotAfter(s'[Parent(i)], s'[i]) {
      if i != r && Parent(i) == n {
        assert NotAfter(s[n], s[i]);
      }
    }
    forall i | 0 < i < |s'| && n > 0 && Parent(i) == n ensures NotAfter(s'[Parent(n)], s'[i]) {
      assert NotAfter(s[Parent(n)], s[n]);
      if i != r {
        assert NotAfter(s[n], s[i]);
      }
    }
  }

  // ---------- sifting down ----------

  /** Ordered but for the entry at n, which may belong further down. */
  ghost predicate SinkingAt(s: seq<Task>, n: nat) {
    && n < |s|
    && (forall i :: 0 < i < |s| && Parent(i) != n ==> NotAfter(s[Parent(i)], s[i]))
    && (forall i :: 0 < i < |s| && n > 0 && Parent(i) == n ==> NotAfter(s[Parent(n)], s[i]))
  }

  lemma SinkingBounds(s: seq<Task>, n: nat)
    requires SinkingAt(s, n)
    ensures n < |s|
  {
  }

  lemma SinkStep(s: seq<Task>, n: nat, c: nat)
    requires SinkingAt(s, n) && 0 < c < |s| && Parent(c) == n && !NotAfter(s[n], s[c])
    requires forall i :: 0 < i < |s| && Parent(i) == n ==> NotAfter(s[c], s[i])
    ensures SinkingAt(s[n := s[c]][c := s[n]], c)
  {
    var s' := s[n := s[c]][c := s[n]];
    forall i | 0 < i < |s'| && Parent(i) != c ensures NotAfter(s'[Parent(i)], s'[i]) {
      if i == n {
        assert NotAfter(s[Parent(n)], s[c]);
      }
    }
    forall i | 0 < i < |s'| && Parent(i) == c ensures NotAfter(s'[Parent(c)], s'[i]) {
      assert NotAfter(s[c], s[i]);
    }
  }

  /** Exchanging the sinking entry with the lesser child moves it one level down. */
  lemma SinkTo(s: seq<Task>, n: nat, c: nat)
    requires SinkingAt(s, n) && (c == 2 * n + 1 || c == 2 * n + 2) && c < |s| && !NotAfter(s[n], s[c])
    requires NotAfter(s[c], s[2 * n + 1]) && (2 * n + 2 < |s| ==> NotAfter(s[c], s[2 * n + 2]))
    ensures SinkingAt(s[n := s[c]][c := s[n]], c) && multiset(s[n := s[c]][c := s[n]]) == multiset(s)
  {
    hide SinkingAt;
    ChildrenOf(n);
    SinkStep(s, n, c);
    SwapKeepsMultiset(s, n, c);
  }

  lemma SunkIsOrdered(s: seq<Task>, n: nat)
    requires SinkingAt(s, n)
    requires 2 * n + 1 < |s| ==> NotAfter(s[n], s[2 * n + 1])
    requires 2 * n + 2 < |s| ==> NotAfter(s[n], s[2 * n + 2])
    ensures Ordered(s)
  {
    ChildrenOf(n);
  }

  // ---------- the heap ----------

  class MinHeap {
    var items: seq<Task>

    ghost predicate Valid()
      reads this
    {
      Ordered(items)
    }

    constructor ()
      ensures Valid() && items == []
    {
      items := [];
    }

    method Peek() returns (t: Option<Task>)
      requires Valid()
      ensures items == [] ==> t == None
      ensures items != [] ==> t == Some(items[0]) && ComesFirst(items[0], items)
    {
      if |items| == 0 {
        t := None;
      } else {
        t := Some(items[0]);
        forall x | x in items ensures NotAfter(items[0], x) {
          var i :| 0 <= i < |items| && items[i] == x;
          RootIsLeast(items, i);
        }
        FirstIsNotAfter(items[0], items);
      }
    }

    method Push(t: Task)
      requires Valid()
      modifies this
      ensures Valid() && multiset(items) == multiset(old(items)) + multiset{t}
    {
      var r: nat := |items|;
      items := items + [t];
      ghost var all := multiset(items);
      while 0 < r
        invariant RisingAt(items, r) && items[r] == t && multiset(items) == all
      {
        var n := (r - 1) / 2;
        var o := items[n];
        if 0 < Compare(o, t) {
          RiseStep(items, r);
          SwapKeepsMultiset(items, n, r);
          items := items[n := t][r := o];
          r := n;
        } else {
          break;
        }
      }
    }

    method Pop() returns (t: Option<Task>)
      requires Valid()
      modifies this
      ensures Valid()
      ensures old(items) == [] ==> t == None && items == []
      ensures old(items) != [] ==>
                && t == Some(old(items)[0])
                && multiset(items) == multiset(old(items)) - multiset{old(items)[0]}
                && ComesFirst(old(items)[0], old(items))
    {
      t := Peek();
      if |items| == 0 {
        return;
      }
      var last := |items| - 1;
      var r := items[last];
      assert items == items[..last] + [r];
      items := items[..last];
      if last > 0 {
        ghost var was := items;
        items := items[0 := r];
        assert was == [was[0]] + was[1..] && items == [r] + was[1..];
        SiftDown(r);
      }
    }

    /** Let the entry put at the root sink to its place. */
    method SiftDown(r: Task)
      requires SinkingAt(items, 0) && items[0] == r
      modifies this
      ensures Valid() && multiset(items) == multiset(old(items))
    {
      hide Parent, SinkingAt, Ordered;
      SinkingBounds(items, 0);
      var n, o := 0, |items|;
      var l := o / 2;
      while n < l
        invariant 0 <= n < o == |items| && SinkingAt(items, n) && items[n] == r
        invariant multiset(items) == multiset(old(items))
      {
        var a := 2 * (n + 1) - 1;
        var i, c := items[a], a + 1;
        var child := a;
        if 0 > Compare(i, r) {
          if c < o && 0 > Compare(items[c], i) {
            child := c;
          }
        } else if c < o && 0 > Compare(items[c], r) {
          child := c;
        } else {
          break;
        }
        SinkTo(items, n, child);
        items := items[n := items[child]][child := r];
        n := child;
      }
      SunkIsOrdered(items, n);
    }

    /** Popping until the heap is empty yields all tasks in order. */
    method Drain() returns (out: seq<Task>)
      requires Valid()
      modifies this
      ensures items == [] && multiset(out) == multiset(old(items))
      ensures forall i, j | 0 <= i < j < |out| :: NotAfter(out[i], out[j])
      ensures forall i, j | 0 <= i < j < |out| ::
                out[i].sortIndex < out[j].sortIndex || (out[i].sortIndex == out[j].sortIndex && out[i].id <= out[j].id)
    {
      out := [];
      while |items| > 0
        invariant Valid() && multiset(out) + multiset(items) == multiset(old(items))
        invariant forall i, j :: 0 <= i < j < |out| ==> NotAfter(out[i], out[j])
        invariant forall i, x :: 0 <= i < |out| && x in items ==> NotAfter(out[i], x)
        decreases |multiset(items)|
      {
        ghost var before := items;
        var t := Pop();
        FirstIsNotAfter(before[0], before);
        assert multiset(items) <= multiset(before);
        forall x | x in items ensures x in before {
          assert x in multiset(items);
        }
        assert t.value == before[0] && t.value in before;
        out := out + [t.value];
      }
    }
  }
}
