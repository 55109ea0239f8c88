/** Searching a buffer for a byte string, forwards with a loop that backs up, and backwards. */
module ByteSearch {

  predicate OccursAt(t: seq<nat>, e: seq<nat>, k: int) {
    0 <= k <= |t| - |e| && forall i | 0 <= i < |e| :: t[k + i] == e[i]
  }

  /** Where a match may still begin: at the partial match, or at the next byte. */
  function Candidate(o: int, n: int): int {
    if n == -1 then o else n
  }

  /** A partial match and nothing before it. */
  ghost predicate Searching(t: seq<nat>, e: seq<nat>, r: nat, o: int, n: int) {
    && (n == -1 || (r <= n < o && o - n < |e|))
    && r <= o && (n != -1 ==> o <= |t|)
    && (forall i | Candidate(o, n) <= i < o && n != -1 :: t[i] == e[i - n])
    && (forall k | r <= k < Candidate(o, n) :: !OccursAt(t, e, k))
  }

  lemma MatchOn(t: seq<nat>, e: seq<nat>, r: nat, o: int, n: int)
    requires Searching(t, e, r, o, n) && e != [] && o < |t| && t[o] == e[o - Candidate(o, n)]
    ensures
      var n' := Candidate(o, n);
      if o - n' + 1 == |e| then OccursAt(t, e, n') else Searching(t, e, r, o + 1, n')
  {
    var n' := Candidate(o, n);
    if o - n' + 1 == |e| {
      forall i | 0 <= i < |e| ensures t[n' + i] == e[i] {
        assert n' + i < o ==> t[n' + i] == e[n' + i - n'];
      }
    }
  }

  lemma MismatchOn(t: seq<nat>, e: seq<nat>, r: nat, o: int, n: int)
    requires Searching(t, e, r, o, n) && e != [] && o < |t| && t[o] != e[o - Candidate(o, n)]
    ensures Searching(t, e, r, Candidate(o, n) + 1, -1)
  {
    var c := Candidate(o, n);
    assert !OccursAt(t, e, c) by {
      assert t[c + (o - c)] != e[o - c];
    }
  }

  /** A partial match that reaches the end leaves no room for a later one. */
  lemma NoRoom(t: seq<nat>, e: seq<nat>, r: nat, o: int, n: int)
    requires Searching(t, e, r, o, n) && e != [] && o >= |t|
    ensures forall k | r <= k :: !OccursAt(t, e, k)
  {
  }

  /** The first occurrence at or after r, or -1 exactly when there is none. */
  method IndexOf(t: seq<nat>, e: seq<nat>, r: nat) returns (at: int)
    requires e != []
    ensures at == -1 || (r <= at && OccursAt(t, e, at) && forall k | r <= k < at :: !OccursAt(t, e, k))
    ensures at == -1 <==> forall k | r <= k :: !OccursAt(t, e, k)
  {
    hide OccursAt;
    var n, o := -1, r as int;
    while o < |t|
      invariant Searching(t, e, r, o, n)
      decreases |t| - Candidate(o, n), |t| - o
    {
      if t[o] == e[if n == -1 then 0 else o - n] {
        MatchOn(t, e, r, o, n);
        if n == -1 {
          n := o;
        }
        if o - n + 1 == |e| {
          return n;
        }
      } else {
        MismatchOn(t, e, r, o, n);
        if n != -1 {
          o := o - (o - n);
        }
        n := -1;
      }
      o := o + 1;
    }
    NoRoom(t, e, r, o, n);
    at := -1;
  }

  /** The last occurrence at or before r, or -1 exactly when there is none. */
  method LastIndexOf(t: seq<nat>, e: seq<nat>, r: nat) returns (at: int)
    requires e != []
    ensures at == -1 || (at <= r && OccursAt(t, e, at) && forall k | at < k <= r :: !OccursAt(t, e, k))
    ensures at == -1 <==> forall k | k <= r :: !OccursAt(t, e, k)
  {
    var o: int := r;
    if r + |e| > |t| {
      o := |t| - |e|;
    }
    while o >= 0
      invariant o <= r && o <= |t| - |e| && forall k | o < k <= r :: !OccursAt(t, e, k)
    {
      var found, n := true, 0;
      while n < |e|
        invariant 0 <= n <= |e| && found && forall i | 0 <= i < n :: t[o + i] == e[i]
      {
        if t[o + n] != e[n] {
          found := false;
          assert !OccursAt(t, e, o);
          break;
        }
        n := n + 1;
      }
      if found {
        return o;
      }
      o := o - 1;
    }
    at := -1;
  }
}
