/** Lines and columns of offsets: a binary search over cached line starts against a walk over the characters. */
module OffsetIndex {
  import opened Options

  datatype Position = Position(line: int, col: int)

  // ---------- the walk ----------

  /** The position after stepping over e characters; positions past the end of the text count as other characters. */
  function Walk(css: string, e: nat): Position {
    if e == 0 then Position(1, 1)
    else
      var before := Walk(css, e - 1);
      if e - 1 < |css| && css[e - 1] == '\n' then Position(before.line + 1, 1) else Position(before.line, before.col + 1)
  }

  method PositionInside(css: string, e: int) returns (p: Position)
    ensures p == Walk(css, if e < 0 then 0 else e)
  {
    var s, i, t := 1, 1, 0;
    while t < e
      invariant 0 <= t && (e < 0 || t <= e) && (e < 0 ==> t == 0) && Position(i, s) == Walk(css, t)
    {
      if t < |css| && css[t] == '\n' {
        s, i := 1, i + 1;
      } else {
        s := s + 1;
      }
      t := t + 1;
    }
    p := Position(i, s);
  }

  // ---------- the line starts ----------

  /** The text up to its first line break. */
  function LineEnd(css: string): (n: nat)
    ensures n <= |css| && (n < |css| ==> css[n] == '\n') && forall k | 0 <= k < n :: css[k] != '\n'
  {
    if css == [] || css[0] == '\n' then 0 else 1 + LineEnd(css[1..])
  }

  /** The text split at its line breaks. */
  function Split(css: string): (lines: seq<string>)
    ensures lines != []
    decreases |css|
  {
    var n := LineEnd(css);
    if n == |css| then [css] else [css[..n]] + Split(css[n + 1..])
  }

  /** Exactly the places where a line starts, in order. */
  ghost predicate LineStarts(css: string, r: seq<nat>) {
    && r != [] && r[0] == 0
    && (forall i, j | 0 <= i < j < |r| :: r[i] < r[j])
    && (forall p: nat :: p in r <==> p == 0 || (p <= |css| && css[p - 1] == '\n'))
  }

  function StartsFrom(lines: seq<string>, base: nat): (r: seq<nat>)
    ensures |r| == |lines|
  {
    if lines == [] then [] else [base] + StartsFrom(lines[1..], base + |lines[0]| + 1)
  }

  lemma {:induction false} StartsFromShift(lines: seq<string>, base: nat, i: nat)
    requires i < |lines|
    ensures StartsFrom(lines, base)[i] == base + StartsFrom(lines, 0)[i]
  {
    var rest, n := lines[1..], |lines[0]| + 1;
    assert StartsFrom(lines, base) == [base] + StartsFrom(rest, base + n) && StartsFrom(lines, 0) == [0] + StartsFrom(rest, n);
    hide StartsFrom;
    if i > 0 {
      StartsFromShift(rest, base + n, i - 1);
      StartsFromShift(rest, n, i - 1);
    }
  }

  /** The starts found by adding up line lengths are the true ones. */
  lemma {:induction false} StartsAreLineStarts(css: string)
    ensures LineStarts(css, StartsFrom(Split(css), 0))
    decreases |css|
  {
    var n, lines := LineEnd(css), Split(css);
    var r := StartsFrom(lines, 0);
    if n < |css| {
      var rest := css[n + 1..];
      var r' := StartsFrom(Split(rest), 0);
      StartsAreLineStarts(rest);
      assert lines[1..] == Split(rest);
      forall i | 0 <= i < |r'| ensures r[i + 1] == r'[i] + n + 1 {
        StartsFromShift(Split(rest), n + 1, i);
      }
      StartsAfterLine(css, n, r, r');
    } else {
      assert lines == [css] && r == [0];
    }
  }

  lemma StartsAfterLine(css: string, n: nat, r: seq<nat>, r': seq<nat>)
    requires n < |css| && css[n] == '\n' && forall k | 0 <= k < n :: css[k] != '\n'
    requires LineStarts(css[n + 1..], r') && |r| == |r'| + 1 && r[0] == 0
    requires forall i | 0 <= i < |r'| :: r[i + 1] == r'[i] + n + 1
    ensures LineStarts(css, r)
  {
    var rest := css[n + 1..];
    forall i, j | 0 <= i < j < |r| ensures r[i] < r[j] {
      assert r[j] == r'[j - 1] + n + 1;
      assert i > 0 ==> r[i] == r'[i - 1] + n + 1;
    }
    forall i | 0 < i < |r| ensures r[i] > n {
      assert r[i] == r'[i - 1] + n + 1;
    }
    forall p: nat ensures p in r <==> p == 0 || (p <= |css| && css[p - 1] == '\n') {
      if p > n {
        var q := p - n - 1;
        assert q in r' <==> q == 0 || (q <= |rest| && rest[q - 1] == '\n');
        if q in r' {
          var i :| 0 <= i < |r'| && r'[i] == q;
          assert r[i + 1] == p;
        }
        if p in r {
          var i :| 0 <= i < |r| && r[i] == p;
          assert r'[i - 1] == q;
        }
      }
    }
  }

  /** The walk stands on the line whose start is the last one not after it. */
  lemma {:induction false} WalkIsLine(css: string, r: seq<nat>, e: nat, s: nat)
    requires LineStarts(css, r) && s < |r| && r[s] <= e && (s + 1 < |r| ==> e < r[s + 1])
    ensures Walk(css, e) == Position(s + 1, e - r[s] + 1)
  {
    if e > 0 {
      if r[s] == e {
        assert e in r;
        assert s > 0;
        WalkIsLine(css, r, e - 1, s - 1);
      } else {
        if e - 1 < |css| && css[e - 1] == '\n' {
          assert e in r;
          var i :| 0 <= i < |r| && r[i] == e;
          assert i <= s || i >= s + 1;
        }
        WalkIsLine(css, r, e - 1, s);
      }
    }
  }

  class Input {
    const css: string
    var cache: Option<seq<nat>>

    ghost predicate Valid()
      reads this
    {
      cache.Some? ==> LineStarts(css, cache.value)
    }

    constructor (text: string)
      ensures Valid() && css == text
    {
      css, cache := text, None;
    }

    /** The line starts, worked out once. */
    method Starts() returns (r: seq<nat>)
      requires Valid()
      modifies this`cache
      ensures Valid() && cache == Some(r) && LineStarts(css, r)
    {
      if cache.Some? {
        return cache.value;
      }
      var lines := Split(css);
      r := [];
      var t: nat := 0;
      StartsAreLineStarts(css);
      hide LineStarts, Split;
      for s := 0 to |lines|
        invariant r + StartsFrom(lines[s..], t) == StartsFrom(lines, 0)
      {
        assert lines[s..][1..] == lines[s + 1..];
        assert r + ([t] + StartsFrom(lines[s + 1..], t + |lines[s]| + 1)) == r + [t] + StartsFrom(lines[s + 1..], t + |lines[s]| + 1);
        r, t := r + [t], t + |lines[s]| + 1;
      }
      assert lines[|lines|..] == [] && r + [] == r;
      cache := Some(r);
    }

    /** The line and column of an offset, the same as the walk finds, exactly when it is not negative. */
    method FromOffset(e: int) returns (p: Position)
      requires Valid()
      modifies this`cache
      ensures Valid()
      ensures p == Walk(css, if e < 0 then 0 else e) <==> e >= 0
      ensures e < 0 ==> p == Position(1, e + 1)
    {
      var r := Starts();
      var s := 0;
      if e >= r[|r| - 1] {
        s := |r| - 1;
      } else {
        var i := |r| - 2;
        while s < i
          invariant 0 <= s && i <= |r| - 2 && (e >= 0 ==> s <= i && r[s] <= e < r[i + 1]) && (e < 0 ==> s == 0)
        {
          var t := s + (i - s) / 2;
          if e < r[t] {
            i := t - 1;
          } else if e >= r[t + 1] {
            s := t + 1;
          } else {
            s := t;
            break;
          }
        }
      }
      if e >= 0 {
        WalkIsLine(css, r, e, s);
      }
      p := Position(s + 1, e - r[s] + 1);
    }
  }
}
