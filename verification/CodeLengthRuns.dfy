/** Run-length coding of a table of code lengths (section 3.2.7 of RFC 1951). */
module CodeLengthRuns {
  import opened Bits
  import opened Options

  // ---------- packed run symbols ----------

  /** The code-length symbol 0 to 18, its extra value, and the width of that value. */
  function Symbol(m: nat): nat {
    BitAnd(31, m)
  }

  function Extra(m: nat): nat {
    BitAnd(Shr(m, 5), 127)
  }

  function ExtraWidth(m: nat): nat {
    Shr(m, 12)
  }

  lemma OrHalves(x: nat, y: nat, b: nat)
    ensures BitOr(2 * x, 2 * y + b) == 2 * BitOr(x, y + b / 2) + b % 2
  {
    if x == 0 && y == 0 && b == 0 {
    } else if x == 0 && y + b / 2 == 0 {
      assert BitOr(x, y + b / 2) == 0;
    }
  }

  lemma DoublePow2(k: nat)
    requires k > 0
    ensures Pow2(k) == 2 * Pow2(k - 1)
  {
  }

  lemma {:induction false} OrAbove(a: nat, c: nat, k: nat, b: nat)
    requires b < Pow2(k)
    ensures BitOr(a * Pow2(k), c * Pow2(k) + b) == BitOr(a, c) * Pow2(k) + b
  {
    hide BitOr;
    if k == 0 {
      assert a * Pow2(0) == a && c * Pow2(0) + b == c;
    } else {
      var p := Pow2(k - 1);
      DoublePow2(k);
      OrAbove(a, c, k - 1, b / 2);
      OrHalves(a * p, c * p, b);
      DoubleFactor(a, p);
      DoubleFactor(c, p);
      DoubleFactor(BitOr(a, c), p);
    }
  }

  lemma DoubleFactor(a: nat, p: nat)
    ensures a * (2 * p) == 2 * (a * p)
  {
  }

  /** An extra value ORed between a symbol and a width comes apart again. */
  lemma PackedFields(extra: nat, width: nat, symbol: nat)
    requires extra < 128 && symbol < 32
    ensures var m := BitOr(Shl(extra, 5), width * 4096 + symbol);
            m == width * 4096 + extra * 32 + symbol && Symbol(m) == symbol && Extra(m) == extra && ExtraWidth(m) == width
  {
    hide Symbol, Extra, ExtraWidth;
    JoinFields(extra, width, symbol);
    SplitFields(extra, width, symbol);
  }

  lemma FieldPowers()
    ensures Pow2(5) == 32 && Pow2(7) == 128 && Pow2(12) == 4096
  {
    assert Pow2(5) == 32 && Pow2(7) == 128;
    Pow2Add(5, 7);
  }

  lemma JoinFields(extra: nat, width: nat, symbol: nat)
    requires extra < 128 && symbol < 32
    ensures BitOr(Shl(extra, 5), width * 4096 + symbol) == width * 4096 + extra * 32 + symbol
  {
    FieldPowers();
    hide BitOr, Pow2;
    OrAbove(extra, width * 128, 5, symbol);
    OrDisjoint(width, 7, extra);
  }

  lemma SplitFields(extra: nat, width: nat, symbol: nat)
    requires extra < 128 && symbol < 32
    ensures var m := width * 4096 + extra * 32 + symbol;
            Symbol(m) == symbol && Extra(m) == extra && ExtraWidth(m) == width
  {
    FieldPowers();
    hide BitAnd, Pow2;
    var m := width * 4096 + extra * 32 + symbol;
    DivModUnique(m, 32, width * 128 + extra, symbol);
    DivModUnique(width * 128 + extra, 128, width, extra);
    DivModUnique(m, 4096, width, extra * 32 + symbol);
    AndMaskFirst(m, 5);
    AndMask(Shr(m, 5), 7);
  }

  lemma PlainFields(len: nat)
    requires len < 16
    ensures Symbol(len) == len && Extra(len) == 0 && ExtraWidth(len) == 0
  {
    PackedFields(0, 0, len);
    OrZero(len);
  }

  // ---------- the decoder's view ----------

  function Repeat(x: nat, n: nat): (r: seq<nat>)
    ensures |r| == n
  {
    seq(n, _ => x)
  }

  /** What one symbol with its extra value adds to the lengths decoded so far. */
  function Decode(out: seq<nat>, symbol: nat, extra: nat): Option<seq<nat>> {
    if symbol < 16 then Some(out + [symbol])
    else if symbol == 16 then
      if out == [] then None else Some(out + Repeat(out[|out| - 1], 3 + extra))
    else if symbol == 17 then Some(out + Repeat(0, 3 + extra))
    else if symbol == 18 then Some(out + Repeat(0, 11 + extra))
    else None
  }

  function Expand(runs: seq<nat>): Option<seq<nat>> {
    if runs == [] then Some([])
    else
      var m := runs[|runs| - 1];
      match Expand(runs[..|runs| - 1])
      case None => None
      case Some(out) => Decode(out, Symbol(m), Extra(m))
  }

  /** Extra bits as the format defines them: 2 for symbol 16, 3 for 17, 7 for 18, else none. */
  function WidthOf(symbol: nat): nat {
    if symbol == 16 then 2 else if symbol == 17 then 3 else if symbol == 18 then 7 else 0
  }

  predicate ProperRun(m: nat) {
    Symbol(m) <= 18 && ExtraWidth(m) == WidthOf(Symbol(m)) && Extra(m) < Pow2(WidthOf(Symbol(m)))
  }

  /** The table without trailing zeros, but never empty. */
  function Trim(e: seq<nat>): seq<nat> {
    if |e| == 0 then [0]
    else if |e| == 1 || e[|e| - 1] != 0 then e
    else Trim(e[..|e| - 1])
  }

  // ---------- emitting one run ----------

  /** The packed symbols expand to out, each is proper, and there are no more of them than lengths. */
  ghost predicate Written(runs: seq<nat>, out: seq<nat>) {
    && |runs| <= |out| && Expand(runs) == Some(out)
    && forall k :: 0 <= k < |runs| ==> ProperRun(runs[k])
  }

  ghost predicate Progress(n: array<nat>, r: nat, out: seq<nat>)
    reads n
  {
    r <= |out| <= n.Length && Written(n[..r], out)
  }

  lemma WriteOne(runs: seq<nat>, out: seq<nat>, m: nat, more: seq<nat>)
    requires Written(runs, out) && ProperRun(m) && more != []
    requires Decode(out, Symbol(m), Extra(m)) == Some(out + more)
    ensures Written(runs + [m], out + more)
  {
    assert (runs + [m])[..|runs|] == runs;
  }

  /** The packed forms the encoder uses, with the run each stands for. */
  lemma RunForms(o: nat)
    ensures ProperRun(32754) && Symbol(32754) == 18 && Extra(32754) == 127
    ensures ProperRun(8304) && Symbol(8304) == 16 && Extra(8304) == 3
    ensures 3 <= o <= 10 ==> var m := BitOr(Shl(o - 3, 5), 12305); ProperRun(m) && Symbol(m) == 17 && Extra(m) == o - 3
    ensures 3 <= o <= 6 ==> var m := BitOr(Shl(o - 3, 5), 8208); ProperRun(m) && Symbol(m) == 16 && Extra(m) == o - 3
    ensures 11 <= o <= 138 ==> var m := BitOr(Shl(o - 11, 5), 28690); ProperRun(m) && Symbol(m) == 18 && Extra(m) == o - 11
  {
    assert Pow2(2) == 4 && Pow2(3) == 8 && Pow2(7) == 128;
    PackedFields(127, 7, 18);
    PackedFields(3, 2, 16);
    if 3 <= o <= 10 {
      PackedFields(o - 3, 3, 17);
      PackedFields(o - 3, 2, 16);
    }
    if 11 <= o <= 138 {
      PackedFields(o - 11, 7, 18);
    }
  }

  /** Append one packed symbol to the output. */
  method Put(n: array<nat>, r: nat, m: nat, ghost out: seq<nat>, ghost more: seq<nat>) returns (r': nat)
    requires Progress(n, r, out) && more != [] && |out| + |more| <= n.Length
    requires ProperRun(m) && Decode(out, Symbol(m), Extra(m)) == Some(out + more)
    modifies n
    ensures Progress(n, r', out + more)
  {
    WriteOne(n[..r], out, m, more);
    ghost var was := n[..r];
    n[r] := m;
    r' := r + 1;
    assert n[..r'] == was + [m];
  }

  lemma RunGrows(out: seq<nat>, x: nat, a: nat, b: nat)
    ensures (out + Repeat(x, a)) + Repeat(x, b) == out + Repeat(x, a + b)
    ensures out + Repeat(x, 0) == out
  {
  }

  /** Write the value o times on its own. */
  method PutEach(n: array<nat>, r: nat, i: nat, o: nat, ghost out: seq<nat>) returns (r': nat)
    requires i < 16 && Progress(n, r, out) && |out| + o <= n.Length
    modifies n
    ensures Progress(n, r', out + Repeat(i, o))
  {
    r' := r;
    RunGrows(out, i, 0, 0);
    PlainFields(i);
    for k := 0 to o
      invariant Progress(n, r', out + Repeat(i, k))
    {
      RunGrows(out, i, k, 1);
      assert Repeat(i, 1) == [i];
      r' := Put(n, r', i, out + Repeat(i, k), [i]);
    }
  }

  /** Write a run of o zeros: 138 at a time, then one symbol for 3 or more, then one by one. */
  method PutZeros(n: array<nat>, r: nat, o: nat, ghost out: seq<nat>) returns (r': nat)
    requires o > 2 && Progress(n, r, out) && |out| + o <= n.Length
    modifies n
    ensures Progress(n, r', out + Repeat(0, o))
  {
    r' := r;
    var left := o;
    RunGrows(out, 0, 0, 0);
    while left > 138
      invariant left <= o && Progress(n, r', out + Repeat(0, o - left))
    {
      RunForms(0);
      RunGrows(out, 0, o - left, 138);
      r' := Put(n, r', 32754, out + Repeat(0, o - left), Repeat(0, 138));
      left := left - 138;
    }
    RunGrows(out, 0, o - left, left);
    r' := PutFewZeros(n, r', left, out + Repeat(0, o - left));
  }

  /** At most 138 zeros: one symbol for three or more of them. */
  method PutFewZeros(n: array<nat>, r: nat, o: nat, ghost out: seq<nat>) returns (r': nat)
    requires o <= 138 && Progress(n, r, out) && |out| + o <= n.Length
    modifies n
    ensures Progress(n, r', out + Repeat(0, o))
  {
    if o > 2 {
      RunForms(o);
      r' := Put(n, r, if o > 10 then BitOr(Shl(o - 11, 5), 28690) else BitOr(Shl(o - 3, 5), 12305), out, Repeat(0, o));
    } else {
      r' := PutEach(n, r, 0, o, out);
    }
  }

  lemma RepeatsLast(out: seq<nat>, i: nat, done: nat, count: nat, m: nat)
    requires done > 0 && count >= 3 && Symbol(m) == 16 && Extra(m) == count - 3
    ensures Decode(out + Repeat(i, done), Symbol(m), Extra(m)) == Some((out + Repeat(i, done)) + Repeat(i, count))
  {
    var sofar := out + Repeat(i, done);
    assert sofar[|sofar| - 1] == i;
  }

  /** Write a run of more than three equal lengths: the first one, then repeats of it. */
  method PutRepeats(n: array<nat>, r: nat, i: nat, o: nat, ghost out: seq<nat>) returns (r': nat)
    requires i < 16 && o > 3 && Progress(n, r, out) && |out| + o <= n.Length
    modifies n
    ensures Progress(n, r', out + Repeat(i, o))
  {
    hide Decode, ProperRun, Symbol, Extra, Written, Repeat, Progress, BitOr, Shl;
    r' := PutEach(n, r, i, 1, out);
    var left := o - 1;
    while left > 6
      invariant left < o && Progress(n, r', out + Repeat(i, o - left))
    {
      RunForms(0);
      RunGrows(out, i, o - left, 6);
      RepeatsLast(out, i, o - left, 6, 8304);
      r' := Put(n, r', 8304, out + Repeat(i, o - left), Repeat(i, 6));
      left := left - 6;
    }
    if left > 2 {
      var m := BitOr(Shl(left - 3, 5), 8208);
      RunForms(left);
      RunGrows(out, i, o - left, left);
      RepeatsLast(out, i, o - left, left, m);
      r' := Put(n, r', m, out + Repeat(i, o - left), Repeat(i, left));
      left := 0;
    }
    RunGrows(out, i, o - left, left);
    r' := PutEach(n, r', i, left, out + Repeat(i, o - left));
  }

  method PutRun(n: array<nat>, r: nat, i: nat, o: nat, ghost out: seq<nat>) returns (r': nat)
    requires i < 16 && Progress(n, r, out) && |out| + o <= n.Length
    modifies n
    ensures Progress(n, r', out + Repeat(i, o))
  {
    if i == 0 && o > 2 {
      r' := PutZeros(n, r, o, out);
    } else if o > 3 {
      r' := PutRepeats(n, r, i, o, out);
    } else {
      r' := PutEach(n, r, i, o, out);
    }
  }

  // ---------- the whole table ----------

  /** Count down over trailing zeros; at least one entry stays. */
  method TrimmedLength(e: seq<nat>) returns (t: nat)
    ensures t == |Trim(e)|
  {
    t := |e|;
    assert e[..t] == e;
    while t != 0
      invariant t <= |e| && (t > 0 ==> Trim(e[..t]) == Trim(e)) && (t == 0 ==> |Trim(e)| == 1)
    {
      t := t - 1;
      assert e[..t + 1][..t] == e[..t];
      if e[t] != 0 {
        break;
      }
    }
    t := t + 1;
  }

  lemma {:induction false} TrimFacts(e: seq<nat>)
    ensures |Trim(e)| >= 1 && (|e| == 0 ==> |Trim(e)| == 1)
    ensures |e| > 0 ==> |Trim(e)| <= |e| && Trim(e) == e[..|Trim(e)|]
    ensures forall k :: |Trim(e)| <= k < |e| ==> e[k] == 0
  {
    if |e| > 1 && e[|e| - 1] == 0 {
      var shorter := e[..|e| - 1];
      TrimFacts(shorter);
      forall k | |Trim(e)| <= k < |e| ensures e[k] == 0 {
        if k < |e| - 1 {
          assert shorter[k] == 0;
        }
      }
    }
  }

  /** The pending run: o copies of i ending just before u. */
  ghost predicate Pending(table: seq<nat>, u: nat, o: nat, i: nat) {
    && 1 <= o <= u <= |table| && i < 16
    && forall k :: u - o <= k < u ==> table[k] == i
  }

  lemma PendingRun(table: seq<nat>, u: nat, o: nat, i: nat)
    requires Pending(table, u, o, i)
    ensures table[..u - o] + Repeat(i, o) == table[..u]
  {
  }

  lemma RunsBegin(n: array<nat>, e: seq<nat>, table: seq<nat>)
    requires table == Trim(e) && n.Length == |table| && forall k :: 0 <= k < |e| ==> e[k] < 16
    ensures |table| >= 1 && Progress(n, 0, table[..0])
    ensures Pending(table, 1, 1, if |e| == 0 then 0 else e[0])
  {
    TrimFacts(e);
  }

  lemma PendingMore(table: seq<nat>, u: nat, o: nat, i: nat)
    requires Pending(table, u, o, i) && u < |table| && table[u] < 16
    ensures 1 <= o <= u && i < 16 && u <= |table|
    ensures table[u] == i ==> Pending(table, u + 1, o + 1, i)
    ensures Pending(table, u + 1, 1, table[u])
  {
  }

  lemma PendingBounds(table: seq<nat>, u: nat, o: nat, i: nat)
    requires Pending(table, u, o, i)
    ensures 1 <= o <= u <= |table| && i < 16
  {
  }

  lemma RunsEnd(n: array<nat>, r: nat, table: seq<nat>)
    requires Progress(n, r, table)
    ensures r <= n.Length && Written(n[..r], table)
  {
  }

  /** Run-length code a table of lengths after dropping its trailing zeros. */
  method EncodeRuns(e: seq<nat>) returns (runs: seq<nat>, t: nat)
    requires forall k :: 0 <= k < |e| ==> e[k] < 16
    ensures t == |Trim(e)| && Written(runs, Trim(e))
  {
    hide Written, Progress, Pending, Trim, Repeat;
    t := TrimmedLength(e);
    ghost var table := Trim(e);
    TrimFacts(e);
    var n := new nat[t];
    RunsBegin(n, e, table);
    var r: nat, o: nat, u: nat := 0, 1, 1;
    var i := if |e| == 0 then 0 else e[0];
    while u < t
      invariant o <= u <= t && Pending(table, u, o, i) && Progress(n, r, table[..u - o])
    {
      assert table[u] == e[u];
      PendingMore(table, u, o, i);
      if e[u] == i {
        o := o + 1;
      } else {
        PendingRun(table, u, o, i);
        r := PutRun(n, r, i, o, table[..u - o]);
        o, i := 1, e[u];
      }
      u := u + 1;
    }
    // The last round, u == t, always closes the pending run.
    PendingBounds(table, u, o, i);
    PendingRun(table, u, o, i);
    r := PutRun(n, r, i, o, table[..u - o]);
    assert table[..t] == table;
    RunsEnd(n, r, table);
    runs := n[..r];
  }
}
