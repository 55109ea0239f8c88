/** The incremental row parser of a streamed response: rows are cut out of byte chunks. */
module FlightRows {
  import opened Bits

  datatype Row = Row(id: int, tag: nat, payload: seq<nat>)

  // ---------- 32-bit arithmetic ----------

  function Signed(x: nat): int {
    var y := x % 0x1_0000_0000;
    if y < 0x8000_0000 then y else y - 0x1_0000_0000
  }

  function Unsigned(x: int): nat {
    x % 0x1_0000_0000
  }

  /** `x << 4 | d` on 32-bit integers, d being the value given to a hexadecimal digit. */
  function ShiftIn(x: int, byte: nat): int {
    Signed(BitOr(Unsigned(16 * x), Unsigned(if 96 < byte then byte - 87 else byte - 48)))
  }

  // ---------- one byte at a time ----------

  /** The parser between two bytes. States: 0 id, 1 tag, 2 length, 3 payload up to a newline,
      4 payload of known length. */
  datatype Parser = Parser(state: nat, id: int, tag: nat, length: int, pending: seq<nat>, rows: seq<Row>)

  const START := Parser(0, 0, 0, 0, [], [])

  /** Tags of rows that carry a length: T A O o U S s L l G g M m V. */
  predicate SizedTag(b: nat) {
    b in {84, 65, 79, 111, 85, 83, 115, 76, 108, 71, 103, 77, 109, 86}
  }

  /** Tags of rows that end with a newline: other capitals, # r x. */
  predicate LineTag(b: nat) {
    !SizedTag(b) && (64 < b < 91 || b == 35 || b == 114 || b == 120)
  }

  function Emit(p: Parser): Parser {
    Parser(0, 0, 0, 0, [], p.rows + [Row(p.id, p.tag, p.pending)])
  }

  function StepId(p: Parser, b: nat): Parser {
    if b == 58 then p.(state := 1) else p.(id := ShiftIn(p.id, b))
  }

  function StepLine(p: Parser, b: nat): Parser {
    if b == 10 then Emit(p) else p.(pending := p.pending + [b])
  }

  function StepSized(p: Parser, b: nat): Parser {
    if p.length == 0 then StepId(Emit(p), b)
    else
      var q := p.(pending := p.pending + [b], length := p.length - 1);
      if q.length == 0 then Emit(q) else q
  }

  function Step(p: Parser, b: nat): Parser {
    if p.state == 0 then StepId(p, b)
    else if p.state == 1 then
      if SizedTag(b) then p.(state := 2, tag := b)
      else if LineTag(b) then p.(state := 3, tag := b)
      else StepLine(p.(state := 3, tag := 0), b)
    else if p.state == 2 then
      if b == 44 then p.(state := 4) else p.(length := ShiftIn(p.length, b))
    else if p.state == 3 then StepLine(p, b)
    else StepSized(p, b)
  }

  function Steps(p: Parser, bytes: seq<nat>): Parser {
    if bytes == [] then p else Step(Steps(p, bytes[..|bytes| - 1]), bytes[|bytes| - 1])
  }

  lemma {:induction false} StepsConcat(p: Parser, a: seq<nat>, b: seq<nat>)
    ensures Steps(Steps(p, a), b) == Steps(p, a + b)
  {
    if b == [] {
      assert a + b == a;
    } else {
      assert (a + b)[..|a + b| - 1] == a + b[..|b| - 1];
      StepsConcat(p, a, b[..|b| - 1]);
    }
  }

  // ---------- one chunk ----------

  /** Either the stream goes on, or an impossible slice was asked for and reading stops. */
  datatype Outcome = Open(parser: Parser) | Failed(rows: seq<Row>)

  /** A length below zero, from a wrap-around or a character that is no digit, points back into the chunk. */
  predicate Overruns(p: Parser, a: nat) {
    p.state == 4 && p.length < 0 && a + p.length >= 0
  }

  /** What a chunk does from its position a on, byte by byte. */
  function FeedFrom(p: Parser, chunk: seq<nat>, a: nat): Outcome
    requires a <= |chunk|
    decreases |chunk| - a
  {
    if a == |chunk| then Open(p)
    else if Overruns(p, a) then Failed(p.rows)
    else FeedFrom(Step(p, chunk[a]), chunk, a + 1)
  }

  /** Payload bytes before the newline are only collected. */
  lemma {:induction false} LineBytes(p: Parser, chunk: seq<nat>, a: nat, y: nat)
    requires a <= y <= |chunk| && p.state == 3 && forall i :: a <= i < y ==> chunk[i] != 10
    ensures FeedFrom(p, chunk, a) == FeedFrom(p.(pending := p.pending + chunk[a..y]), chunk, y)
    decreases y - a
  {
    if a == y {
      assert p.pending + chunk[a..y] == p.pending;
    } else {
      LineBytes(Step(p, chunk[a]), chunk, a + 1, y);
      assert p.pending + [chunk[a]] + chunk[a + 1..y] == p.pending + chunk[a..y];
    }
  }

  /** Payload bytes of known length are only collected until the last one. */
  lemma {:induction false} SizedBytes(p: Parser, chunk: seq<nat>, a: nat, y: nat)
    requires a <= y <= |chunk| && p.state == 4
    requires p.length > y - a || (p.length < 0 && a + p.length < 0)
    ensures FeedFrom(p, chunk, a)
         == FeedFrom(p.(pending := p.pending + chunk[a..y], length := p.length - (y - a)), chunk, y)
    decreases y - a
  {
    if a == y {
      assert p.pending + chunk[a..y] == p.pending;
    } else {
      SizedBytes(Step(p, chunk[a]), chunk, a + 1, y);
      assert p.pending + [chunk[a]] + chunk[a + 1..y] == p.pending + chunk[a..y];
    }
  }

  /** A row of known length that ends inside the chunk. */
  lemma SizedRow(p: Parser, chunk: seq<nat>, a: nat)
    requires p.state == 4 && 0 <= p.length && a < |chunk| && a + p.length <= |chunk|
    ensures FeedFrom(p, chunk, a) == FeedFrom(Emit(p.(pending := p.pending + chunk[a..a + p.length])), chunk, a + p.length)
  {
    var y := a + p.length;
    if p.length == 0 {
      assert p.pending + chunk[a..y] == p.pending;
    } else {
      SizedBytes(p, chunk, a, y - 1);
      assert p.pending + chunk[a..y - 1] + [chunk[y - 1]] == p.pending + chunk[a..y];
    }
  }

  // ---------- the reader ----------

  function Flatten(pieces: seq<seq<nat>>): seq<nat> {
    if pieces == [] then [] else Flatten(pieces[..|pieces| - 1]) + pieces[|pieces| - 1]
  }

  function Total(pieces: seq<seq<nat>>): nat {
    if pieces == [] then 0 else Total(pieces[..|pieces| - 1]) + |pieces[|pieces| - 1]|
  }

  lemma {:induction false} FlattenLength(pieces: seq<seq<nat>>)
    ensures |Flatten(pieces)| == Total(pieces)
  {
    if pieces != [] {
      FlattenLength(pieces[..|pieces| - 1]);
    }
  }

  /** Join buffered pieces and a last one into a single array. */
  method Join(e: seq<seq<nat>>, t: seq<nat>) returns (n: array<nat>)
    ensures fresh(n) && n[..] == Flatten(e) + t
  {
    var size := |t|;
    assert e[..0] == [];
    for o := 0 to |e|
      invariant size == |t| + Total(e[..o])
    {
      assert e[..o + 1][..o] == e[..o];
      size := size + |e[o]|;
    }
    assert e[..|e|] == e;
    FlattenLength(e);
    n := new nat[size];
    var o := 0;
    for u := 0 to |e|
      invariant o == Total(e[..u]) && n.Length == size == Total(e) + |t| && o + |t| <= size
      invariant n[..o] == Flatten(e[..u])
    {
      assert e[..u + 1][..u] == e[..u];
      TotalGrows(e, u + 1);
      ghost var before := n[..o];
      forall k | 0 <= k < |e[u]| {
        n[o + k] := e[u][k];
      }
      o := o + |e[u]|;
      assert n[..o] == before + e[u];
    }
    ghost var before := n[..o];
    forall k | 0 <= k < |t| {
      n[o + k] := t[k];
    }
    assert n[..] == before + t;
  }

  lemma {:induction false} TotalGrows(e: seq<seq<nat>>, u: nat)
    requires u <= |e|
    ensures Total(e[..u]) <= Total(e)
    decreases |e|
  {
    if u == |e| {
      assert e[..u] == e;
    } else {
      assert e[..|e| - 1][..u] == e[..u];
      TotalGrows(e[..|e| - 1], u);
    }
  }

  /** The first position of a byte from a on, or -1. */
  method IndexOf(l: seq<nat>, b: nat, a: nat) returns (y: int)
    requires a <= |l|
    ensures y == -1 ==> forall i :: a <= i < |l| ==> l[i] != b
    ensures y != -1 ==> a <= y < |l| && l[y] == b && forall i :: a <= i < y ==> l[i] != b
  {
    for i := a to |l|
      invariant forall k :: a <= k < i ==> l[k] != b
    {
      if l[i] == b {
        return i;
      }
    }
    y := -1;
  }

  class Reader {
    var rowState: nat
    var rowID: int
    var rowTag: nat
    var rowLength: int
    var buffer: seq<seq<nat>>
    var rows: seq<Row>
    var failed: bool

    /** The reader as the byte-wise parser: buffered pieces joined, a length only where it matters. */
    ghost function View(): Parser
      reads this
    {
      Parser(rowState, rowID, rowTag, if rowState in {2, 4} then rowLength else 0, Flatten(buffer), rows)
    }

    ghost predicate Valid()
      reads this
    {
      && rowState <= 4
      && (rowState <= 1 ==> rowLength == 0)
      && (rowState <= 2 ==> buffer == [])
    }

    constructor ()
      ensures Valid() && View() == START && !failed
    {
      rowState, rowID, rowTag, rowLength := 0, 0, 0, 0;
      buffer, rows, failed := [], [], false;
    }

    /** Hand over one chunk. */
    method Feed(l: seq<nat>)
      requires Valid() && !failed
      modifies this
      ensures failed == FeedFrom(old(View()), l, 0).Failed?
      ensures !failed ==> Valid() && FeedFrom(old(View()), l, 0) == Open(View())
      ensures failed ==> FeedFrom(old(View()), l, 0) == Failed(rows)
    {
      ghost var goal := FeedFrom(View(), l, 0);
      var a := 0;
      while a < |l| && !failed
        invariant 0 <= a <= |l|
        invariant !failed ==> Valid() && FeedFrom(View(), l, a) == goal
        invariant failed ==> goal == Failed(rows)
        decreases |l| - a, if failed then 0 else 1, if rowState == 1 then 1 else if rowState == 4 then 1 else 0
      {
        if rowState <= 2 {
          a := Header(l, a);
        } else {
          a := Payload(l, a);
        }
      }
    }

    /** States 0 to 2: id, tag and length. Only an untagged row consumes nothing. */
    method Header(l: seq<nat>, a: nat) returns (a': nat)
      requires Valid() && !failed && rowState <= 2 && a < |l|
      modifies this
      ensures Valid() && !failed && a <= a' <= |l|
      ensures FeedFrom(View(), l, a') == FeedFrom(old(View()), l, a)
      ensures a' == a ==> old(rowState) == 1 && rowState == 3
    {
      var y := l[a];
      a' := a + 1;
      if rowState == 0 {
        if y == 58 {
          rowState := 1;
        } else {
          rowID := ShiftIn(rowID, y);
        }
      } else if rowState == 1 {
        if SizedTag(y) {
          rowTag, rowState := y, 2;
        } else if LineTag(y) {
          rowTag, rowState := y, 3;
        } else {
          rowTag, rowState := 0, 3;
          a' := a;
        }
      } else {
        if y == 44 {
          rowState := 4;
        } else {
          rowLength := ShiftIn(rowLength, y);
        }
      }
    }

    /** States 3 and 4: the payload ends in this chunk, or the rest of it is buffered. */
    method Payload(l: seq<nat>, a: nat) returns (a': nat)
      requires Valid() && !failed && rowState >= 3 && a < |l|
      modifies this
      ensures a <= a' <= |l|
      ensures !failed ==> Valid() && FeedFrom(View(), l, a') == FeedFrom(old(View()), l, a)
      ensures failed ==> FeedFrom(old(View()), l, a) == Failed(rows)
      ensures a' == a ==> failed || (old(rowState) == 4 && rowState == 0)
    {
      var y: int;
      if rowState == 3 {
        y := IndexOf(l, 10, a);
      } else {
        y := a + rowLength;
        if y > |l| {
          y := -1;
        }
      }
      ghost var p := View();
      if y < 0 {
        if rowState == 3 {
          LineBytes(p, l, a, |l|);
        } else {
          SizedBytes(p, l, a, |l|);
        }
        var piece := l[a..];
        assert (buffer + [piece])[..|buffer|] == buffer;
        buffer := buffer + [piece];
        rowLength := rowLength - |piece|;
        a' := |l|;
      } else if y < a {
        failed := true;
        a' := a;
      } else {
        if rowState == 3 {
          LineBytes(p, l, a, y);
        } else {
          SizedRow(p, l, a);
        }
        var payload := Join(buffer, l[a..y]);
        rows := rows + [Row(rowID, rowTag, payload[..])];
        a' := if rowState == 3 then y + 1 else y;
        rowState, rowID, rowTag, rowLength, buffer := 0, 0, 0, 0, [];
      }
    }
  }
}
