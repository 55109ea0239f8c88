/** Writing rows as a stream, and reading them back through any cutting into chunks. */
module FlightEncoding {
  import opened Bits
  import opened FlightRows
  import opened FlightChunks

  // ---------- hexadecimal numbers ----------

  function Digit(d: nat): nat
    requires d < 16
  {
    if d < 10 then 48 + d else 87 + d
  }

  function Hex(n: nat): seq<nat> {
    if n < 16 then [Digit(n)] else Hex(n / 16) + [Digit(n % 16)]
  }

  /** Shifting in a digit multiplies by sixteen and adds it, as long as 31 bits suffice. */
  lemma ShiftInDigit(x: nat, d: nat)
    requires d < 16 && 16 * x + d < 0x8000_0000
    ensures ShiftIn(x, Digit(d)) == 16 * x + d
  {
    var b := Digit(d);
    assert (if 96 < b then b - 87 else b - 48) == d;
    OrDigit(x, d);
    hide BitOr, Unsigned, Signed, Digit;
    SmallUnsigned(16 * x);
    SmallUnsigned(d);
    SmallUnsigned(16 * x + d);
  }

  lemma OrDigit(x: nat, d: nat)
    requires d < 16
    ensures BitOr(16 * x, d) == 16 * x + d
  {
    assert Pow2(4) == 16;
    hide BitOr;
    OrDisjoint(x, 4, d);
  }

  lemma SmallUnsigned(x: nat)
    requires x < 0x8000_0000
    ensures Unsigned(x) == x && Signed(x) == x
  {
    DivModUnique(x, 0x1_0000_0000, 0, x);
  }

  /** No prefix of these bytes takes the length below zero. */
  ghost predicate Steady(p: Parser, bytes: seq<nat>) {
    forall k :: 0 <= k <= |bytes| ==> Steps(p, bytes[..k]).length >= 0
  }

  lemma SteadyConcat(p: Parser, a: seq<nat>, b: seq<nat>)
    requires Steady(p, a) && Steady(Steps(p, a), b)
    ensures Steady(p, a + b)
  {
    forall k | 0 <= k <= |a + b| ensures Steps(p, (a + b)[..k]).length >= 0 {
      if k <= |a| {
        assert (a + b)[..k] == a[..k];
      } else {
        assert (a + b)[..k] == a + b[..k - |a|];
        StepsConcat(p, a, b[..k - |a|]);
      }
    }
  }

  lemma SteadyOne(p: Parser, b: nat)
    requires p.length >= 0 && Step(p, b).length >= 0
    ensures Steady(p, [b]) && Steps(p, [b]) == Step(p, b)
  {
    assert [b][..1] == [b] && [b][..0] == [];
  }

  lemma SteadyNothing(p: Parser)
    requires p.length >= 0
    ensures Steady(p, []) && Steps(p, []) == p
  {
  }

  /** An id is read back. */
  lemma {:induction false} IdSteps(p: Parser, n: nat)
    requires p.state == 0 && p.id == 0 && p.length == 0 && n < 0x8000_0000
    ensures Steps(p, Hex(n)) == p.(id := n) && Steady(p, Hex(n))
  {
    if n < 16 {
      ShiftInDigit(0, n);
      SteadyOne(p, Digit(n));
    } else {
      IdSteps(p, n / 16);
      var q := p.(id := n / 16);
      ShiftInDigit(n / 16, n % 16);
      SteadyOne(q, Digit(n % 16));
      StepsConcat(p, Hex(n / 16), [Digit(n % 16)]);
      SteadyConcat(p, Hex(n / 16), [Digit(n % 16)]);
    }
  }

  /** So is a length. */
  lemma {:induction false} LengthSteps(p: Parser, n: nat)
    requires p.state == 2 && p.length == 0 && n < 0x8000_0000
    ensures Steps(p, Hex(n)) == p.(length := n) && Steady(p, Hex(n))
  {
    if n < 16 {
      ShiftInDigit(0, n);
      SteadyOne(p, Digit(n));
    } else {
      LengthSteps(p, n / 16);
      var q := p.(length := n / 16);
      ShiftInDigit(n / 16, n % 16);
      SteadyOne(q, Digit(n % 16));
      StepsConcat(p, Hex(n / 16), [Digit(n % 16)]);
      SteadyConcat(p, Hex(n / 16), [Digit(n % 16)]);
    }
  }

  // ---------- frames ----------

  /** The three ways a row is written. */
  datatype Frame =
    | Sized(id: nat, tag: nat, payload: seq<nat>)
    | Line(id: nat, tag: nat, payload: seq<nat>)
    | Plain(id: nat, payload: seq<nat>)

  /** The tags of rows that carry a length, and those beside the other capitals of rows that end with a newline. */
  const SIZED_TAGS: string := "TAOoUSsLlGgMmV"
  const LINE_TAGS: string := "#rx"

  predicate Among(b: nat, letters: string) {
    exists i | 0 <= i < |letters| :: letters[i] as nat == b
  }

  predicate Capital(b: nat) {
    'A' as nat <= b <= 'Z' as nat
  }

  predicate SizedLetter(b: nat) {
    Among(b, SIZED_TAGS)
  }

  predicate LineLetter(b: nat) {
    (Capital(b) && !Among(b, SIZED_TAGS)) || Among(b, LINE_TAGS)
  }

  /** The parser takes exactly those for tags. */
  lemma TagsAreLetters(b: nat)
    ensures SizedTag(b) <==> SizedLetter(b)
    ensures LineTag(b) <==> LineLetter(b)
  {
    SizedLetters(b);
    assert Among(b, LINE_TAGS) <==> b == 35 || b == 114 || b == 120 by {
      assert LINE_TAGS[0] as nat == 35 && LINE_TAGS[1] as nat == 114 && LINE_TAGS[2] as nat == 120;
    }
  }

  lemma SizedLetters(b: nat)
    ensures SizedTag(b) <==> Among(b, SIZED_TAGS)
  {
    var s := SIZED_TAGS;
    assert s[0] as nat == 84 && s[1] as nat == 65 && s[2] as nat == 79 && s[3] as nat == 111 && s[4] as nat == 85;
    assert s[5] as nat == 83 && s[6] as nat == 115 && s[7] as nat == 76 && s[8] as nat == 108 && s[9] as nat == 71;
    assert s[10] as nat == 103 && s[11] as nat == 77 && s[12] as nat == 109 && s[13] as nat == 86;
  }

  /** What a writer has to respect for the row to be readable. */
  predicate Writable(f: Frame) {
    && f.id < 0x8000_0000
    && match f
       case Sized(_, tag, payload) => SizedLetter(tag) && |payload| < 0x8000_0000
       case Line(_, tag, payload) => LineLetter(tag) && 10 !in payload
       case Plain(_, payload) => 10 !in payload && (payload != [] ==> !SizedLetter(payload[0]) && !LineLetter(payload[0]))
  }

  function Encode(f: Frame): seq<nat> {
    match f
    case Sized(id, tag, payload) => Hex(id) + ([58] + ([tag] + (Hex(|payload|) + ([44] + payload))))
    case Line(id, tag, payload) => Hex(id) + ([58] + ([tag] + (payload + [10])))
    case Plain(id, payload) => Hex(id) + ([58] + (payload + [10]))
  }

  function RowOf(f: Frame): Row {
    Row(f.id, if f.Plain? then 0 else f.tag, f.payload)
  }

  /** The parser between two rows. */
  function Between(rows: seq<Row>): Parser {
    Parser(0, 0, 0, 0, [], rows)
  }

  lemma Chain(p: Parser, a: seq<nat>, b: seq<nat>, q: Parser, r: Parser)
    requires Steady(p, a) && Steps(p, a) == q && Steady(q, b) && Steps(q, b) == r
    ensures Steady(p, a + b) && Steps(p, a + b) == r
  {
    StepsConcat(p, a, b);
    SteadyConcat(p, a, b);
  }

  lemma {:induction false} LinePayload(p: Parser, payload: seq<nat>)
    requires p.state == 3 && p.length == 0 && 10 !in payload
    ensures Steady(p, payload) && Steps(p, payload) == p.(pending := p.pending + payload)
  {
    if payload == [] {
      SteadyNothing(p);
      assert p.pending + payload == p.pending;
    } else {
      var n := |payload| - 1;
      var before, b := payload[..n], payload[n];
      LinePayload(p, before);
      var q := p.(pending := p.pending + before);
      assert b in payload;
      SteadyOne(q, b);
      assert q.pending + [b] == p.pending + payload;
      assert before + [b] == payload;
      Chain(p, before, [b], q, Step(q, b));
    }
  }

  /** The rest of a line row, from the payload on. */
  lemma LineRest(p: Parser, payload: seq<nat>)
    requires p.state == 3 && p.length == 0 && p.pending == [] && 10 !in payload
    ensures Steady(p, payload + [10]) && Steps(p, payload + [10]) == Emit(p.(pending := payload))
  {
    LinePayload(p, payload);
    var q := p.(pending := payload);
    assert [] + payload == payload;
    SteadyOne(q, 10);
    Chain(p, payload, [10], q, Emit(q));
  }

  lemma {:induction false} SizedPart(p: Parser, payload: seq<nat>, k: nat)
    requires p.state == 4 && p.length == |payload| && k < |payload|
    ensures Steady(p, payload[..k])
    ensures Steps(p, payload[..k]) == p.(pending := p.pending + payload[..k], length := |payload| - k)
  {
    if k == 0 {
      SteadyNothing(p);
      assert p.pending + payload[..0] == p.pending;
    } else {
      SizedPart(p, payload, k - 1);
      var q := p.(pending := p.pending + payload[..k - 1], length := |payload| - (k - 1));
      SteadyOne(q, payload[k - 1]);
      assert q.pending + [payload[k - 1]] == p.pending + payload[..k];
      assert payload[..k - 1] + [payload[k - 1]] == payload[..k];
      Chain(p, payload[..k - 1], [payload[k - 1]], q, Step(q, payload[k - 1]));
    }
  }

  /** A row announced with length zero waits for the next byte before it is handed over. */
  function Settled(p: Parser): Parser {
    if p.state == 4 && p.length == 0 then Emit(p) else p
  }

  lemma SizedRest(p: Parser, payload: seq<nat>)
    requires p.state == 4 && p.length == |payload| && p.pending == []
    ensures Steady(p, payload) && Settled(Steps(p, payload)) == Emit(p.(pending := payload))
    ensures payload != [] ==> Steps(p, payload) == Emit(p.(pending := payload))
  {
    if payload == [] {
      SteadyNothing(p);
    } else {
      var n := |payload| - 1;
      SizedPart(p, payload, n);
      var q := p.(pending := p.pending + payload[..n], length := 1);
      SteadyOne(q, payload[n]);
      assert q.pending + [payload[n]] == payload;
      assert payload[..n] + [payload[n]] == payload;
      Chain(p, payload[..n], [payload[n]], q, Step(q, payload[n]));
    }
  }

  /** Only an empty sized row is still waiting after its last byte. */
  predicate Waits(f: Frame) {
    f.Sized? && f.payload == []
  }

  /** The parser behind the id and the colon. */
  lemma AfterId(id: nat, rows: seq<Row>, rest: seq<nat>, q: Parser)
    requires id < 0x8000_0000
    requires var p := Between(rows).(id := id, state := 1); Steady(p, rest) && Steps(p, rest) == q
    ensures Steady(Between(rows), Hex(id) + ([58] + rest)) && Steps(Between(rows), Hex(id) + ([58] + rest)) == q
  {
    var p := Between(rows);
    IdSteps(p, id);
    var p1 := p.(id := id);
    SteadyOne(p1, 58);
    Chain(p1, [58], rest, p1.(state := 1), q);
    Chain(p, Hex(id), [58] + rest, p1, q);
  }

  lemma SizedTail(p: Parser, tag: nat, payload: seq<nat>)
    requires p.state == 1 && p.length == 0 && p.pending == [] && SizedTag(tag) && |payload| < 0x8000_0000
    ensures
      var bytes, row := [tag] + (Hex(|payload|) + ([44] + payload)), p.(state := 4, tag := tag, length := |payload|);
      && Steady(p, bytes) && Settled(Steps(p, bytes)) == Emit(row.(pending := payload))
      && (payload != [] ==> Steps(p, bytes) == Emit(row.(pending := payload)))
      && (payload == [] ==> Steps(p, bytes) == row)
  {
    hide SizedTag, LineTag, Hex, Settled, Emit, ShiftIn;
    var p3 := p.(state := 2, tag := tag);
    var p4 := p3.(length := |payload|);
    var p5 := p4.(state := 4);
    SteadyOne(p, tag);
    LengthSteps(p3, |payload|);
    SteadyOne(p4, 44);
    SizedRest(p5, payload);
    var q := Steps(p5, payload);
    Chain(p4, [44], payload, p5, q);
    Chain(p3, Hex(|payload|), [44] + payload, p4, q);
    Chain(p, [tag], Hex(|payload|) + ([44] + payload), p3, q);
  }

  lemma LineTail(p: Parser, tag: nat, payload: seq<nat>)
    requires p.state == 1 && p.length == 0 && p.pending == [] && LineTag(tag) && 10 !in payload
    ensures
      var bytes := [tag] + (payload + [10]);
      Steady(p, bytes) && Steps(p, bytes) == Emit(p.(tag := tag, pending := payload))
  {
    var p3 := p.(state := 3, tag := tag);
    SteadyOne(p, tag);
    LineRest(p3, payload);
    Chain(p, [tag], payload + [10], p3, Steps(p3, payload + [10]));
  }

  lemma FrameSteps(f: Frame, rows: seq<Row>)
    requires Writable(f)
    ensures var q := Steps(Between(rows), Encode(f));
            && Steady(Between(rows), Encode(f))
            && Settled(q) == Between(rows + [RowOf(f)])
            && (!Waits(f) ==> q == Settled(q)) && (Waits(f) ==> q.rows == rows)
  {
    hide Steps, Steady, Hex, SizedTag, LineTag, SizedLetter, LineLetter;
    var p := Between(rows).(id := f.id, state := 1);
    match f
    case Sized(id, tag, payload) =>
      var rest := [tag] + (Hex(|payload|) + ([44] + payload));
      TagsAreLetters(tag);
      SizedTail(p, tag, payload);
      AfterId(id, rows, rest, Steps(p, rest));
    case Line(id, tag, payload) =>
      TagsAreLetters(tag);
      LineTail(p, tag, payload);
      AfterId(id, rows, [tag] + (payload + [10]), Steps(p, [tag] + (payload + [10])));
    case Plain(id, payload) =>
      if payload != [] {
        TagsAreLetters(payload[0]);
      }
      PlainRest(p, payload);
      AfterId(id, rows, payload + [10], Steps(p, payload + [10]));
  }

  /** An untagged row: its first byte only shows that there is no tag. */
  lemma PlainRest(p: Parser, payload: seq<nat>)
    requires p.state == 1 && p.length == 0 && p.pending == [] && p.tag == 0 && 10 !in payload
    requires payload != [] ==> !SizedTag(payload[0]) && !LineTag(payload[0])
    ensures Steady(p, payload + [10])
    ensures Steps(p, payload + [10]) == Emit(p.(pending := payload, tag := 0))
  {
    var q := p.(state := 3);
    LineRest(q, payload);
    var bytes := payload + [10];
    assert !SizedTag(bytes[0]) && !LineTag(bytes[0]);
    forall k | 0 < k <= |bytes| ensures Steps(p, bytes[..k]) == Steps(q, bytes[..k]) {
      SameFromFirst(p, q, bytes[..k]);
    }
    assert bytes[..|bytes|] == bytes;
    SteadyNothing(p);
    assert bytes[..0] == [];
  }

  lemma {:induction false} SameFromFirst(p: Parser, q: Parser, bytes: seq<nat>)
    requires bytes != [] && Step(p, bytes[0]) == Step(q, bytes[0])
    ensures Steps(p, bytes) == Steps(q, bytes)
  {
    if |bytes| == 1 {
      assert bytes[..0] == [];
    } else {
      SameFromFirst(p, q, bytes[..|bytes| - 1]);
    }
  }

  // ---------- whole streams ----------

  function EncodeAll(frames: seq<Frame>): seq<nat> {
    if frames == [] then [] else EncodeAll(frames[..|frames| - 1]) + Encode(frames[|frames| - 1])
  }

  function RowsOf(frames: seq<Frame>): seq<Row> {
    if frames == [] then [] else RowsOf(frames[..|frames| - 1]) + [RowOf(frames[|frames| - 1])]
  }

  /** What has been handed over when the stream ends: all rows, but not an empty sized row at the end. */
  function RowsRead(frames: seq<Frame>): seq<Row> {
    if frames != [] && Waits(frames[|frames| - 1]) then RowsOf(frames[..|frames| - 1]) else RowsOf(frames)
  }

  lemma HexNotEmpty(n: nat)
    ensures Hex(n) != []
  {
  }

  /** A waiting row is handed over by the first byte of the next one, which goes on unaffected. */
  lemma SettleFirst(p: Parser, f: Frame)
    requires p.length >= 0
    ensures Steps(p, Encode(f)) == Steps(Settled(p), Encode(f))
    ensures Steady(Settled(p), Encode(f)) ==> Steady(p, Encode(f))
  {
    HexNotEmpty(f.id);
    var bytes := Encode(f);
    forall k | 0 < k <= |bytes| ensures Steps(p, bytes[..k]) == Steps(Settled(p), bytes[..k]) {
      SameFromFirst(p, Settled(p), bytes[..k]);
    }
    assert bytes[..|bytes|] == bytes;
    assert bytes[..0] == [];
  }

  lemma {:induction false} StreamSteps(frames: seq<Frame>)
    requires forall f :: f in frames ==> Writable(f)
    ensures var q := Steps(START, EncodeAll(frames));
            && Steady(START, EncodeAll(frames))
            && Settled(q) == Between(RowsOf(frames)) && q.rows == RowsRead(frames)
  {
    if frames == [] {
      SteadyNothing(START);
    } else {
      var before, f := frames[..|frames| - 1], frames[|frames| - 1];
      StreamSteps(before);
      var p := Steps(START, EncodeAll(before));
      assert f in frames;
      assert EncodeAll(before)[..|EncodeAll(before)|] == EncodeAll(before);
      FrameSteps(f, RowsOf(before));
      SettleFirst(p, f);
      Chain(START, EncodeAll(before), Encode(f), p, Steps(p, Encode(f)));
    }
  }

  lemma SteadyNeverOverruns(stream: seq<nat>)
    requires Steady(START, stream)
    ensures !SomeOverrun(stream)
  {
    forall k | 0 <= k < |stream| ensures !Overruns(After(stream, k), k) {
      assert Steps(START, stream[..k]).length >= 0;
    }
  }

  /** Rows written to a stream are read back, however the stream is cut. */
  lemma RowsRoundTrip(frames: seq<Frame>, chunks: seq<seq<nat>>)
    requires (forall f :: f in frames ==> Writable(f)) && Flatten(chunks) == EncodeAll(frames)
    ensures RunChunks(START, chunks).Open? && RunChunks(START, chunks).parser.rows == RowsRead(frames)
  {
    StreamSteps(frames);
    SteadyNeverOverruns(EncodeAll(frames));
    ChunkIndependence(EncodeAll(frames));
  }

  /** The bytes "0:Tfffffffe," : a length of eight digits that wraps to -2. */
  function WrappedHeader(): seq<nat> {
    [48, 58, 84] + (Hex(0xfffffff) + [101, 44])
  }

  lemma OneStep(p: Parser, b: nat)
    ensures Steps(p, [b]) == Step(p, b)
  {
    var one := [b];
    assert one[..0] == [];
  }

  lemma ShortSteps(p: Parser, a: nat, b: nat)
    ensures Steps(p, [a, b]) == Step(Step(p, a), b)
  {
    OneStep(p, a);
    OneStep(Step(p, a), b);
    assert [a, b] == [a] + [b];
    StepsConcat(p, [a], [b]);
  }

  lemma FullUnsigned(x: nat)
    requires x < 0x1_0000_0000
    ensures Unsigned(x) == x
  {
    DivModUnique(x, 0x1_0000_0000, 0, x);
  }

  lemma TopDigits()
    ensures BitOr(0xffff_fff0, 14) == 0xffff_fffe
  {
    assert Pow2(4) == 16;
    hide BitOr;
    OrDisjoint(0xfffffff, 4, 14);
  }

  lemma WrapsBelowZero()
    ensures ShiftIn(0xfffffff, 101) == -2
  {
    hide BitOr, Unsigned;
    FullUnsigned(0xffff_fff0);
    FullUnsigned(14);
    TopDigits();
    FullUnsigned(0xffff_fffe);
    SignedIsUnsigned(0xffff_fffe);
  }

  lemma SignedIsUnsigned(x: nat)
    ensures Signed(x) == if Unsigned(x) < 0x8000_0000 then Unsigned(x) else Unsigned(x) - 0x1_0000_0000
  {
  }

  lemma WrappedState()
    ensures Steps(START, WrappedHeader()) == Parser(4, 0, 84, -2, [], [])
    ensures |WrappedHeader()| >= 5
  {
    var head := [48, 58, 84];
    assert head == [48, 58] + [84];
    ShortSteps(START, 48, 58);
    ShiftInDigit(0, 0);
    StepsConcat(START, [48, 58], [84]);
    var p := Parser(1, 0, 0, 0, [], []);
    SteadyOne(p, 84);
    var q := p.(state := 2, tag := 84);
    LengthSteps(q, 0xfffffff);
    var r := q.(length := 0xfffffff);
    WrapsBelowZero();
    ShortSteps(r, 101, 44);
    StepsConcat(q, Hex(0xfffffff), [101, 44]);
    StepsConcat(START, head, Hex(0xfffffff) + [101, 44]);
  }

  /** Such a header followed by any byte: the uncut stream fails, a stream cut behind the comma does not. */
  lemma WrappedLengthDependsOnCut(b: nat)
    ensures !CutIndependent(WrappedHeader() + [b])
  {
    var stream := WrappedHeader() + [b];
    var k := |WrappedHeader()|;
    WrappedState();
    assert stream[..k] == WrappedHeader();
    assert Overruns(After(stream, k), k);
    ChunkIndependence(stream);
  }
}
