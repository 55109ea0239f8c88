/** The whole compressor: blocks, bits and the output buffer, decoded back by the format's rules. */
module Deflate {
  import opened Bits
  import opened BitReversal
  import opened Options
  import opened BitStream
  import opened CanonicalCode
  import opened TokenFormat
  import opened Lz77
  import opened Inflate
  import opened BlockDecoding
  import opened BlockWriter
  import opened FixedSize
  import opened StreamPrefix

  // ---------- the decoder over a whole stream ----------

  /** What a stream decodes to, and where its final block ends. */
  datatype Inflated = Inflated(data: seq<nat>, pos: nat)

  /** Decode blocks from pos until the final one. */
  function InflateFrom(bits: seq<bool>, pos: nat, out: seq<nat>): Option<Inflated>
    decreases |bits| - pos
  {
    match DecodeBlock(bits, pos, out)
    case None => None
    case Some(end) =>
      if end.final then Some(Inflated(end.out, end.pos))
      else if end.pos <= pos then None
      else InflateFrom(bits, end.pos, end.out)
  }

  function BytesToBits(a: seq<nat>): seq<bool> {
    seq(8 * |a|, i requires 0 <= i < 8 * |a| => BitAt(a, i))
  }

  function InflateBytes(a: seq<nat>): Option<seq<nat>> {
    match InflateFrom(BytesToBits(a), 0, [])
    case None => None
    case Some(end) => Some(end.data)
  }

  // ---------- appending blocks ----------

  /** Any stream that starts with these bits decodes its first upto bytes of data on the way. */
  ghost predicate Carries(bits: seq<bool>, data: seq<nat>, upto: nat) {
    && upto <= |data|
    && forall stream :: bits <= stream ==>
         InflateFrom(stream, 0, []) == InflateFrom(stream, |bits|, data[..upto])
  }

  /** Any stream that starts with these bits decodes to the data, and the decoder stops right behind them. */
  ghost predicate Complete(bits: seq<bool>, data: seq<nat>) {
    forall stream :: bits <= stream ==> InflateFrom(stream, 0, []) == Some(Inflated(data, |bits|))
  }

  lemma SegmentInPlace(bits: seq<bool>, segment: seq<bool>, stream: seq<bool>)
    requires bits + segment <= stream
    ensures bits <= stream && At(stream, |bits|, segment)
  {
  }

  lemma CarryOn(bits: seq<bool>, segment: seq<bool>, data: seq<nat>, start: nat, upto: nat)
    requires Carries(bits, data, start) && start <= upto <= |data| && |segment| > 0
    requires Decodes(segment, |bits|, data[..start], data[..upto], false)
    ensures Carries(bits + segment, data, upto)
  {
    hide InflateFrom, Decodes;
    forall stream | bits + segment <= stream
      ensures InflateFrom(stream, 0, []) == InflateFrom(stream, |bits + segment|, data[..upto])
    {
      SegmentInPlace(bits, segment, stream);
      SegmentInflates(stream, |bits|, segment, data[..start], data[..upto]);
    }
  }

  lemma SegmentInflates(stream: seq<bool>, pos: nat, segment: seq<bool>, out: seq<nat>, next: seq<nat>)
    requires Decodes(segment, pos, out, next, false) && At(stream, pos, segment) && |segment| > 0
    ensures InflateFrom(stream, pos, out) == InflateFrom(stream, pos + |segment|, next)
  {
    hide DecodeBlock;
  }

  lemma Finish(bits: seq<bool>, segment: seq<bool>, data: seq<nat>, start: nat)
    requires Carries(bits, data, start) && Decodes(segment, |bits|, data[..start], data[..|data|], true)
    ensures Complete(bits + segment, data)
  {
    assert data[..|data|] == data;
    forall stream | bits + segment <= stream ensures InflateFrom(stream, 0, []) == Some(Inflated(data, |bits + segment|)) {
      SegmentInPlace(bits, segment, stream);
    }
  }

  // ---------- the output buffer ----------

  /** Bytes allotted for compressed data. */
  function Capacity(n: nat): nat {
    n + 5 * (1 + n / 7000)
  }

  /** Blocks closed before the end of the input cover at least 21003 bytes each. */
  lemma {:induction false} BlocksEnd(e: seq<nat>, blocks: seq<Block>, upto: nat)
    requires BlocksOf(e, blocks, upto) && forall k :: 0 <= k < |blocks| ==> !blocks[k].final && ProperBlock(blocks[k])
    ensures 21003 * |blocks| <= upto
  {
    if blocks != [] {
      var b := blocks[|blocks| - 1];
      BlocksEnd(e, blocks[..|blocks| - 1], b.start);
      FullBlockCovers(e, b);
    }
  }

  /** From 7000 bytes on the buffer always has room; below that there is a single block. */
  lemma RoomForBlocks(n: nat, early: nat)
    requires 21003 * early <= n
    ensures n >= 7000 ==> 8 * n + 42 * (early + 1) <= 8 * Capacity(n)
    ensures n < 7000 ==> early == 0 && 8 * Capacity(n) == 8 * n + 40
  {
    if n < 7000 {
      DivModUnique(n, 7000, 0, n);
    } else {
      var q := n / 7000;
      assert n == 7000 * q + n % 7000;
      assert q >= 1 && 3 * early <= q;
    }
  }

  /** The bits in a prefix of the buffer that reaches behind the last one written. */
  lemma PrefixHolds(a: seq<nat>, bits: seq<bool>, n: nat)
    requires Holds(a, bits) && n <= |a| && |bits| <= 8 * n
    ensures bits <= BytesToBits(a[..n])
  {
    var s := BytesToBits(a[..n]);
    forall i | 0 <= i < |bits| ensures bits[i] == s[i] {
      assert BitAt(a[..n], i) == BitAt(a, i);
    }
  }

  lemma WholeStream(a: seq<nat>, bits: seq<bool>, data: seq<nat>)
    requires Complete(bits, data) && bits <= BytesToBits(a)
    ensures InflateBytes(a) == Some(data)
  {
    hide InflateFrom;
  }

  /** A buffer that cuts off the end of a stream does not decode: the decoder reads every bit of it. */
  lemma CutStream(a: seq<nat>, bits: seq<bool>, data: seq<nat>)
    requires Holds(a, bits) && Complete(bits, data) && |bits| > 8 * |a|
    ensures InflateBytes(a) == None
  {
    hide InflateFrom, Holds, BitAt;
    var s := BytesToBits(a);
    CutBits(a, bits);
    assert InflateFrom(bits, 0, []) == Some(Inflated(data, |bits|));
    if InflateFrom(s, 0, []).Some? {
      InflateExtends(s, bits, 0, []);
    }
  }

  lemma CutBits(a: seq<nat>, bits: seq<bool>)
    requires Holds(a, bits) && |bits| > 8 * |a|
    ensures BytesToBits(a) <= bits
  {
    var s := BytesToBits(a);
    forall i | 0 <= i < |s| ensures s[i] == bits[i] {
      assert BitAt(a, i) == bits[i];
    }
  }

  /** What a prefix of a stream decodes to, the whole stream decodes to, stopping at the same place. */
  lemma {:induction false} InflateExtends(s: seq<bool>, t: seq<bool>, pos: nat, out: seq<nat>)
    requires s <= t && InflateFrom(s, pos, out).Some?
    ensures InflateFrom(t, pos, out) == InflateFrom(s, pos, out) && InflateFrom(s, pos, out).value.pos <= |s|
    decreases |s| - pos
  {
    hide DecodeBlock;
    BlockExtends(s, t, pos, out);
    var end := DecodeBlock(s, pos, out).value;
    if !end.final {
      InflateExtends(s, t, end.pos, end.out);
    }
  }

  // ---------- the compressor ----------

  method FixedCodes(ti: array<nat>) returns (tl: array<nat>, td: array<nat>)
    requires ReverseTable(ti)
    ensures FixedTables(tl, td) && fresh(tl) && fresh(td)
  {
    FixedCodable();
    tl := AssignCodes(FixedLit(), 9, ti);
    td := AssignCodes(FixedDist(), 5, ti);
  }

  lemma {:induction false} BlockIn(e: seq<nat>, blocks: seq<Block>, k: nat, upto: nat)
    requires BlocksOf(e, blocks, upto) && k < |blocks|
    ensures blocks[k].start + blocks[k].count <= |e| && BlocksOf(e, blocks[..k], blocks[k].start)
    ensures Play(e[..blocks[k].start], blocks[k].tokens) == Some(e[..blocks[k].start + blocks[k].count])
    ensures BlocksOf(e, blocks[..k + 1], blocks[k].start + blocks[k].count)
    decreases |blocks|
  {
    hide Play;
    var last := |blocks| - 1;
    if k == last {
      assert blocks[..k + 1] == blocks;
    } else {
      BlockIn(e, blocks[..last], k, blocks[last].start);
      assert blocks[..last][..k] == blocks[..k] && blocks[..last][..k + 1] == blocks[..k + 1];
    }
  }

  lemma NextStart(e: seq<nat>, blocks: seq<Block>, k: nat)
    requires BlocksOf(e, blocks, |e|) && k < |blocks|
    ensures k == 0 ==> blocks[k].start == 0
    ensures k > 0 ==> blocks[k].start == blocks[k - 1].start + blocks[k - 1].count
    ensures k == |blocks| - 1 ==> blocks[k].start + blocks[k].count == |e|
  {
    BlockIn(e, blocks, k, |e|);
    if k > 0 {
      assert blocks[..k][|blocks[..k]| - 1] == blocks[k - 1];
    }
  }

  lemma SegmentNotEmpty(segment: seq<bool>, pos: nat, out: seq<nat>, next: seq<nat>, final: bool)
    requires Decodes(segment, pos, out, next, final)
    ensures |segment| > 0
  {
    var bits := seq(pos, _ => false) + segment;
    assert At(bits, pos, segment);
    assert DecodeBlock(bits, pos, out).Some?;
  }

  lemma CarriesNothing(data: seq<nat>)
    ensures Carries([], data, 0)
  {
    assert data[..0] == [];
  }

  /** Write one block that is not the last. */
  method WriteEarly(wr: BitWriter, e: seq<nat>, blocks: seq<Block>, k: nat, ti: array<nat>, tl: array<nat>, td: array<nat>)
    requires wr.Valid() && wr.a != ti && wr.a != tl && wr.a != td && ReverseTable(ti) && FixedTables(tl, td)
    requires BlocksOf(e, blocks, |e|) && OnlyLastFinal(blocks) && forall i :: 0 <= i < |e| ==> e[i] < 256
    requires k < |blocks| - 1 && Carries(wr.bits, e, blocks[k].start)
    modifies wr, wr.a
    ensures wr.Valid() && Carries(wr.bits, e, blocks[k + 1].start)
    ensures wr.l - 8 * blocks[k + 1].start <= old(wr.l) - 8 * blocks[k].start + 42
  {
    hide Decodes, Carries, Play, ProperBlock, BlocksOf, Holds, FormSize, PlanFor, FixedBits, DynamicBits;
    ghost var before, b := wr.bits, blocks[k];
    BlockIn(e, blocks, k, |e|);
    NextStart(e, blocks, k + 1);
    ghost var segment, _ := WriteBlock(wr, e, blocks[k], ti, tl, td);
    SegmentNotEmpty(segment, |before|, e[..b.start], e[..b.start + b.count], false);
    CarryOn(before, segment, e, b.start, b.start + b.count);
  }

  method WriteLast(wr: BitWriter, e: seq<nat>, blocks: seq<Block>, ti: array<nat>, tl: array<nat>, td: array<nat>)
    returns (ghost used: Plan)
    requires wr.Valid() && wr.a != ti && wr.a != tl && wr.a != td && ReverseTable(ti) && FixedTables(tl, td)
    requires BlocksOf(e, blocks, |e|) && OnlyLastFinal(blocks) && forall i :: 0 <= i < |e| ==> e[i] < 256
    requires Carries(wr.bits, e, blocks[|blocks| - 1].start)
    modifies wr, wr.a
    ensures wr.Valid() && Complete(wr.bits, e)
    ensures wr.l <= old(wr.l) - 8 * blocks[|blocks| - 1].start + 8 * |e| + 42
    ensures
      var b := blocks[|blocks| - 1];
      && PlanFor(b.tokens, used)
      && |wr.bits| == |old(wr.bits)| + FormSize(|old(wr.bits)|, b, used)
  {
    hide Decodes, Carries, Complete, Play, ProperBlock, BlocksOf, Holds, FormSize, PlanFor, FixedBits, DynamicBits;
    ghost var before, b := wr.bits, blocks[|blocks| - 1];
    BlockIn(e, blocks, |blocks| - 1, |e|);
    NextStart(e, blocks, |blocks| - 1);
    ghost var segment;
    segment, used := WriteBlock(wr, e, blocks[|blocks| - 1], ti, tl, td);
    Finish(before, segment, e, b.start);
  }

  /** Write all blocks; what is written decodes to the data whatever follows it. */
  method WriteBlocks(wr: BitWriter, e: seq<nat>, blocks: seq<Block>, ti: array<nat>, tl: array<nat>, td: array<nat>)
    returns (ghost used: Plan)
    requires wr.Valid() && wr.bits == [] && wr.a != ti && wr.a != tl && wr.a != td
    requires ReverseTable(ti) && FixedTables(tl, td)
    requires BlocksOf(e, blocks, |e|) && OnlyLastFinal(blocks) && forall i :: 0 <= i < |e| ==> e[i] < 256
    modifies wr, wr.a
    ensures wr.Valid() && Complete(wr.bits, e) && wr.l <= 8 * |e| + 42 * |blocks|
    ensures |blocks| == 1 ==>
              && PlanFor(blocks[0].tokens, used)
              && |wr.bits| == FormSize(0, blocks[0], used)
  {
    hide Complete, Carries, BlocksOf, Holds, FormSize, PlanFor;
    CarriesNothing(e);
    NextStart(e, blocks, 0);
    for k := 0 to |blocks| - 1
      invariant wr.Valid() && Carries(wr.bits, e, blocks[k].start)
      invariant wr.l <= 8 * blocks[k].start + 42 * k && (k == 0 ==> wr.bits == [])
    {
      WriteEarly(wr, e, blocks, k, ti, tl, td);
    }
    used := WriteLast(wr, e, blocks, ti, tl, td);
  }

  /** The smaller of the two coded forms of a block. */
  ghost function CheaperCoded(b: Block, plan: Plan): nat
    requires PlanFor(b.tokens, plan)
  {
    var l, n := |FixedBits(b.tokens)|, |DynamicBits(plan, b.tokens)|;
    if n < l then n else l
  }

  /** The coded form is preferred to a stored block of n bytes, but with its header does not fit in 8 bits a byte and
      40 more. */
  ghost predicate Misjudged(n: nat, b: Block, plan: Plan)
    requires PlanFor(b.tokens, plan)
  {
    8 * n + 38 <= CheaperCoded(b, plan) <= 8 * n + 39
  }

  /** A sole block outgrows the buffer exactly when its form is misjudged, and never with at most 30 high bytes. */
  lemma SoleBlockSize(e: seq<nat>, b: Block, plan: Plan)
    requires Sole(e, b) && PlanFor(b.tokens, plan)
    ensures FormSize(0, b, plan) > 8 * |e| + 40 <==> Misjudged(|e|, b, plan)
    ensures |e| <= 8192 && High(e) <= 30 ==> FormSize(0, b, plan) <= 8 * |e| + 40
  {
    hide FixedBits, DynamicBits, PlanFor, Play, High;
    if |e| <= 8192 {
      PlanPacked(b.tokens, plan);
      FixedFits(b.tokens, e);
    }
  }

  lemma PlanPacked(tokens: seq<nat>, plan: Plan)
    requires PlanFor(tokens, plan)
    ensures AllWellPacked(tokens)
  {
    hide Sound;
  }

  /** Compress into a buffer of fixed size. What the decoder makes of the result is the input exactly when the
      bits fit, which they always do from 7000 bytes on and for inputs with at most 30 bytes from 144 on. Below 7000
      bytes it is lost exactly when the choice of the form goes wrong, and then at most two bits are missing. */
  method Compress(e: seq<nat>, nice: nat, chain: nat, size: nat, hash: int -> nat)
    returns (result: seq<nat>, needed: nat, ghost block: Block, ghost used: Plan)
    requires forall i :: 0 <= i < |e| ==> e[i] < 256
    requires chain >= 1 && forall i :: hash(i) < size
    ensures |e| >= 7000 || High(e) <= 30 ==> InflateBytes(result) == Some(e)
    ensures |e| < 7000 ==> Sole(e, block) && PlanFor(block.tokens, used) && needed == FormSize(0, block, used)
    ensures |e| < 7000 ==> (InflateBytes(result) == Some(e) <==> !Misjudged(|e|, block, used))
    ensures |e| >= 7000 ==> needed <= 8 * Capacity(|e|)
    ensures |e| < 7000 ==> needed <= 8 * |e| + 42 && Capacity(|e|) == |e| + 5
    ensures InflateBytes(result) == Some(e) <==> needed <= 8 * Capacity(|e|)
    ensures |result| == if needed <= 8 * Capacity(|e|) then (needed + 7) / 8 else Capacity(|e|)
  {
    hide Misjudged, FormSize, PlanFor, High, Sole, InflateBytes;
    var blocks;
    result, needed, blocks, used := CompressBlocks(e, nice, chain, size, hash);
    block := blocks[0];
    if |e| < 7000 {
      SoleBlock(e, blocks);
      SoleBlockSize(e, block, used);
    }
  }

  /** The blocks, their bits, and as much of them as the buffer holds. */
  method CompressBlocks(e: seq<nat>, nice: nat, chain: nat, size: nat, hash: int -> nat)
    returns (result: seq<nat>, needed: nat, blocks: seq<Block>, ghost used: Plan)
    requires forall i :: 0 <= i < |e| ==> e[i] < 256
    requires chain >= 1 && forall i :: hash(i) < size
    ensures BlocksOf(e, blocks, |e|) && OnlyLastFinal(blocks)
    ensures |e| >= 7000 ==> needed <= 8 * Capacity(|e|)
    ensures |e| < 7000 ==> needed <= 8 * |e| + 42 && Capacity(|e|) == |e| + 5 && |blocks| == 1
    ensures InflateBytes(result) == Some(e) <==> needed <= 8 * Capacity(|e|)
    ensures |e| < 7000 ==> PlanFor(blocks[0].tokens, used) && needed == FormSize(0, blocks[0], used)
    ensures |result| == if needed <= 8 * Capacity(|e|) then (needed + 7) / 8 else Capacity(|e|)
  {
    hide FormSize, PlanFor, InflateBytes, BlocksOf, Complete, BytesToBits, Holds;
    var ti := BuildReverseTable();
    var te, tr := BuildCodeTables();
    var tl, td := FixedCodes(ti);
    blocks := Lz77.Compress(e, nice, chain, size, hash, te, tr);
    EarlyBlocks(e, blocks);
    RoomForBlocks(|e|, |blocks| - 1);
    var wr := new BitWriter(Capacity(|e|));
    used := WriteBlocks(wr, e, blocks, ti, tl, td);
    needed := wr.l;
    var n := (needed + 7) / 8;
    if n > wr.a.Length {
      n := wr.a.Length;
    }
    result := wr.a[..n];
    if needed <= 8 * Capacity(|e|) {
      PrefixHolds(wr.a[..], wr.bits, n);
      assert wr.a[..][..n] == result;
      WholeStream(result, wr.bits, e);
    } else {
      CutStream(wr.a[..], wr.bits, e);
      assert result == wr.a[..];
    }
  }

  /** A single block for the whole input. */
  ghost predicate Sole(e: seq<nat>, b: Block) {
    b.start == 0 && b.count == |e| && Play([], b.tokens) == Some(e)
  }

  lemma SoleBlock(e: seq<nat>, blocks: seq<Block>)
    requires BlocksOf(e, blocks, |e|) && OnlyLastFinal(blocks)
    ensures |blocks| == 1 ==> Sole(e, blocks[0])
  {
    hide Play;
    if |blocks| == 1 {
      assert e[..0] == [] && e[..|e|] == e && BlocksOf(e, [], blocks[0].start);
      assert ProperBlock(blocks[0]);
    }
  }

  lemma EarlyBlocks(e: seq<nat>, blocks: seq<Block>)
    requires BlocksOf(e, blocks, |e|) && OnlyLastFinal(blocks)
    ensures 21003 * (|blocks| - 1) <= |e|
  {
    hide Play, ProperBlock;
    var n := |blocks| - 1;
    var early := blocks[..n];
    assert BlocksOf(e, early, blocks[n].start);
    forall k | 0 <= k < |early| ensures !early[k].final && ProperBlock(early[k]) {
      assert early[k] == blocks[k];
    }
    BlocksEnd(e, early, blocks[n].start);
    BlocksEndWithin(e, blocks);
  }

  lemma BlocksEndWithin(e: seq<nat>, blocks: seq<Block>)
    requires BlocksOf(e, blocks, |e|) && blocks != []
    ensures blocks[|blocks| - 1].start <= |e|
  {
  }
}
