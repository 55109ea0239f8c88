/** A decoder for DEFLATE blocks, written from section 3.2 of RFC 1951. */
module Inflate {
  import opened Bits
  import opened BitReversal
  import opened Options
  import opened BitStream
  import opened CanonicalCode
  import Runs = CodeLengthRuns
  import opened TokenFormat
  import opened Lz77

  function ReadValue(bits: seq<bool>, pos: nat, w: nat): Option<nat> {
    if pos + w <= |bits| then Some(BitsValue(bits[pos..pos + w])) else None
  }

  // ---------- prefix codes ----------

  /** The n bits at pos spell the number, most significant bit first. */
  predicate Spelled(code: nat, n: nat, bits: seq<bool>, pos: nat) {
    && pos + n <= |bits|
    && forall j :: pos <= j < pos + n ==> bits[j] == Bit(code, n - 1 - (j - pos))
  }

  /** The code of symbol s stands at pos. */
  predicate CodeHere(lens: seq<nat>, s: nat, bits: seq<bool>, pos: nat) {
    s < |lens| && lens[s] > 0 && Spelled(CodeOf(lens, s), lens[s], bits, pos)
  }

  function FindSymbol(lens: seq<nat>, bits: seq<bool>, pos: nat, k: nat): (r: Option<nat>)
    ensures r.Some? ==> CodeHere(lens, r.value, bits, pos)
  {
    if k == 0 then None
    else if CodeHere(lens, k - 1, bits, pos) then Some(k - 1)
    else FindSymbol(lens, bits, pos, k - 1)
  }

  /** The symbol whose code stands at pos, and the position behind it. */
  function DecodeSymbol(lens: seq<nat>, bits: seq<bool>, pos: nat): (r: Option<(nat, nat)>)
    ensures r.Some? ==> r.value.0 < |lens| && pos < r.value.1 <= |bits|
  {
    match FindSymbol(lens, bits, pos, |lens|)
    case None => None
    case Some(s) => Some((s, pos + lens[s]))
  }

  // ---------- literals and matches ----------

  datatype MatchEnd = MatchEnd(length: nat, distance: nat, pos: nat)

  /** The rest of a match whose length symbol was just read: extra bits, distance code, extra bits. */
  function DecodeMatch(dist: seq<nat>, s: nat, bits: seq<bool>, pos: nat): (r: Option<MatchEnd>)
    requires 257 <= s < 286
    ensures r.Some? ==> pos < r.value.pos
  {
    match ReadValue(bits, pos, LenBits(s - 257))
    case None => None
    case Some(length) =>
      match DecodeSymbol(dist, bits, pos + LenBits(s - 257))
      case None => None
      case Some((d, p)) =>
        if d >= 30 then None
        else
          match ReadValue(bits, p, DistBits(d))
          case None => None
          case Some(distance) =>
            Some(MatchEnd(LenBase(s - 257) + length, DistBase(d) + distance, p + DistBits(d)))
  }

  /** Decode until the end-of-block symbol. */
  function DecodeData(lit: seq<nat>, dist: seq<nat>, bits: seq<bool>, pos: nat, out: seq<nat>): Option<(seq<nat>, nat)>
    decreases |bits| - pos
  {
    match DecodeSymbol(lit, bits, pos)
    case None => None
    case Some((s, p)) =>
      if s < 256 then DecodeData(lit, dist, bits, p, out + [s])
      else if s == 256 then Some((out, p))
      else if s >= 286 then None
      else
        match DecodeMatch(dist, s, bits, p)
        case None => None
        case Some(m) =>
          if 1 <= m.distance <= |out| then
            DecodeData(lit, dist, bits, m.pos, CopyMatch(out, m.length, m.distance))
          else None
  }

  // ---------- code length tables ----------

  /** The order in which the lengths of the code length code are sent. */
  const ORDER: seq<nat> := [16, 17, 18, 0, 8, 7, 9, 6, 10, 5, 11, 4, 12, 3, 13, 2, 14, 1, 15]

  function OrderAt(i: nat): (s: nat)
    requires i < 19
    ensures s < 19
  {
    ORDER[i]
  }

  /** After the repeat codes and zero the order works outwards from 8. */
  lemma OrderClosed(i: nat)
    requires i < 19
    ensures OrderAt(i) == if i < 3 then 16 + i else if i == 3 then 0 else if i % 2 == 0 then 6 + i / 2 else 10 - (i + 1) / 2
  {
  }

  /** The first n three-bit lengths, put in their places; the others are zero. */
  function ReadOrder(bits: seq<bool>, pos: nat, n: nat): (t: seq<nat>)
    requires n <= 19 && pos + 3 * n <= |bits|
    ensures |t| == 19
  {
    if n == 0 then seq(19, _ => 0)
    else ReadOrder(bits, pos, n - 1)[OrderAt(n - 1) := BitsValue(bits[pos + 3 * (n - 1)..pos + 3 * n])]
  }

  /** Decode run-length coded lengths until there are exactly count of them. */
  function DecodeLengths(clens: seq<nat>, bits: seq<bool>, pos: nat, count: nat, acc: seq<nat>): Option<(seq<nat>, nat)>
    decreases |bits| - pos
  {
    if |acc| == count then Some((acc, pos))
    else if |acc| > count then None
    else
      match DecodeSymbol(clens, bits, pos)
      case None => None
      case Some((symbol, p)) =>
        var w := Runs.WidthOf(symbol);
        match ReadValue(bits, p, w)
        case None => None
        case Some(extra) =>
          match Runs.Decode(acc, symbol, extra)
          case None => None
          case Some(more) => DecodeLengths(clens, bits, p + w, count, more)
  }

  // ---------- blocks ----------

  datatype BlockEnd = BlockEnd(out: seq<nat>, pos: nat, final: bool)

  /** The literal/length and distance code lengths of fixed blocks. */
  function FixedLit(): seq<nat> {
    seq(288, o => if o < 144 then 8 else if o < 256 then 9 else if o < 280 then 7 else 8)
  }

  function FixedDist(): seq<nat> {
    seq(32, _ => 5)
  }

  function ReadBytes(bits: seq<bool>, pos: nat, n: nat): seq<nat>
    requires pos + 8 * n <= |bits|
  {
    if n == 0 then [] else ReadBytes(bits, pos, n - 1) + [BitsValue(bits[pos + 8 * (n - 1)..pos + 8 * n])]
  }

  /** A stored block: skip to the byte boundary, length, its complement, the bytes themselves. */
  function DecodeStored(bits: seq<bool>, pos: nat, out: seq<nat>): Option<(seq<nat>, nat)> {
    var p := (pos + 7) / 8 * 8;
    match (ReadValue(bits, p, 16), ReadValue(bits, p + 16, 16))
    case (Some(len), Some(nlen)) =>
      if len + nlen != 65535 || p + 32 + 8 * len > |bits| then None
      else Some((out + ReadBytes(bits, p + 32, len), p + 32 + 8 * len))
    case _ => None
  }

  /** The data of a dynamic block, when the lengths sent describe two prefix codes. */
  function DecodeWith(lens: seq<nat>, hlit: nat, bits: seq<bool>, pos: nat, out: seq<nat>): Option<(seq<nat>, nat)> {
    if hlit > |lens| || !Codable(lens[..hlit], 15) || !Codable(lens[hlit..], 15) then None
    else DecodeData(lens[..hlit], lens[hlit..], bits, pos, out)
  }

  /** A dynamic block: a code for the code lengths, the lengths, the data. Lengths that oversubscribe a code are
      refused. */
  function DecodeDynamic(bits: seq<bool>, pos: nat, out: seq<nat>): Option<(seq<nat>, nat)> {
    if pos + 14 > |bits| then None
    else
      var hlit := BitsValue(bits[pos..pos + 5]) + 257;
      var hdist := BitsValue(bits[pos + 5..pos + 10]) + 1;
      var hclen := BitsValue(bits[pos + 10..pos + 14]) + 4;
      if hclen > 19 || pos + 14 + 3 * hclen > |bits| then None
      else
        var clens := ReadOrder(bits, pos + 14, hclen);
        if !Codable(clens, 7) then None
        else
          match DecodeLengths(clens, bits, pos + 14 + 3 * hclen, hlit + hdist, [])
          case None => None
          case Some((lens, p)) => DecodeWith(lens, hlit, bits, p, out)
  }

  /** One block starting at pos, decoded behind what is already there. */
  function DecodeBlock(bits: seq<bool>, pos: nat, out: seq<nat>): Option<BlockEnd> {
    if pos + 3 > |bits| then None
    else
      var kind := BitsValue(bits[pos + 1..pos + 3]);
      var body :=
        if kind == 0 then DecodeStored(bits, pos + 3, out)
        else if kind == 1 then DecodeData(FixedLit(), FixedDist(), bits, pos + 3, out)
        else if kind == 2 then DecodeDynamic(bits, pos + 3, out)
        else None;
      match body
      case None => None
      case Some((more, p)) => Some(BlockEnd(more, p, bits[pos]))
  }

  // ---------- segments of a stream ----------

  /** The segment stands in the stream at pos. */
  ghost predicate At(bits: seq<bool>, pos: nat, segment: seq<bool>) {
    pos + |segment| <= |bits| && bits[pos..pos + |segment|] == segment
  }

  lemma AtSplit(bits: seq<bool>, pos: nat, a: seq<bool>, b: seq<bool>)
    requires At(bits, pos, a + b)
    ensures At(bits, pos, a) && At(bits, pos + |a|, b)
  {
    assert bits[pos..pos + |a|] == (a + b)[..|a|];
    assert bits[pos + |a|..pos + |a| + |b|] == (a + b)[|a|..];
  }

  lemma ReadsBack(bits: seq<bool>, pos: nat, v: nat, w: nat)
    requires At(bits, pos, ValueBits(v, w)) && v < Pow2(w)
    ensures ReadValue(bits, pos, w) == Some(v)
  {
    ValueOfBits(v, w);
  }

  /** The bits a symbol is sent as. */
  function CodeBits(lens: seq<nat>, s: nat): (bits: seq<bool>)
    requires s < |lens|
    ensures |bits| == lens[s]
  {
    ValueBits(Transmitted(lens, s), lens[s])
  }

  lemma SpelledPrefix(x: nat, la: nat, y: nat, lb: nat, bits: seq<bool>, pos: nat)
    requires la <= lb && x < Pow2(la) && y < Pow2(lb)
    requires Spelled(x, la, bits, pos) && Spelled(y, lb, bits, pos)
    ensures y / Pow2(lb - la) == x
  {
    hide Bit, Pow2;
    TopBits(y, lb, la);
    forall i | 0 <= i < la ensures Bit(y / Pow2(lb - la), i) == Bit(x, i) {
      ShiftRightBit(y, lb - la, i);
      assert bits[pos + (la - 1 - i)] == Bit(x, i);
      assert bits[pos + (la - 1 - i)] == Bit(y, i + (lb - la));
    }
    BitsDetermine(y / Pow2(lb - la), x, la);
  }

  /** Two codes cannot stand at the same place. */
  lemma OneCodeHere(lens: seq<nat>, w: nat, a: nat, b: nat, bits: seq<bool>, pos: nat)
    requires Codable(lens, w) && CodeHere(lens, a, bits, pos) && CodeHere(lens, b, bits, pos)
    requires lens[a] <= lens[b]
    ensures a == b
  {
    CodeFits(lens, a, w);
    CodeFits(lens, b, w);
    SpelledPrefix(CodeOf(lens, a), lens[a], CodeOf(lens, b), lens[b], bits, pos);
    if a != b {
      NoCodeIsPrefix(lens, a, b);
    }
  }

  lemma {:induction false} FindsSymbol(lens: seq<nat>, w: nat, s: nat, bits: seq<bool>, pos: nat, k: nat)
    requires Codable(lens, w) && CodeHere(lens, s, bits, pos) && s < k <= |lens|
    ensures FindSymbol(lens, bits, pos, k) == Some(s)
  {
    if CodeHere(lens, k - 1, bits, pos) {
      if lens[s] <= lens[k - 1] {
        OneCodeHere(lens, w, s, k - 1, bits, pos);
      } else {
        OneCodeHere(lens, w, k - 1, s, bits, pos);
      }
    } else {
      FindsSymbol(lens, w, s, bits, pos, k - 1);
    }
  }

  /** A symbol sent with its transmitted code is decoded. */
  lemma SymbolDecodes(lens: seq<nat>, w: nat, s: nat, bits: seq<bool>, pos: nat)
    requires Codable(lens, w) && s < |lens| && lens[s] > 0
    requires At(bits, pos, CodeBits(lens, s))
    ensures DecodeSymbol(lens, bits, pos) == Some((s, pos + lens[s]))
  {
    var n, code := lens[s], CodeOf(lens, s);
    forall j | pos <= j < pos + n ensures bits[j] == Bit(code, n - 1 - (j - pos)) {
      assert bits[pos..pos + n][j - pos] == CodeBits(lens, s)[j - pos];
      ReverseBit(code, n, j - pos);
    }
    FindsSymbol(lens, w, s, bits, pos, |lens|);
  }
}
