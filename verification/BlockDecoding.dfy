/** Whole blocks: stored, fixed and dynamic segments are decoded back. */
module BlockDecoding {
  import opened Bits
  import opened Options
  import opened BitStream
  import opened KraftSums
  import opened CanonicalCode
  import Runs = CodeLengthRuns
  import opened TokenFormat
  import opened Lz77
  import opened Inflate
  import opened BlockFormat

  /** Wherever the segment stands at pos, the decoder turns out into next and stops behind it. */
  ghost predicate Decodes(segment: seq<bool>, pos: nat, out: seq<nat>, next: seq<nat>, final: bool) {
    forall bits :: At(bits, pos, segment) ==>
      DecodeBlock(bits, pos, out) == Some(BlockEnd(next, pos + |segment|, final))
  }

  // ---------- block header ----------

  lemma BlockFrom(bits: seq<bool>, pos: nat, final: bool, kind: nat, body: seq<bool>, out: seq<nat>, next: seq<nat>, p: nat)
    requires kind < 3 && At(bits, pos, [final] + (ValueBits(kind, 2) + body))
    requires kind == 0 ==> DecodeStored(bits, pos + 3, out) == Some((next, p))
    requires kind == 1 ==> DecodeData(FixedLit(), FixedDist(), bits, pos + 3, out) == Some((next, p))
    requires kind == 2 ==> DecodeDynamic(bits, pos + 3, out) == Some((next, p))
    ensures DecodeBlock(bits, pos, out) == Some(BlockEnd(next, p, final))
  {
    hide DecodeStored, DecodeData, DecodeDynamic, FixedLit, FixedDist, ValueBits;
    AtSplit(bits, pos, [final], ValueBits(kind, 2) + body);
    AtSplit(bits, pos + 1, ValueBits(kind, 2), body);
    assert Pow2(2) == 4;
    ReadsBack(bits, pos + 1, kind, 2);
    assert bits[pos..pos + 1] == [final];
    assert bits[pos] == bits[pos..pos + 1][0];
  }

  // ---------- fixed codes ----------

  /** A table that is constant from a to b contributes that many equal shares. */
  lemma {:induction false} ConstantKraft(lens: seq<nat>, a: nat, b: nat, len: nat, w: nat)
    requires a <= b <= |lens| && 0 < len <= w && forall o :: a <= o < b ==> lens[o] == len
    ensures TableKraft(lens, b, w) == TableKraft(lens, a, w) + (b - a) * Share(len, w)
    decreases b
  {
    if a < b {
      ConstantKraft(lens, a, b - 1, len, w);
      assert (b - 1 - a) * Share(len, w) + Share(len, w) == (b - a) * Share(len, w);
    }
  }

  lemma FixedCodable()
    ensures Codable(FixedLit(), 9) && Codable(FixedDist(), 5)
    ensures Codable(FixedLit(), 15) && Codable(FixedDist(), 15)
  {
    hide TableKraft;
    FixedKraft(9);
    FixedKraft(15);
    FixedDistKraft(5);
    FixedDistKraft(15);
  }

  lemma FixedKraft(w: nat)
    requires w >= 9
    ensures TableKraft(FixedLit(), 288, w) == Pow2(w)
  {
    hide TableKraft;
    EmptyKraft(FixedLit(), w);
    ConstantKraft(FixedLit(), 0, 144, 8, w);
    ConstantKraft(FixedLit(), 144, 256, 9, w);
    ConstantKraft(FixedLit(), 256, 280, 7, w);
    ConstantKraft(FixedLit(), 280, 288, 8, w);
    var q := Pow2(w - 9);
    assert Pow2(w - 8) == 2 * q && Pow2(w - 7) == 4 * q;
    Pow2Add(w - 9, 9);
    assert w - 9 + 9 == w && Pow2(9) == 512;
  }

  lemma FixedDistKraft(w: nat)
    requires w >= 5
    ensures TableKraft(FixedDist(), 32, w) == Pow2(w)
  {
    hide TableKraft;
    EmptyKraft(FixedDist(), w);
    ConstantKraft(FixedDist(), 0, 32, 5, w);
    Pow2Add(w - 5, 5);
    assert w - 5 + 5 == w && Pow2(5) == 32;
  }

  lemma EmptyKraft(lens: seq<nat>, w: nat)
    ensures TableKraft(lens, 0, w) == 0
  {
  }

  lemma FixedCodesFor(tokens: seq<nat>)
    requires AllWellPacked(tokens)
    ensures CodesFor(FixedLit(), FixedDist(), tokens)
  {
    hide Codable, WellPacked;
    FixedCodable();
    forall k | 0 <= k < |tokens| ensures Coded(FixedLit(), FixedDist(), tokens[k]) {
      FixedCoded(tokens[k]);
    }
  }

  lemma FixedCoded(token: nat)
    requires WellPacked(token)
    ensures Coded(FixedLit(), FixedDist(), token)
  {
    hide LengthCode, DistanceCode, LengthExtra, DistanceExtra;
  }

  ghost function FixedBits(tokens: seq<nat>): seq<bool>
    requires AllWellPacked(tokens)
  {
    FixedCodesFor(tokens);
    TailBits(FixedLit(), FixedDist(), tokens, 0)
  }

  lemma FixedDecodes(final: bool, tokens: seq<nat>, pos: nat, out: seq<nat>, next: seq<nat>)
    requires AllWellPacked(tokens) && Play(out, tokens) == Some(next)
    ensures Decodes([final] + (ValueBits(1, 2) + FixedBits(tokens)), pos, out, next, final)
  {
    hide DecodeBlock, DecodeData, At, CodesFor, FixedLit, FixedDist, ValueBits, TailBits, Play;
    var body := FixedBits(tokens);
    var segment := [final] + (ValueBits(1, 2) + body);
    FixedCodesFor(tokens);
    forall bits | At(bits, pos, segment)
      ensures DecodeBlock(bits, pos, out) == Some(BlockEnd(next, pos + |segment|, final))
    {
      AtSplit(bits, pos, [final], ValueBits(1, 2) + body);
      AtSplit(bits, pos + 1, ValueBits(1, 2), body);
      NothingYet([], tokens, out);
      DataDecodes(FixedLit(), FixedDist(), tokens, 0, bits, pos + 3, out, out, next);
      BlockFrom(bits, pos, final, 1, body, out, next, pos + |segment|);
    }
  }

  // ---------- dynamic codes ----------

  /** Everything a dynamic block is made of. */
  datatype Plan = Plan(g: seq<nat>, b: seq<nat>, r: seq<nat>, a: nat, runs: seq<nat>)

  ghost predicate Sound(plan: Plan, tokens: seq<nat>) {
    && 257 <= |plan.g| <= 288 && 1 <= |plan.b| <= 32 && 4 <= plan.a <= 19 && |plan.r| <= 19
    && (forall s :: 0 <= s < |plan.r| ==> plan.r[s] < 8) && Codable(plan.r, 7)
    && (forall s :: 0 <= s < 19 ==> plan.a <= PlaceOf(s) ==> LenAt(plan.r, s) == 0)
    && RunsCoded(Padded(plan.r), plan.runs) && Runs.Expand(plan.runs) == Some(plan.g + plan.b)
    && CodesFor(plan.g, plan.b, tokens)
  }

  ghost function DynamicBits(plan: Plan, tokens: seq<nat>): seq<bool>
    requires Sound(plan, tokens)
  {
    ValueBits(|plan.g| - 257, 5) + (ValueBits(|plan.b| - 1, 5) + (ValueBits(plan.a - 4, 4)
      + (OrderBits(plan.r, plan.a) + (RunsTail(Padded(plan.r), plan.runs, 0) + TailBits(plan.g, plan.b, tokens, 0)))))
  }

  lemma SplitSix(bits: seq<bool>, pos: nat, a: seq<bool>, b: seq<bool>, c: seq<bool>, d: seq<bool>, e: seq<bool>, f: seq<bool>)
    requires At(bits, pos, a + (b + (c + (d + (e + f)))))
    ensures At(bits, pos, a) && At(bits, pos + |a|, b) && At(bits, pos + |a| + |b|, c)
    ensures At(bits, pos + |a| + |b| + |c|, d) && At(bits, pos + |a| + |b| + |c| + |d|, e)
    ensures At(bits, pos + |a| + |b| + |c| + |d| + |e|, f)
  {
    hide At;
    AtSplit(bits, pos, a, b + (c + (d + (e + f))));
    AtSplit(bits, pos + |a|, b, c + (d + (e + f)));
    AtSplit(bits, pos + |a| + |b|, c, d + (e + f));
    AtSplit(bits, pos + |a| + |b| + |c|, d, e + f);
    AtSplit(bits, pos + |a| + |b| + |c| + |d|, e, f);
  }

  /** The three counts and the code length code are read back. */
  lemma HeaderReads(plan: Plan, tokens: seq<nat>, bits: seq<bool>, pos: nat)
    requires Sound(plan, tokens) && At(bits, pos, DynamicBits(plan, tokens))
    ensures pos + 14 + 3 * plan.a <= |bits|
    ensures BitsValue(bits[pos..pos + 5]) + 257 == |plan.g|
    ensures BitsValue(bits[pos + 5..pos + 10]) + 1 == |plan.b|
    ensures BitsValue(bits[pos + 10..pos + 14]) + 4 == plan.a
    ensures ReadOrder(bits, pos + 14, plan.a) == Padded(plan.r)
    ensures var lengths := RunsTail(Padded(plan.r), plan.runs, 0);
            && At(bits, pos + 14 + 3 * plan.a, lengths)
            && At(bits, pos + 14 + 3 * plan.a + |lengths|, TailBits(plan.g, plan.b, tokens, 0))
            && |DynamicBits(plan, tokens)| == 14 + 3 * plan.a + |lengths| + |TailBits(plan.g, plan.b, tokens, 0)|
  {
    hide At, RunsTail, TailBits, Codable, CodesFor, RunsCoded, Runs.Expand, ValueBits, OrderBits;
    SplitSix(bits, pos, ValueBits(|plan.g| - 257, 5), ValueBits(|plan.b| - 1, 5), ValueBits(plan.a - 4, 4),
             OrderBits(plan.r, plan.a), RunsTail(Padded(plan.r), plan.runs, 0), TailBits(plan.g, plan.b, tokens, 0));
    assert Pow2(5) == 32 && Pow2(4) == 16;
    ReadsBack(bits, pos, |plan.g| - 257, 5);
    ReadsBack(bits, pos + 5, |plan.b| - 1, 5);
    ReadsBack(bits, pos + 10, plan.a - 4, 4);
    OrderBitsLength(plan.r, plan.a);
    OrderDecodes(plan.r, plan.a, bits, pos + 14);
    assert ReadOrder(bits, pos + 14, plan.a) == Padded(plan.r);
  }

  lemma DynamicBodyDecodes(plan: Plan, tokens: seq<nat>, bits: seq<bool>, pos: nat, out: seq<nat>, next: seq<nat>)
    requires Sound(plan, tokens) && At(bits, pos, DynamicBits(plan, tokens)) && Play(out, tokens) == Some(next)
    ensures DecodeDynamic(bits, pos, out) == Some((next, pos + |DynamicBits(plan, tokens)|))
  {
    hide At, RunsTail, TailBits, Codable, CodesFor, RunsCoded, Runs.Expand, DynamicBits, ReadOrder, Padded,
         DecodeLengths, DecodeData, Play;
    HeaderReads(plan, tokens, bits, pos);
    PaddedCodes(plan.r);
    CodesAreCodable(plan.g, plan.b, tokens);
    var lengths := RunsTail(Padded(plan.r), plan.runs, 0);
    var p := pos + 14 + 3 * plan.a;
    NothingYet(plan.runs, tokens, out);
    LengthsDecode(Padded(plan.r), plan.runs, 0, bits, p, [], plan.g + plan.b);
    DataDecodes(plan.g, plan.b, tokens, 0, bits, p + |lengths|, out, out, next);
    assert (plan.g + plan.b)[..|plan.g|] == plan.g && (plan.g + plan.b)[|plan.g|..] == plan.b;
  }

  lemma CodesAreCodable(lit: seq<nat>, dist: seq<nat>, tokens: seq<nat>)
    requires CodesFor(lit, dist, tokens)
    ensures Codable(lit, 15) && Codable(dist, 15)
  {
  }

  lemma NothingYet(runs: seq<nat>, tokens: seq<nat>, out: seq<nat>)
    ensures Runs.Expand(runs[..0]) == Some([]) && Play(out, tokens[..0]) == Some(out)
  {
  }

  lemma DynamicDecodes(final: bool, plan: Plan, tokens: seq<nat>, pos: nat, out: seq<nat>, next: seq<nat>)
    requires Sound(plan, tokens) && Play(out, tokens) == Some(next)
    ensures Decodes([final] + (ValueBits(2, 2) + DynamicBits(plan, tokens)), pos, out, next, final)
  {
    hide DecodeBlock, DecodeDynamic, At, Sound, DynamicBits, ValueBits, Play;
    var body := DynamicBits(plan, tokens);
    var segment := [final] + (ValueBits(2, 2) + body);
    forall bits | At(bits, pos, segment)
      ensures DecodeBlock(bits, pos, out) == Some(BlockEnd(next, pos + |segment|, final))
    {
      AtSplit(bits, pos, [final], ValueBits(2, 2) + body);
      AtSplit(bits, pos + 1, ValueBits(2, 2), body);
      DynamicBodyDecodes(plan, tokens, bits, pos + 3, out, next);
      BlockFrom(bits, pos, final, 2, body, out, next, pos + |segment|);
    }
  }

  // ---------- stored blocks ----------

  function Zeros(n: nat): seq<bool> {
    seq(n, _ => false)
  }

  function ByteBits(data: seq<nat>): seq<bool> {
    if data == [] then [] else ByteBits(data[..|data| - 1]) + ValueBits(data[|data| - 1], 8)
  }

  /** Zero bits up to the byte boundary behind a three-bit header at pos. */
  function Padding(pos: nat): nat {
    (pos + 3 + 7) / 8 * 8 - (pos + 3)
  }

  function StoredBits(pos: nat, data: seq<nat>): seq<bool>
    requires |data| <= 65535
  {
    Zeros(Padding(pos)) + (ValueBits(|data|, 16) + (ValueBits(65535 - |data|, 16) + ByteBits(data)))
  }

  lemma {:induction false} ByteBitsLength(data: seq<nat>)
    ensures |ByteBits(data)| == 8 * |data|
  {
    if data != [] {
      ByteBitsLength(data[..|data| - 1]);
    }
  }

  lemma AtEnd(bits: seq<bool>, pos: nat)
    requires At(bits, pos, [])
    ensures pos <= |bits|
  {
  }

  lemma {:induction false} BytesRead(data: seq<nat>, bits: seq<bool>, pos: nat)
    requires At(bits, pos, ByteBits(data)) && forall k :: 0 <= k < |data| ==> data[k] < 256
    ensures pos + 8 * |data| <= |bits| && ReadBytes(bits, pos, |data|) == data
  {
    hide At, ValueBits, BitsValue;
    ByteBitsLength(data);
    if data == [] {
      AtEnd(bits, pos);
    } else {
      var n := |data| - 1;
      var before, last := data[..n], data[n];
      ByteBitsLength(before);
      AtSplit(bits, pos, ByteBits(before), ValueBits(last, 8));
      assert Pow2(8) == 256;
      ReadsBack(bits, pos + 8 * n, last, 8);
      BytesRead(before, bits, pos);
    }
  }

  lemma StoredBodyDecodes(data: seq<nat>, bits: seq<bool>, pos: nat, out: seq<nat>)
    requires |data| <= 65535 && (forall k :: 0 <= k < |data| ==> data[k] < 256)
    requires At(bits, pos + 3, StoredBits(pos, data))
    ensures DecodeStored(bits, pos + 3, out) == Some((out + data, pos + 3 + |StoredBits(pos, data)|))
  {
    hide At, ValueBits, ByteBits, ReadBytes;
    var z, a, b, c := Zeros(Padding(pos)), ValueBits(|data|, 16), ValueBits(65535 - |data|, 16), ByteBits(data);
    var p := pos + 3 + Padding(pos);
    AtSplit(bits, pos + 3, z, a + (b + c));
    AtSplit(bits, p, a, b + c);
    AtSplit(bits, p + 16, b, c);
    assert Pow2(8) == 256;
    Pow2Add(8, 8);
    ReadsBack(bits, p, |data|, 16);
    ReadsBack(bits, p + 16, 65535 - |data|, 16);
    ByteBitsLength(data);
    BytesRead(data, bits, p + 32);
  }

  lemma StoredDecodes(final: bool, data: seq<nat>, pos: nat, out: seq<nat>)
    requires |data| <= 65535 && forall k :: 0 <= k < |data| ==> data[k] < 256
    ensures Decodes([final] + (ValueBits(0, 2) + StoredBits(pos, data)), pos, out, out + data, final)
  {
    hide DecodeBlock, DecodeStored, At, StoredBits, ValueBits;
    var body := StoredBits(pos, data);
    var segment := [final] + (ValueBits(0, 2) + body);
    forall bits | At(bits, pos, segment)
      ensures DecodeBlock(bits, pos, out) == Some(BlockEnd(out + data, pos + |segment|, final))
    {
      AtSplit(bits, pos, [final], ValueBits(0, 2) + body);
      AtSplit(bits, pos + 1, ValueBits(0, 2), body);
      StoredBodyDecodes(data, bits, pos, out);
      BlockFrom(bits, pos, final, 0, body, out, out + data, pos + |segment|);
    }
  }
}
