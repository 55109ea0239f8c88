/** Writing one block: plan the dynamic form, compare costs, write the cheapest form. */
module BlockWriter {
  import opened Bits
  import Huffman
  import opened BitReversal
  import opened Options
  import opened BitStream
  import opened HuffmanLengths
  import opened HuffmanCoder
  import opened KraftSums
  import opened CanonicalCode
  import Runs = CodeLengthRuns
  import opened TokenFormat
  import opened Lz77
  import opened Inflate
  import opened BlockFormat
  import opened BlockDecoding
  import opened BlockCosts
  import opened BlockPlanning

  ghost predicate ReverseTable(ti: array<nat>)
    reads ti
  {
    ti.Length == 32768 && forall x :: 0 <= x < 32768 ==> ti[x] == Reverse(x, 15)
  }

  /** The codes to write for these lengths. */
  ghost predicate CodeTable(lens: seq<nat>, d: array<nat>)
    reads d
  {
    d.Length == |lens| && forall o :: 0 <= o < |lens| ==> d[o] == Transmitted(lens, o)
  }

  lemma TransmittedFits(lens: seq<nat>, s: nat, w: nat)
    requires Codable(lens, w) && s < |lens|
    ensures Transmitted(lens, s) < Pow2(lens[s])
  {
    if lens[s] > 0 {
      ReverseBound(CodeOf(lens, s), lens[s]);
    }
  }

  // ---------- symbols ----------

  /** Write the code of one literal/length or distance symbol. */
  method PutCode(wr: BitWriter, lens: seq<nat>, d: array<nat>, s: nat)
    requires wr.Valid() && wr.a != d && Codable(lens, 15) && CodeTable(lens, d) && s < |lens|
    modifies wr, wr.a
    ensures wr.Valid() && wr.bits == old(wr.bits) + CodeBits(lens, s)
  {
    TransmittedFits(lens, s, 15);
    wr.PutLong(d[s], lens[s]);
  }

  lemma ExtraFits(token: nat)
    requires WellPacked(token) && IsMatch(token)
    ensures LengthExtra(token) < Pow2(LenBits(LengthCode(token))) && LenBits(LengthCode(token)) <= 9
    ensures DistanceExtra(token) < Pow2(DistBits(DistanceCode(token))) && DistBits(DistanceCode(token)) <= 17
    ensures LengthCode(token) <= 7 ==> LenBits(LengthCode(token)) == 0
    ensures DistanceCode(token) <= 3 ==> DistBits(DistanceCode(token)) == 0
  {
    ExtraAtMost(LengthCode(token), DistanceCode(token));
  }

  lemma NoBits(v: nat)
    ensures ValueBits(v, 0) == []
  {
  }

  /** Write one packed token. */
  method PutToken(wr: BitWriter, lit: seq<nat>, d: array<nat>, dist: seq<nat>, h: array<nat>, token: nat)
    requires wr.Valid() && wr.a != d && wr.a != h && CodeTable(lit, d) && CodeTable(dist, h)
    requires Codable(lit, 15) && Codable(dist, 15) && Coded(lit, dist, token)
    modifies wr, wr.a
    ensures wr.Valid() && wr.bits == old(wr.bits) + TokenBits(lit, dist, token)
  {
    hide ValueBits, CodeBits, Codable, MatchRest;
    if token > 255 {
      ghost var before := wr.bits;
      PutCode(wr, lit, d, LengthCode(token) + 257);
      PutMatchRest(wr, dist, h, token, lit);
      assert before + CodeBits(lit, LengthCode(token) + 257) + MatchRest(dist, token)
          == before + (CodeBits(lit, LengthCode(token) + 257) + MatchRest(dist, token));
    } else {
      PutCode(wr, lit, d, token);
    }
  }

  /** Length extra bits, distance code, distance extra bits. */
  method PutMatchRest(wr: BitWriter, dist: seq<nat>, h: array<nat>, token: nat, ghost lit: seq<nat>)
    requires wr.Valid() && wr.a != h && CodeTable(dist, h) && Codable(dist, 15) && Coded(lit, dist, token) && IsMatch(token)
    modifies wr, wr.a
    ensures wr.Valid() && wr.bits == old(wr.bits) + MatchRest(dist, token)
  {
    hide ValueBits, CodeBits, Codable, LengthCode, DistanceCode, LengthExtra, DistanceExtra, LenBits, DistBits;
    ghost var before := wr.bits;
    ExtraFits(token);
    var j := LengthCode(token);
    if j > 7 {
      wr.PutShort(LengthExtra(token), LenBits(j));
    } else {
      NoBits(LengthExtra(token));
    }
    var y := DistanceCode(token);
    PutCode(wr, dist, h, y);
    if y > 3 {
      wr.PutLong(DistanceExtra(token), DistBits(y));
    } else {
      NoBits(DistanceExtra(token));
    }
    ThreeParts(before, ValueBits(LengthExtra(token), LenBits(j)), CodeBits(dist, y), ValueBits(DistanceExtra(token), DistBits(y)));
  }

  lemma ThreeParts(before: seq<bool>, a: seq<bool>, b: seq<bool>, c: seq<bool>)
    ensures before + a + b + c == before + (a + (b + c))
  {
  }

  /** Write the tokens and the end of the block. */
  method PutTokens(wr: BitWriter, lit: seq<nat>, d: array<nat>, dist: seq<nat>, h: array<nat>, tokens: seq<nat>)
    requires wr.Valid() && wr.a != d && wr.a != h && CodeTable(lit, d) && CodeTable(dist, h)
    requires CodesFor(lit, dist, tokens)
    modifies wr, wr.a
    ensures wr.Valid() && wr.bits == old(wr.bits) + TailBits(lit, dist, tokens, 0)
  {
    hide CodeBits, Codable, TokenBits, Coded;
    ghost var all := wr.bits + TailBits(lit, dist, tokens, 0);
    for p := 0 to |tokens|
      invariant wr.Valid() && wr.bits + TailBits(lit, dist, tokens, p) == all
    {
      ghost var before := wr.bits;
      PutToken(wr, lit, d, dist, h, tokens[p]);
      Associate(before, TokenBits(lit, dist, tokens[p]), TailBits(lit, dist, tokens, p + 1));
    }
    PutCode(wr, lit, d, END_OF_BLOCK);
  }

  lemma Associate(x: seq<bool>, a: seq<bool>, b: seq<bool>)
    ensures x + a + b == x + (a + b)
  {
  }

  // ---------- the dynamic header ----------

  /** The lengths of the code length code, in their transmission order. */
  method PutOrder(wr: BitWriter, r: seq<nat>, a: nat)
    requires wr.Valid() && a <= 19 && forall s :: 0 <= s < |r| ==> r[s] < 8
    modifies wr, wr.a
    ensures wr.Valid() && wr.bits == old(wr.bits) + OrderBits(r, a)
  {
    ghost var before := wr.bits;
    for p := 0 to a
      invariant wr.Valid() && wr.bits == before + OrderBits(r, p)
    {
      assert Pow2(3) == 8;
      wr.PutShort(LenAt(r, OrderAt(p)), 3);
    }
  }

  /** One coded run: its symbol and the extra bits that go with it. */
  method PutRun(wr: BitWriter, r: seq<nat>, d: array<nat>, m: nat)
    requires wr.Valid() && wr.a != d && |r| <= 19 && Codable(r, 7) && CodeTable(r, d) && RunCoded(Padded(r), m)
    modifies wr, wr.a
    ensures wr.Valid() && wr.bits == old(wr.bits) + RunBits(Padded(r), m)
  {
    var j := Runs.Symbol(m);
    RunFits(r, m);
    wr.PutShort(d[j], r[j]);
    if j > 15 {
      wr.PutShort(Runs.Extra(m), Runs.ExtraWidth(m));
    }
  }

  lemma RunFits(r: seq<nat>, m: nat)
    requires |r| <= 19 && Codable(r, 7) && RunCoded(Padded(r), m)
    ensures var j := Runs.Symbol(m);
            && j < |r| && Transmitted(r, j) < Pow2(r[j]) && r[j] <= 9
            && CodeBits(Padded(r), j) == ValueBits(Transmitted(r, j), r[j])
            && Runs.Extra(m) < Pow2(Runs.ExtraWidth(m)) && Runs.ExtraWidth(m) == Runs.WidthOf(j) <= 9
            && (j <= 15 ==> ValueBits(Runs.Extra(m), Runs.WidthOf(j)) == [])
  {
    hide Transmitted;
    TransmittedFits(r, Runs.Symbol(m), 7);
    PaddedCodes(r);
  }

  method PutRuns(wr: BitWriter, r: seq<nat>, d: array<nat>, runs: seq<nat>)
    requires wr.Valid() && wr.a != d && |r| <= 19 && Codable(r, 7) && CodeTable(r, d) && RunsCoded(Padded(r), runs)
    modifies wr, wr.a
    ensures wr.Valid() && wr.bits == old(wr.bits) + RunsTail(Padded(r), runs, 0)
  {
    hide CodeBits, Codable, RunBits, RunCoded, Padded;
    ghost var all := wr.bits + RunsTail(Padded(r), runs, 0);
    for p := 0 to |runs|
      invariant wr.Valid() && wr.bits + RunsTail(Padded(r), runs, p) == all
    {
      ghost var before := wr.bits;
      PutRun(wr, r, d, runs[p]);
      Associate(before, RunBits(Padded(r), runs[p]), RunsTail(Padded(r), runs, p + 1));
    }
  }

  // ---------- the three forms ----------

  lemma SmallWidths()
    ensures Pow2(1) == 2 && Pow2(2) == 4 && Pow2(4) == 16 && Pow2(5) == 32
  {
  }

  lemma SixParts(x: seq<bool>, a: seq<bool>, b: seq<bool>, c: seq<bool>, d: seq<bool>, e: seq<bool>, f: seq<bool>)
    ensures x + a + b + c + d + e + f == x + (a + (b + (c + (d + (e + f)))))
  {
  }

  /** Body of a dynamic block; b is the distance code before it was given its minimum length of one. */
  method PutDynamic(wr: BitWriter, plan: Plan, tokens: seq<nat>, b: seq<nat>, d: array<nat>, h: array<nat>, cd: array<nat>)
    requires wr.Valid() && wr.a != d && wr.a != h && wr.a != cd
    requires Sound(plan, tokens) && CodesFor(plan.g, b, tokens) && plan.b == Runs.Trim(b)
    requires CodeTable(plan.g, d) && CodeTable(b, h) && CodeTable(plan.r, cd)
    requires TailBits(plan.g, b, tokens, 0) == TailBits(plan.g, plan.b, tokens, 0)
    modifies wr, wr.a
    ensures wr.Valid() && wr.bits == old(wr.bits) + DynamicBits(plan, tokens)
  {
    hide ValueBits, Codable, TailBits, RunsTail, OrderBits, Padded, RunsCoded, CodesFor, Runs.Expand, Runs.Trim;
    ghost var before := wr.bits;
    SmallWidths();
    wr.PutShort(|plan.g| - 257, 5);
    wr.PutShort(|plan.b| - 1, 5);
    wr.PutShort(plan.a - 4, 4);
    PutOrder(wr, plan.r, plan.a);
    PutRuns(wr, plan.r, cd, plan.runs);
    PutTokens(wr, plan.g, d, b, h, tokens);
    SixParts(before, ValueBits(|plan.g| - 257, 5), ValueBits(|plan.b| - 1, 5), ValueBits(plan.a - 4, 4),
             OrderBits(plan.r, plan.a), RunsTail(Padded(plan.r), plan.runs, 0), TailBits(plan.g, plan.b, tokens, 0));
  }

  /** The distance code before trimming writes the same bits. */
  lemma {:induction false} SameTail(g: seq<nat>, freq: seq<nat>, b: seq<nat>, tokens: seq<nat>, k: nat)
    requires CodesUsed(freq, b) && CodesFor(g, b, tokens) && CodesFor(g, Runs.Trim(b), tokens) && k <= |tokens|
    ensures TailBits(g, b, tokens, k) == TailBits(g, Runs.Trim(b), tokens, k)
    decreases |tokens| - k
  {
    if k < |tokens| {
      SameTail(g, freq, b, tokens, k + 1);
      TrimOfCode(freq, b);
      assert Coded(g, b, tokens[k]);
    }
  }

  // ---------- stored blocks ----------

  lemma TwoBytes(v: nat)
    requires v < 65536
    ensures ValueBits(v % 256, 8) + ValueBits(v / 256, 8) == ValueBits(v, 16)
  {
    assert Pow2(8) == 256;
    forall i | 0 <= i < 16
      ensures (ValueBits(v % 256, 8) + ValueBits(v / 256, 8))[i] == ValueBits(v, 16)[i]
    {
      ModBit(v, 8, i);
      if i >= 8 {
        ShiftRightBit(v, 8, i - 8);
      }
    }
  }

  lemma Complement(v: nat)
    requires v < 65536
    ensures (65535 - v) % 256 == 255 - v % 256 && (65535 - v) / 256 == 255 - v / 256
  {
    DivModUnique(65535 - v, 256, 255 - v / 256, 255 - v % 256);
  }

  lemma HeaderZeros(pos: nat)
    ensures ValueBits(0, 2) + Zeros(Padding(pos)) == seq(2 + Padding(pos), _ => false)
    ensures (pos + 1 + 2 + Padding(pos)) % 8 == 0
    ensures 2 + Padding(pos) == (pos + 1 + 2 + 7) / 8 * 8 - (pos + 1)
  {
    ZeroBit(0);
    ZeroBit(1);
  }

  method PutBytes(wr: BitWriter, data: seq<nat>)
    requires wr.Valid() && wr.l % 8 == 0 && forall k :: 0 <= k < |data| ==> data[k] < 256
    modifies wr, wr.a
    ensures wr.Valid() && wr.bits == old(wr.bits) + ByteBits(data)
  {
    ghost var before := wr.bits;
    assert data[..0] == [];
    for o := 0 to |data|
      invariant wr.Valid() && wr.l % 8 == 0 && wr.bits == before + ByteBits(data[..o])
    {
      assert data[..o + 1][..o] == data[..o];
      wr.PutByte(data[o]);
    }
    assert data[..|data|] == data;
  }

  /** Type bits, padding, length, complement and the bytes; pos is where the block started. */
  method PutStored(wr: BitWriter, data: seq<nat>, ghost pos: nat)
    requires wr.Valid() && wr.l == pos + 1 && |data| <= 65535 && forall k :: 0 <= k < |data| ==> data[k] < 256
    modifies wr, wr.a
    ensures wr.Valid() && wr.bits == old(wr.bits) + (ValueBits(0, 2) + StoredBits(pos, data))
  {
    hide ValueBits, ByteBits;
    ghost var before := wr.bits;
    var r := |data|;
    HeaderZeros(pos);
    wr.Skip((wr.l + 2 + 7) / 8 * 8 - wr.l);
    wr.PutByte(r % 256);
    wr.PutByte(r / 256);
    wr.PutByte(255 - r % 256);
    wr.PutByte(255 - r / 256);
    PutBytes(wr, data);
    TwoBytes(r);
    Complement(r);
    TwoBytes(65535 - r);
    StoredParts(before, ValueBits(0, 2), Zeros(Padding(pos)), ValueBits(r % 256, 8), ValueBits(r / 256, 8),
                ValueBits(255 - r % 256, 8), ValueBits(255 - r / 256, 8), ByteBits(data));
  }

  lemma StoredParts(x: seq<bool>, a: seq<bool>, z: seq<bool>, b: seq<bool>, c: seq<bool>,
                    d: seq<bool>, e: seq<bool>, f: seq<bool>)
    ensures x + (a + z) + b + c + d + e + f == x + (a + (z + ((b + c) + ((d + e) + f))))
  {
  }

  // ---------- planning ----------

  lemma TableRequirements(tokens: seq<nat>, lit: seq<nat>, dist: seq<nat>)
    requires Frequencies(tokens, lit, dist) && |tokens| <= CAPACITY
    ensures Sum(lit, |lit|) <= Huffman.SENTINEL_WEIGHT && |Used(lit, |lit|)| <= Pow2(15)
    ensures Sum(dist, |dist|) <= Huffman.SENTINEL_WEIGHT && |Used(dist, |dist|)| <= Pow2(15)
  {
    hide Sum, Used, LitTable, DistTable;
    TableSums(tokens);
    TableSizes(tokens);
    SumBump(LitTable(tokens), 288, END_OF_BLOCK);
    UsedFacts(lit, |lit|);
    UsedFacts(dist, |dist|);
    Fifteen();
  }

  lemma RunRequirements(runs: seq<nat>)
    requires (forall k :: 0 <= k < |runs| ==> Runs.ProperRun(runs[k])) && |runs| <= 1000
    ensures Sum(RunTable(runs), 19) <= Huffman.SENTINEL_WEIGHT && |Used(RunTable(runs), 19)| <= Pow2(7)
  {
    RunTableSum(runs);
    UsedFacts(RunTable(runs), 19);
    assert Pow2(7) == 128;
  }

  /** Longest lengths of the three codes. */
  datatype Longest = Longest(g: nat, b: nat, r: nat)

  ghost predicate LongestOf(plan: Plan, b: seq<nat>, longest: Longest) {
    && longest.g <= 15 && Codable(plan.g, longest.g)
    && longest.b <= 15 && Codable(b, longest.b)
    && longest.r <= 15 && Codable(plan.r, longest.r)
  }

  /** The code for the run symbols of both tables. */
  method CodeForRuns(i: seq<nat>, j: seq<nat>) returns (r: seq<nat>, o: nat)
    requires |i + j| <= 1000 && forall k :: 0 <= k < |i + j| ==> Runs.ProperRun((i + j)[k])
    requires forall k :: 0 <= k < |i| ==> Runs.ProperRun(i[k])
    requires forall k :: 0 <= k < |j| ==> Runs.ProperRun(j[k])
    ensures CodesUsed(RunTable(i + j), r) && |r| <= 19 && Codable(r, 7) && o <= 7 && Codable(r, o)
    ensures forall s :: 0 <= s < |r| ==> r[s] <= 7
  {
    hide LimitedCode, Codable, Runs.ProperRun, CodesUsed;
    RunRequirements(i + j);
    var counts := new nat[19](_ => 0);
    assert counts[..] == RunTable([]);
    CountRuns(counts, i, []);
    assert [] + i == i;
    CountRuns(counts, j, i);
    r, o := CodeLengths(counts[..], 7);
    LimitedIsCodable(RunTable(i + j), r, o, 7);
    LimitedUsed(RunTable(i + j), r, o, 7);
  }

  /** Code lengths for both alphabets, their run-length form, and the code for that. */
  method MakePlan(tokens: seq<nat>, lit: seq<nat>, dist: seq<nat>) returns (plan: Plan, b: seq<nat>, longest: Longest)
    requires Frequencies(tokens, lit, dist) && |tokens| <= CAPACITY
    ensures Planned(plan, tokens, lit, dist, b) && LongestOf(plan, b, longest)
  {
    hide Frequencies, LimitedCode, Codable, Runs.Written;
    TableRequirements(tokens, lit, dist);
    var g, m := CodeLengths(lit, 15);
    var b', s := CodeLengths(dist, 15);
    b := b';
    LimitedIsCodable(lit, g, m, 15);
    LimitedIsCodable(dist, b, s, 15);
    LengthsBelow(tokens, lit, dist, g, m, b, s);
    var i, e := Runs.EncodeRuns(g);
    var j, k := Runs.EncodeRuns(b);
    RunsBelow(i, j, g, b);
    var r, o := CodeForRuns(i, j);
    var a := CountOrdered(r);
    plan := Plan(g, Runs.Trim(b), r, a, i + j);
    longest := Longest(m, s, o);
    PlanIsSound(plan, tokens, lit, dist, b, i, j);
  }

  lemma LimitedUsed(freq: seq<nat>, lens: seq<nat>, maxLen: nat, t: nat)
    requires LimitedCode(freq, lens, maxLen, t)
    ensures CodesUsed(freq, lens) && |lens| <= |freq| && forall s :: 0 <= s < |lens| ==> lens[s] <= t
  {
  }

  lemma LengthsBelow(tokens: seq<nat>, lit: seq<nat>, dist: seq<nat>, g: seq<nat>, m: nat, b: seq<nat>, s: nat)
    requires Frequencies(tokens, lit, dist) && LimitedCode(lit, g, m, 15) && LimitedCode(dist, b, s, 15)
    ensures CodesUsed(lit, g) && CodesUsed(dist, b) && |g| <= 288 && |b| <= 32
    ensures (forall k :: 0 <= k < |g| ==> g[k] < 16) && (forall k :: 0 <= k < |b| ==> b[k] < 16)
  {
    LimitedUsed(lit, g, m, 15);
    LimitedUsed(dist, b, s, 15);
  }

  lemma RunsBelow(i: seq<nat>, j: seq<nat>, g: seq<nat>, b: seq<nat>)
    requires Runs.Written(i, Runs.Trim(g)) && Runs.Written(j, Runs.Trim(b)) && |g| <= 288 && |b| <= 32
    ensures |i + j| <= 1000 && forall k :: 0 <= k < |i + j| ==> Runs.ProperRun((i + j)[k])
    ensures forall k :: 0 <= k < |i| ==> Runs.ProperRun(i[k])
    ensures forall k :: 0 <= k < |j| ==> Runs.ProperRun(j[k])
  {
    Runs.TrimFacts(g);
    Runs.TrimFacts(b);
  }

  // ---------- choosing the form ----------

  /** Bits taken by symbols of these frequencies with codes of these lengths. */
  method WeighedBits(freq: seq<nat>, lens: seq<nat>) returns (n: nat)
    requires |lens| <= |freq|
    ensures n == Dot(freq, lens, |lens|)
  {
    n := 0;
    for r := 0 to |lens|
      invariant n == Dot(freq, lens, r)
    {
      n := n + freq[r] * lens[r];
    }
  }

  /** The costs compared: the fixed and the dynamic body, to the bit. */
  method Costs(b: Block, plan: Plan, lit: seq<nat>, dist: seq<nat>, dl: seq<nat>) returns (fixed: nat, dynamic: nat)
    requires Planned(plan, b.tokens, lit, dist, dl) && Tally(b.tokens, b.litFreq, b.distFreq, b.extraBits)
    ensures fixed == |FixedBits(b.tokens)| && dynamic == |DynamicBits(plan, b.tokens)|
  {
    hide LitTable, DistTable, RunTable, Dot, ExtraTotal, Codable, CodesFor, RunsCoded, Runs.Expand, DynamicBits, FixedBits;
    CostFormulas(b, plan, lit, dist, dl);
    var t := RunTable(plan.runs);
    var f1 := WeighedBits(lit, FixedLit());
    var f2 := WeighedBits(dist, FixedDist());
    fixed := f1 + f2 + b.extraBits;
    var d1 := WeighedBits(lit, plan.g);
    var d2 := WeighedBits(dist, dl);
    var d3 := WeighedBits(t, plan.r);
    dynamic := d1 + d2 + b.extraBits + 14 + 3 * plan.a + d3 + ExtraOfRuns(t);
  }

  lemma CostFormulas(b: Block, plan: Plan, lit: seq<nat>, dist: seq<nat>, dl: seq<nat>)
    requires Planned(plan, b.tokens, lit, dist, dl) && Tally(b.tokens, b.litFreq, b.distFreq, b.extraBits)
    ensures |lit| == 288 && |dist| == 32 && |plan.g| <= 288 && |dl| <= 32 && |plan.r| <= 19
    ensures |FixedLit()| == 288 && |FixedDist()| == 32 && |RunTable(plan.runs)| == 19
    ensures |FixedBits(b.tokens)| == Dot(lit, FixedLit(), 288) + Dot(dist, FixedDist(), 32) + b.extraBits
    ensures var t := RunTable(plan.runs);
            |DynamicBits(plan, b.tokens)|
            == Dot(lit, plan.g, |plan.g|) + Dot(dist, dl, |dl|) + b.extraBits
               + 14 + 3 * plan.a + Dot(t, plan.r, |plan.r|) + ExtraOfRuns(t)
  {
    hide LitTable, DistTable, RunTable, Dot, ExtraTotal, DynamicBits, FixedBits, Planned, Tally, FixedLit, FixedDist, ExtraOfRuns, Sound, CodesUsed;
    DynamicFormulas(b, plan, lit, dist, dl);
    PlannedSizes(b, plan, lit, dist, dl);
    FixedFormula(b.tokens, lit, dist);
  }

  lemma FixedFormula(tokens: seq<nat>, lit: seq<nat>, dist: seq<nat>)
    requires AllWellPacked(tokens) && dist == DistTable(tokens)
    requires lit == LitTable(tokens)[END_OF_BLOCK := LitTable(tokens)[END_OF_BLOCK] + 1]
    ensures |FixedBits(tokens)| == Dot(lit, FixedLit(), 288) + Dot(dist, FixedDist(), 32) + ExtraTotal(tokens)
  {
    hide LitTable, DistTable, Dot, ExtraTotal, FixedBits, FixedLit, FixedDist;
    FixedCost(tokens);
  }

  lemma DynamicFormulas(b: Block, plan: Plan, lit: seq<nat>, dist: seq<nat>, dl: seq<nat>)
    requires Planned(plan, b.tokens, lit, dist, dl) && Tally(b.tokens, b.litFreq, b.distFreq, b.extraBits)
    ensures |lit| == 288 && |dist| == 32 && |plan.g| <= 288 && |dl| <= 32 && |plan.r| <= 19 && |RunTable(plan.runs)| == 19
    ensures Sound(plan, b.tokens)
    ensures var t := RunTable(plan.runs);
            |DynamicBits(plan, b.tokens)|
            == Dot(lit, plan.g, |plan.g|) + Dot(dist, dl, |dl|) + b.extraBits
               + 14 + 3 * plan.a + Dot(t, plan.r, |plan.r|) + ExtraOfRuns(t)
  {
    hide LitTable, DistTable, RunTable, Dot, ExtraTotal, DynamicBits, Planned, Sound, Tally, CodesUsed, ExtraOfRuns, Runs.Trim;
    PlannedSizes(b, plan, lit, dist, dl);
    DynamicFormula(b.tokens, plan, lit, dist, dl);
  }

  lemma DynamicFormula(tokens: seq<nat>, plan: Plan, lit: seq<nat>, dist: seq<nat>, dl: seq<nat>)
    requires Sound(plan, tokens) && AllWellPacked(tokens) && CodesUsed(dist, dl) && plan.b == Runs.Trim(dl)
    requires lit == LitTable(tokens)[END_OF_BLOCK := LitTable(tokens)[END_OF_BLOCK] + 1] && dist == DistTable(tokens)
    ensures |lit| == 288 && |dist| == 32 && |plan.g| <= 288 && |dl| <= 32 && |plan.r| <= 19 && |RunTable(plan.runs)| == 19
    ensures var t := RunTable(plan.runs);
            |DynamicBits(plan, tokens)|
            == Dot(lit, plan.g, |plan.g|) + Dot(dist, dl, |dl|) + ExtraTotal(tokens)
               + 14 + 3 * plan.a + Dot(t, plan.r, |plan.r|) + ExtraOfRuns(t)
  {
    hide RunTable, Dot, ExtraTotal, Codable, CodesFor, RunsCoded, Runs.Expand, DynamicBits, Padded, CodesUsed, ExtraOfRuns,
         Runs.Trim;
    TrimmedDot(dist, dl);
    DynamicCost(plan, tokens);
    RunTableSize(plan.runs);
    PaddedDot(RunTable(plan.runs), plan.r, 19);
  }

  lemma PlannedSizes(b: Block, plan: Plan, lit: seq<nat>, dist: seq<nat>, dl: seq<nat>)
    requires Planned(plan, b.tokens, lit, dist, dl) && Tally(b.tokens, b.litFreq, b.distFreq, b.extraBits)
    ensures |FixedLit()| == 288 && |FixedDist()| == 32
    ensures AllWellPacked(b.tokens) && b.extraBits == ExtraTotal(b.tokens) && CodesUsed(dist, dl)
    ensures lit == LitTable(b.tokens)[END_OF_BLOCK := LitTable(b.tokens)[END_OF_BLOCK] + 1]
    ensures dist == DistTable(b.tokens) && plan.b == Runs.Trim(dl) && Sound(plan, b.tokens)
  {
    hide Sound, LitTable, DistTable, CodesUsed, Codable, Runs.Trim, LitCount, DistCount, ExtraTotal;
  }

  lemma FixedCost(tokens: seq<nat>)
    requires AllWellPacked(tokens)
    ensures var freq := LitTable(tokens)[END_OF_BLOCK := LitTable(tokens)[END_OF_BLOCK] + 1];
            |FixedBits(tokens)| == Dot(freq, FixedLit(), 288) + Dot(DistTable(tokens), FixedDist(), 32) + ExtraTotal(tokens)
  {
    FixedCodesFor(tokens);
    BodyCost(FixedLit(), FixedDist(), tokens);
  }

  lemma TrimmedDot(freq: seq<nat>, b: seq<nat>)
    requires CodesUsed(freq, b) && |freq| >= 1
    ensures |b| <= |freq| && 1 <= |Runs.Trim(b)| <= |freq|
    ensures Dot(freq, Runs.Trim(b), |Runs.Trim(b)|) == Dot(freq, b, |b|)
  {
    TrimOfCode(freq, b);
  }

  lemma {:induction false} PaddedDot(t: seq<nat>, r: seq<nat>, n: nat)
    requires |r| <= 19 && |t| == 19 && n <= 19
    ensures Dot(t, Padded(r), n) == Dot(t, r, if n <= |r| then n else |r|)
  {
    if n > 0 {
      PaddedDot(t, r, n - 1);
    }
  }

  // ---------- the whole block ----------

  ghost predicate FixedTables(tl: array<nat>, td: array<nat>)
    reads tl, td
  {
    CodeTable(FixedLit(), tl) && CodeTable(FixedDist(), td)
  }

  /** The bytes of the block, and what its tokens play to. */
  ghost predicate BlockOf(data: seq<nat>, b: Block) {
    && b.start + b.count <= |data| && (forall k :: 0 <= k < |data| ==> data[k] < 256)
    && ProperBlock(b)
    && Play(data[..b.start], b.tokens) == Some(data[..b.start + b.count])
  }

  lemma StoredIsSmall(b: Block)
    requires ProperBlock(b) && 8 * b.count + 40 <= |FixedBits(b.tokens)|
    ensures b.count <= 65535
  {
    FixedCostBound(b.tokens);
  }

  lemma FrequenciesOf(b: Block)
    requires ProperBlock(b)
    ensures |b.litFreq| == 288
    ensures Frequencies(b.tokens, b.litFreq[END_OF_BLOCK := b.litFreq[END_OF_BLOCK] + 1], b.distFreq)
  {
    TablesFromTally(b.tokens, b.litFreq, b.distFreq, b.extraBits);
  }

  /** The final bit of the block at pos is written. */
  ghost predicate Started(wr: BitWriter, before: seq<bool>, final: bool)
    reads wr, wr.a
  {
    wr.Valid() && wr.bits == before + [final]
  }

  lemma Headed(before: seq<bool>, final: bool, kind: seq<bool>, body: seq<bool>)
    ensures before + [final] + (kind + body) == before + ([final] + (kind + body))
    ensures before + [final] + kind + body == before + ([final] + (kind + body))
  {
  }

  method WriteStored(wr: BitWriter, data: seq<nat>, b: Block, ghost before: seq<bool>) returns (ghost segment: seq<bool>)
    requires Started(wr, before, b.final) && BlockOf(data, b) && b.count <= 65535
    modifies wr, wr.a
    ensures wr.Valid() && wr.bits == before + segment && |segment| == 3 + Padding(|before|) + 32 + 8 * b.count
    ensures Decodes(segment, |before|, data[..b.start], data[..b.start + b.count], b.final)
  {
    hide ValueBits, StoredBits, Decodes, Play, ProperBlock;
    var slice := data[b.start..b.start + b.count];
    PutStored(wr, slice, |before|);
    segment := [b.final] + (ValueBits(0, 2) + StoredBits(|before|, slice));
    Headed(before, b.final, ValueBits(0, 2), StoredBits(|before|, slice));
    StoredDecodes(b.final, slice, |before|, data[..b.start]);
    StoredSize(|before|, slice);
    assert data[..b.start] + slice == data[..b.start + b.count];
  }

  lemma StoredSize(pos: nat, data: seq<nat>)
    requires |data| <= 65535
    ensures |StoredBits(pos, data)| == Padding(pos) + 32 + 8 * |data|
  {
    ByteBitsLength(data);
  }

  method WriteFixed(wr: BitWriter, data: seq<nat>, b: Block, tl: array<nat>, td: array<nat>, ghost before: seq<bool>)
    returns (ghost segment: seq<bool>)
    requires Started(wr, before, b.final) && BlockOf(data, b) && FixedTables(tl, td) && wr.a != tl && wr.a != td
    modifies wr, wr.a
    ensures wr.Valid() && wr.bits == before + segment && |segment| == |FixedBits(b.tokens)| + 3
    ensures Decodes(segment, |before|, data[..b.start], data[..b.start + b.count], b.final)
  {
    hide ValueBits, Decodes, Play, ProperBlock, FixedLit, FixedDist, CodesFor, TailBits;
    BlockPacked(b);
    SmallWidths();
    wr.PutShort(1, 2);
    FixedCodesFor(b.tokens);
    PutTokens(wr, FixedLit(), tl, FixedDist(), td, b.tokens);
    segment := [b.final] + (ValueBits(1, 2) + FixedBits(b.tokens));
    Headed(before, b.final, ValueBits(1, 2), FixedBits(b.tokens));
    FixedDecodes(b.final, b.tokens, |before|, data[..b.start], data[..b.start + b.count]);
  }

  lemma BlockPacked(b: Block)
    requires ProperBlock(b)
    ensures AllWellPacked(b.tokens)
  {
  }

  method WriteDynamic(wr: BitWriter, data: seq<nat>, b: Block, plan: Plan, ghost lit: seq<nat>, dl: seq<nat>,
                      longest: Longest, ti: array<nat>, ghost before: seq<bool>) returns (ghost segment: seq<bool>)
    requires Started(wr, before, b.final) && BlockOf(data, b) && ReverseTable(ti) && wr.a != ti
    requires Planned(plan, b.tokens, lit, b.distFreq, dl) && LongestOf(plan, dl, longest)
    modifies wr, wr.a
    ensures wr.Valid() && wr.bits == before + segment && |segment| == |DynamicBits(plan, b.tokens)| + 3
    ensures Decodes(segment, |before|, data[..b.start], data[..b.start + b.count], b.final)
  {
    hide ValueBits, Decodes, Play, ProperBlock, Sound, Frequencies, CodesUsed, CodesFor, TailBits, DynamicBits,
         Codable, Runs.Trim;
    SmallWidths();
    wr.PutShort(2, 2);
    var d := AssignCodes(plan.g, longest.g, ti);
    var h := AssignCodes(dl, longest.b, ti);
    var cd := AssignCodes(plan.r, longest.r, ti);
    DistanceTails(plan, b.tokens, lit, b.distFreq, dl);
    PutDynamic(wr, plan, b.tokens, dl, d, h, cd);
    segment := [b.final] + (ValueBits(2, 2) + DynamicBits(plan, b.tokens));
    Headed(before, b.final, ValueBits(2, 2), DynamicBits(plan, b.tokens));
    DynamicDecodes(b.final, plan, b.tokens, |before|, data[..b.start], data[..b.start + b.count]);
  }

  lemma DistanceTails(plan: Plan, tokens: seq<nat>, lit: seq<nat>, dist: seq<nat>, dl: seq<nat>)
    requires Planned(plan, tokens, lit, dist, dl)
    ensures CodesFor(plan.g, dl, tokens)
    ensures TailBits(plan.g, dl, tokens, 0) == TailBits(plan.g, plan.b, tokens, 0)
  {
    TokensAreCoded(tokens, lit, dist, plan.g, dl);
    SameTail(plan.g, dist, dl, tokens, 0);
  }

  /** A plan for these tokens, with codes for the literals and lengths they use and for no others. */
  ghost predicate PlanFor(tokens: seq<nat>, plan: Plan) {
    && AllWellPacked(tokens) && Sound(plan, tokens)
    && CodesUsed(LitTable(tokens)[END_OF_BLOCK := LitTable(tokens)[END_OF_BLOCK] + 1], plan.g)
  }

  /** The bits of a block at pos: three of header, and a stored body when 8 bits a byte and 40 more do not exceed the
      other two forms, else the shorter of those. */
  ghost function FormSize(pos: nat, b: Block, plan: Plan): nat
    requires PlanFor(b.tokens, plan)
  {
    var h, l, n := 8 * (b.count + 5), |FixedBits(b.tokens)|, |DynamicBits(plan, b.tokens)|;
    3 + (if h <= l && h <= n then Padding(pos) + 32 + 8 * b.count else if n < l then n else l)
  }

  /** Write the block in its cheapest form; at most 42 bits beyond the bytes themselves. */
  method WriteBlock(wr: BitWriter, data: seq<nat>, b: Block, ti: array<nat>, tl: array<nat>, td: array<nat>)
    returns (ghost segment: seq<bool>, ghost used: Plan)
    requires wr.Valid() && wr.a != ti && wr.a != tl && wr.a != td
    requires ReverseTable(ti) && FixedTables(tl, td) && BlockOf(data, b)
    modifies wr, wr.a
    ensures wr.Valid() && wr.bits == old(wr.bits) + segment && |segment| <= 8 * b.count + 42
    ensures Decodes(segment, |old(wr.bits)|, data[..b.start], data[..b.start + b.count], b.final)
    ensures PlanFor(b.tokens, used) && |segment| == FormSize(|old(wr.bits)|, b, used)
    ensures |segment| <= 3 + |FixedBits(b.tokens)| && |segment| <= 3 + |DynamicBits(used, b.tokens)|
  {
    hide Decodes, Play, Planned, LongestOf, Frequencies, FixedBits, DynamicBits, PlanFor;
    ghost var before := wr.bits;
    BlockPacked(b);
    FinalBit(b.final);
    wr.PutShort(if b.final then 1 else 0, 1);
    FrequenciesOf(b);
    var lit := b.litFreq[END_OF_BLOCK := b.litFreq[END_OF_BLOCK] + 1];
    var plan, dl, longest := MakePlan(b.tokens, lit, b.distFreq);
    var l, n := Costs(b, plan, lit, b.distFreq, dl);
    PlanUsed(plan, b.tokens, lit, b.distFreq, dl);
    used := plan;
    var h := 8 * (b.count + 5);
    if h <= l && h <= n {
      StoredIsSmall(b);
      segment := WriteStored(wr, data, b, before);
    } else if n < l {
      segment := WriteDynamic(wr, data, b, plan, lit, dl, longest, ti, before);
    } else {
      segment := WriteFixed(wr, data, b, tl, td, before);
    }
  }

  lemma PlanUsed(plan: Plan, tokens: seq<nat>, lit: seq<nat>, dist: seq<nat>, dl: seq<nat>)
    requires Planned(plan, tokens, lit, dist, dl)
    ensures PlanFor(tokens, plan)
  {
    hide Sound, CodesUsed, LitTable;
  }

  lemma FinalBit(final: bool)
    ensures ValueBits(if final then 1 else 0, 1) == [final] && Pow2(1) == 2
  {
  }
}
