/** An input the compressor's buffer is too small for: a JSON text of 46 bytes that needs 409 bits where the buffer has
    408. It has 31 bytes from 144 on, one more than always fits. */
module Shortfall {
  import opened Bits
  import opened BitReversal
  import opened Options
  import opened BitStream
  import opened KraftSums
  import opened HuffmanCoder
  import opened CanonicalCode
  import opened TokenFormat
  import opened Lz77
  import opened Inflate
  import opened BlockFormat
  import opened BlockDecoding
  import opened BlockCosts
  import opened BlockWriter
  import opened FixedSize
  import opened ExampleText
  import opened Deflate
  import Utf8
  import Runs = CodeLengthRuns

  // ---------- the data of the block ----------

  lemma LiteralWidth(lit: seq<nat>, dist: seq<nat>, tokens: seq<nat>, k: nat)
    requires CodesFor(lit, dist, tokens) && k < |tokens| && tokens[k] < 256
    ensures Coded(lit, dist, tokens[k]) && tokens[k] < |lit| && lit[tokens[k]] > 0
    ensures |TokenBits(lit, dist, tokens[k])| == lit[tokens[k]]
  {
    hide Codable;
  }

  /** The lengths of the codes of the first k bytes. */
  function LengthSum(g: seq<nat>, k: nat): nat
    requires k <= 46 && |g| >= 257
  {
    if k == 0 then 0 else LengthSum(g, k - 1) + g[ByteAt(k - 1)]
  }

  lemma {:induction false} TailFrom(g: seq<nat>, b: seq<nat>, tokens: seq<nat>, k: nat)
    requires tokens == Example() && k <= 46 && CodesFor(g, b, tokens) && |g| >= 257
    ensures LengthSum(g, k) + |TailBits(g, b, tokens, k)| == LengthSum(g, 46) + g[256]
    decreases 46 - k
  {
    hide CodesFor, CodeBits, TokenBits, ByteAt;
    if k < 46 {
      TailFrom(g, b, tokens, k + 1);
      LiteralWidth(g, b, tokens, k);
    }
  }

  /** In the fixed form each of the 31 high bytes takes nine bits. */
  lemma {:induction false} FixedSum(k: nat)
    requires k <= 46
    ensures |FixedLit()| == 288
    ensures LengthSum(FixedLit(), k) == 8 * k + if k <= 2 then 0 else if k <= 33 then k - 2 else 31
  {
    if k > 0 {
      FixedSum(k - 1);
    }
  }

  lemma FixedExample(tokens: seq<nat>)
    requires tokens == Example() && AllWellPacked(tokens)
    ensures |FixedBits(tokens)| == 406
  {
    hide TailBits, CodesFor, LengthSum, Example, FixedLit, FixedDist;
    FixedCodesFor(tokens);
    FixedSum(0);
    FixedSum(46);
    FixedEnd();
    TailFrom(FixedLit(), FixedDist(), tokens, 0);
  }

  // ---------- the lower bound on code lengths ----------

  /** Lines below the lengths: weighed by how often a byte occurs, a length and its share of the code space have a
      least sum. */
  lemma LengthLine(l: nat)
    requires 1 <= l <= 15
    ensures 512 * l + Share(l, 15) >= 3584 && 1024 * l + Share(l, 15) >= 6144 && 3072 * l + Share(l, 15) >= 13312
  {
    assert Pow2(9) == 512 && Pow2(10) == 1024 && Pow2(11) == 2048 && Pow2(12) == 4096 && Pow2(13) == 8192 && Pow2(14) == 16384;
  }

  lemma {:induction false} KraftGrows(g: seq<nat>, m: nat, n: nat, w: nat)
    requires m <= n <= |g|
    ensures TableKraft(g, m, w) <= TableKraft(g, n, w)
    decreases n
  {
    if m < n {
      KraftGrows(g, m, n - 1, w);
    }
  }

  /** A symbol takes its share beyond what the ones before it take. */
  lemma KraftTakes(g: seq<nat>, m: nat, s: nat, w: nat)
    requires m <= s < |g| && g[s] > 0
    ensures TableKraft(g, m, w) + Share(g[s], w) <= TableKraft(g, s + 1, w)
  {
    KraftGrows(g, m, s, w);
  }

  ghost predicate Coding(g: seq<nat>) {
    && |g| >= 257 && Codable(g, 15) && g[256] > 0
    && forall p: nat | Occurs(p) :: g[p] > 0
  }

  lemma Takes(g: seq<nat>, m: nat, s: nat)
    requires Coding(g) && m <= s && (Occurs(s) || s == 256)
    ensures 1 <= g[s] <= 15 && TableKraft(g, m, 15) + Share(g[s], 15) <= TableKraft(g, s + 1, 15)
    ensures 512 * g[s] + TableKraft(g, s + 1, 15) >= TableKraft(g, m, 15) + 3584
    ensures 1024 * g[s] + TableKraft(g, s + 1, 15) >= TableKraft(g, m, 15) + 6144
    ensures 3072 * g[s] + TableKraft(g, s + 1, 15) >= TableKraft(g, m, 15) + 13312
  {
    hide TableKraft, Share;
    KraftTakes(g, m, s, 15);
    LengthLine(g[s]);
  }

  /** The lengths of the first k of the bytes in steps of 3, and of those in steps of 2. */
  function ThirdSum(g: seq<nat>, k: nat): nat
    requires k <= 16 && |g| >= 257
  {
    if k == 0 then 0 else ThirdSum(g, k - 1) + g[141 + 3 * k]
  }

  function HalfSum(g: seq<nat>, k: nat): nat
    requires k <= 15 && |g| >= 257
  {
    if k == 0 then 0 else HalfSum(g, k - 1) + g[194 + 2 * k]
  }

  lemma {:induction false} ThirdsWeigh(g: seq<nat>, k: nat)
    requires Coding(g) && k <= 16
    ensures 512 * ThirdSum(g, k) + TableKraft(g, 142 + 3 * k, 15) >= TableKraft(g, 142, 15) + 3584 * k
  {
    hide TableKraft, Codable, Coding;
    if k > 0 {
      ThirdsWeigh(g, k - 1);
      Takes(g, 139 + 3 * k, 141 + 3 * k);
    }
  }

  lemma {:induction false} HalvesWeigh(g: seq<nat>, k: nat)
    requires Coding(g) && k <= 15
    ensures 512 * HalfSum(g, k) + TableKraft(g, 195 + 2 * k, 15) >= TableKraft(g, 195, 15) + 3584 * k
  {
    hide TableKraft, Codable, Coding;
    if k > 0 {
      HalvesWeigh(g, k - 1);
      Takes(g, 193 + 2 * k, 194 + 2 * k);
    }
  }

  /** The bytes of the name, in the order of the text. */
  lemma {:induction false} NameSum(g: seq<nat>, k: nat)
    requires |g| >= 257 && k <= 15
    ensures LengthSum(g, 2 + 2 * k) == g[123] + g[34] + HalfSum(g, k) + ThirdSum(g, k)
  {
    if k == 0 {
      assert LengthSum(g, 1) == g[123];
    } else {
      NameSum(g, k - 1);
      assert ByteAt(2 * k) == 194 + 2 * k && ByteAt(2 * k + 1) == 141 + 3 * k;
      assert LengthSum(g, 2 * k + 1) == LengthSum(g, 2 * k) + g[194 + 2 * k];
    }
  }

  lemma SumSteps(g: seq<nat>, k: nat)
    requires |g| >= 257 && k <= 41
    ensures LengthSum(g, k + 5)
         == LengthSum(g, k) + g[ByteAt(k)] + g[ByteAt(k + 1)] + g[ByteAt(k + 2)] + g[ByteAt(k + 3)] + g[ByteAt(k + 4)]
  {
    assert LengthSum(g, k + 2) == LengthSum(g, k) + g[ByteAt(k)] + g[ByteAt(k + 1)];
    assert LengthSum(g, k + 4) == LengthSum(g, k + 2) + g[ByteAt(k + 2)] + g[ByteAt(k + 3)];
  }

  /** The whole text: the quote six times, three bytes twice, all others once. */
  lemma WholeSum(g: seq<nat>)
    requires |g| >= 257
    ensures LengthSum(g, 46)
         == 6 * g[34] + 2 * (g[49] + g[58] + g[118]) + g[44] + g[123] + g[125] + HalfSum(g, 15) + ThirdSum(g, 16)
  {
    hide LengthSum, HalfSum;
    NameSum(g, 15);
    assert LengthSum(g, 33) == LengthSum(g, 32) + g[189] by {
      SumStep(g, 32);
    }
    SumSteps(g, 33);
    SumSteps(g, 38);
    SumStep(g, 43);
    SumStep(g, 44);
    SumStep(g, 45);
  }

  lemma SumStep(g: seq<nat>, k: nat)
    requires |g| >= 257 && k < 46
    ensures LengthSum(g, k + 1) == LengthSum(g, k) + g[ByteAt(k)]
  {
  }

  /** No code for the text is shorter than this. */
  lemma LengthsBound(g: seq<nat>)
    requires Coding(g)
    ensures LengthSum(g, 46) + g[256] >= 243
  {
    hide LengthSum, HalfSum, ThirdSum, TableKraft, Coding;
    SpaceLeft(g);
    WholeSum(g);
    Takes(g, 0, 34);
    Takes(g, 35, 44);
    Takes(g, 45, 49);
    Takes(g, 50, 58);
    Takes(g, 59, 118);
    Takes(g, 119, 123);
    Takes(g, 124, 125);
    ThirdsWeigh(g, 16);
    HalvesWeigh(g, 15);
    Takes(g, 225, 256);
  }

  lemma SpaceLeft(g: seq<nat>)
    requires Coding(g)
    ensures |g| >= 257 && TableKraft(g, 257, 15) <= 32768
    ensures TableKraft(g, 126, 15) <= TableKraft(g, 142, 15) && TableKraft(g, 190, 15) <= TableKraft(g, 195, 15)
  {
    KraftGrows(g, 257, |g|, 15);
    KraftGrows(g, 126, 142, 15);
    KraftGrows(g, 190, 195, 15);
    hide Pow2;
    Fifteen();
  }

  lemma CodingFrom(g: seq<nat>, b: seq<nat>, tokens: seq<nat>)
    requires tokens == Example() && CodesFor(g, b, tokens) && |g| >= 257
    ensures Coding(g)
  {
    forall p: nat | Occurs(p) ensures g[p] > 0 {
      LiteralWidth(g, b, tokens, PlaceIn(p));
    }
    hide Codable;
  }

  // ---------- the lower bound on the table of code lengths ----------

  /** Up to 256 the lengths that are not zero are those of the bytes that occur. */
  ghost predicate Shaped(t: seq<nat>) {
    forall p | 0 <= p < |t| && p < 256 :: t[p] > 0 <==> Occurs(p)
  }

  /** A zero length at most two behind one that is not zero. */
  predicate Near(p: nat) {
    !Occurs(p) && ((p >= 1 && Occurs(p - 1)) || (p >= 2 && Occurs(p - 2)))
  }

  /** How many lengths below n, and below 256, are not zero, and how many near zeros there are. */
  function Codes(n: nat): nat {
    if n == 0 then 0 else Codes(n - 1) + if n <= 256 && Occurs(n - 1) then 1 else 0
  }

  function Gaps(n: nat): nat {
    if n == 0 then 0 else Gaps(n - 1) + if n <= 256 && Near(n - 1) then 1 else 0
  }

  /** Each weighs one bit, and one of the two kinds weighs another. */
  function Weight(heavy: bool, n: nat): nat {
    if heavy then 2 * Codes(n) + Gaps(n) else Codes(n) + 2 * Gaps(n)
  }

  /** The code of a zero, or else those of all other lengths, takes two bits. */
  ghost predicate Priced(clens: seq<nat>, heavy: bool) {
    if heavy then forall s | 1 <= s < 16 && s < |clens| && clens[s] > 0 :: clens[s] >= 2
    else |clens| > 0 && clens[0] != 1
  }

  lemma {:induction false} QuietFrom(t: seq<nat>, n0: nat, n1: nat)
    requires Shaped(t) && n0 + 2 <= n1 <= |t| && forall p | n0 <= p < n1 :: t[p] == 0
    ensures Codes(n1) == Codes(n0) && Gaps(n1) == Gaps(n0 + 2) <= Gaps(n0) + 2
    ensures n0 > 0 && t[n0 - 1] == 0 ==> Gaps(n1) <= Gaps(n0) + 1
    decreases n1
  {
    assert Gaps(n0 + 2) == Gaps(n0 + 1) + if n0 + 2 <= 256 && Near(n0 + 1) then 1 else 0;
    if n0 + 2 < n1 {
      QuietFrom(t, n0, n1 - 1);
      assert t[n1 - 1] == 0 && t[n1 - 2] == 0 && t[n1 - 3] == 0;
    } else {
      assert Codes(n0 + 2) == Codes(n0 + 1) + if n0 + 2 <= 256 && Occurs(n0 + 1) then 1 else 0;
      assert t[n0] == 0 && t[n0 + 1] == 0;
    }
  }

  /** Beyond 256 nothing weighs. */
  lemma {:induction false} NothingBeyond(n0: nat, n1: nat)
    requires 256 <= n0 <= n1
    ensures Codes(n1) == Codes(n0) && Gaps(n1) == Gaps(n0)
    decreases n1
  {
    if n0 < n1 {
      NothingBeyond(n0, n1 - 1);
    }
  }

  /** Two lengths in a row that are not zero do not stand below 256. */
  lemma Alone(t: seq<nat>, n: nat)
    requires Shaped(t) && 0 < n < |t| && t[n - 1] > 0 && t[n] > 0
    ensures n >= 256
  {
  }

  lemma OneMore(t: seq<nat>, n: nat)
    requires Shaped(t) && n < |t|
    ensures Codes(n + 1) <= Codes(n) + (if t[n] > 0 then 1 else 0) && Gaps(n + 1) <= Gaps(n) + (if t[n] > 0 then 0 else 1)
  {
  }

  lemma RunWidth(clens: seq<nat>, m: nat)
    requires RunCoded(clens, m)
    ensures |RunBits(clens, m)| == clens[Runs.Symbol(m)] + Runs.WidthOf(Runs.Symbol(m))
  {
    hide Runs.Symbol, Runs.Extra, CodeBits;
  }

  /** No run covers more than its own bits. */
  lemma RunWeighs(clens: seq<nat>, heavy: bool, m: nat, before: seq<nat>, t: seq<nat>)
    requires Priced(clens, heavy) && RunCoded(clens, m) && Shaped(t)
    requires Runs.Decode(before, Runs.Symbol(m), Runs.Extra(m)) == Some(t)
    ensures Weight(heavy, |t|) <= Weight(heavy, |before|) + |RunBits(clens, m)| && before <= t
  {
    hide Runs.Symbol, Runs.Extra, CodeBits, RunBits, Occurs, Near;
    var symbol := Runs.Symbol(m);
    RunWidth(clens, m);
    if symbol < 16 {
      assert t[|before|] == symbol;
      OneMore(t, |before|);
    } else if symbol == 16 && before[|before| - 1] > 0 {
      Alone(t, |before|);
      NothingBeyond(|before|, |t|);
    } else {
      QuietFrom(t, |before|, |t|);
    }
  }

  lemma ShapedPrefix(before: seq<nat>, t: seq<nat>)
    requires before <= t && Shaped(t)
    ensures Shaped(before)
  {
    hide Occurs;
  }

  lemma {:induction false} RunsWeigh(clens: seq<nat>, heavy: bool, runs: seq<nat>, t: seq<nat>)
    requires Priced(clens, heavy) && RunsCoded(clens, runs) && Runs.Expand(runs) == Some(t) && Shaped(t)
    ensures RunsCost(clens, runs) >= Weight(heavy, |t|)
  {
    hide Shaped, RunCoded, RunBits, Weight, Runs.Decode, Priced;
    if runs == [] {
      WeighNothing(heavy);
    } else {
      var m, rest := runs[|runs| - 1], runs[..|runs| - 1];
      var before := Runs.Expand(rest).value;
      RunWeighs(clens, heavy, m, before, t);
      ShapedPrefix(before, t);
      RunsWeigh(clens, heavy, rest, before);
    }
  }

  lemma WeighNothing(heavy: bool)
    ensures Weight(heavy, 0) == 0
  {
  }

  /** Without symbols that repeat, each length is sent by itself. */
  lemma {:induction false} RunsOneByOne(clens: seq<nat>, runs: seq<nat>, t: seq<nat>)
    requires RunsCoded(clens, runs) && Runs.Expand(runs) == Some(t)
    requires forall s | 16 <= s < |clens| :: clens[s] == 0
    ensures RunsCost(clens, runs) >= |t|
  {
    hide Runs.Symbol, Runs.Extra, CodeBits;
    if runs != [] {
      var rest := runs[..|runs| - 1];
      RunsOneByOne(clens, rest, Runs.Expand(rest).value);
    }
  }

  /** When a zero and another length have one-bit codes, nothing else has a code. */
  lemma TwoOnes(clens: seq<nat>, s: nat, q: nat)
    requires |clens| == 19 && Codable(clens, 7) && 1 <= s < 16 <= q < 19 && clens[0] == 1 && clens[s] == 1
    ensures clens[q] == 0
  {
    assert Pow2(6) == 64 && Pow2(7) == 128;
    hide TableKraft;
    if clens[q] > 0 {
      KraftTakes(clens, 0, 0, 7);
      KraftTakes(clens, 1, s, 7);
      KraftTakes(clens, s + 1, q, 7);
      KraftGrows(clens, q + 1, 19, 7);
    }
  }

  // ---------- adding up the weights ----------

  lemma {:induction false} Grow(m: nat, n: nat)
    requires m <= n
    ensures Codes(m) <= Codes(n) && Gaps(m) <= Gaps(n)
    decreases n
  {
    if m < n {
      Grow(m, n - 1);
    }
  }

  /** A length that is not zero, from n0 on, and the one or two near zeros behind it. */
  lemma Spike(m: nat, p: nat, wide: bool)
    requires m <= p && p + 3 <= 256 && Occurs(p) && !Occurs(p + 1) && (wide ==> !Occurs(p + 2))
    ensures var n := if wide then p + 3 else p + 2;
            Codes(n) >= Codes(m) + 1 && Gaps(n) >= Gaps(m) + (if wide then 2 else 1)
  {
    hide Occurs;
    Grow(m, p);
    assert Near(p + 1) && (wide ==> Near(p + 2));
    Step(p);
    Step(p + 1);
    Step(p + 2);
  }

  lemma Step(n: nat)
    requires n < 256
    ensures Codes(n + 1) == Codes(n) + (if Occurs(n) then 1 else 0) && Gaps(n + 1) == Gaps(n) + (if Near(n) then 1 else 0)
  {
  }

  lemma {:induction false} ThirdSpikes(k: nat)
    requires k <= 16
    ensures Codes(144 + 3 * k) >= Codes(144) + k && Gaps(144 + 3 * k) >= Gaps(144) + 2 * k
  {
    hide Codes, Gaps;
    if k > 0 {
      ThirdSpikes(k - 1);
      Spike(141 + 3 * k, 141 + 3 * k, true);
    }
  }

  lemma {:induction false} HalfSpikes(k: nat)
    requires k <= 14
    ensures Codes(196 + 2 * k) >= Codes(196) + k && Gaps(196 + 2 * k) >= Gaps(196) + k
  {
    hide Codes, Gaps;
    if k > 0 {
      HalfSpikes(k - 1);
      Spike(194 + 2 * k, 194 + 2 * k, false);
    }
  }

  lemma Totals(n: nat)
    requires n >= 256
    ensures Codes(n) >= 38 && Gaps(n) >= 61
  {
    hide Codes, Gaps;
    Spike(0, 34, true);
    Spike(37, 44, true);
    Spike(47, 49, true);
    Spike(52, 58, true);
    Spike(61, 118, true);
    Spike(121, 123, false);
    Spike(125, 125, true);
    Grow(128, 144);
    ThirdSpikes(16);
    Grow(192, 196);
    HalfSpikes(14);
    Spike(224, 224, true);
    Grow(227, n);
  }

  /** However they are coded, the code lengths take at least 137 bits. */
  lemma RunsBound(clens: seq<nat>, runs: seq<nat>, t: seq<nat>)
    requires |clens| == 19 && Codable(clens, 7) && RunsCoded(clens, runs) && Runs.Expand(runs) == Some(t)
    requires Shaped(t) && |t| >= 256
    ensures RunsCost(clens, runs) >= 137
  {
    hide RunsCost, RunsCoded, Runs.Expand, Shaped, Codes, Gaps, Codable;
    Totals(|t|);
    if Priced(clens, false) {
      RunsWeigh(clens, false, runs, t);
    } else if Priced(clens, true) {
      RunsWeigh(clens, true, runs, t);
    } else {
      OneBitLengths(clens);
      RunsOneByOne(clens, runs, t);
    }
  }

  lemma OneBitLengths(clens: seq<nat>)
    requires |clens| == 19 && Codable(clens, 7) && !Priced(clens, false) && !Priced(clens, true)
    ensures forall q | 16 <= q < |clens| :: clens[q] == 0
  {
    hide Codable;
    var s :| 1 <= s < 16 && s < |clens| && clens[s] == 1;
    forall q | 16 <= q < |clens| ensures clens[q] == 0 {
      TwoOnes(clens, s, q);
    }
  }

  // ---------- the example ----------

  lemma {:induction false} CountOfPrefix(tokens: seq<nat>, k: nat, s: nat)
    requires k <= |tokens| && forall i | 0 <= i < |tokens| :: !IsMatch(tokens[i])
    ensures LitCount(tokens[..k], s) > 0 <==> exists i | 0 <= i < k :: tokens[i] == s
  {
    if k > 0 {
      assert tokens[..k][..k - 1] == tokens[..k - 1];
      CountOfPrefix(tokens, k - 1, s);
    }
  }

  lemma CountedByte(tokens: seq<nat>, p: nat)
    requires tokens == Example() && p < 256
    ensures LitCount(tokens, p) > 0 <==> Occurs(p)
  {
    hide Occurs, ByteAt;
    assert tokens[..46] == tokens;
    CountOfPrefix(tokens, 46, p);
    if Occurs(p) {
      assert tokens[PlaceIn(p)] == p;
    }
    if i :| 0 <= i < 46 && tokens[i] == p {
      ByteOccurs(i);
    }
  }

  lemma ShapeOfPlan(tokens: seq<nat>, plan: Plan)
    requires tokens == Example() && PlanFor(tokens, plan)
    ensures Shaped(plan.g + plan.b)
  {
    hide Sound, LitCount, Occurs, Example;
    SoundSizes(plan, tokens);
    forall p | 0 <= p < 256 ensures (plan.g + plan.b)[p] > 0 <==> Occurs(p) {
      CountedByte(tokens, p);
    }
  }

  lemma SoundSizes(plan: Plan, tokens: seq<nat>)
    requires Sound(plan, tokens)
    ensures |plan.g| >= 257 && |plan.b| >= 1 && 4 <= plan.a <= 19 && CodesFor(plan.g, plan.b, tokens)
    ensures |plan.r| <= 19 && Codable(plan.r, 7) && RunsCoded(Padded(plan.r), plan.runs)
    ensures Runs.Expand(plan.runs) == Some(plan.g + plan.b)
  {
    hide Codable, CodesFor, RunsCoded, Padded, Runs.Expand;
  }

  /** Whatever codes are planned, the dynamic form takes at least 406 bits. */
  lemma DynamicIsLong(tokens: seq<nat>, plan: Plan)
    requires tokens == Example() && PlanFor(tokens, plan)
    ensures |DynamicBits(plan, tokens)| >= 406
  {
    hide CodesFor, RunsCoded, Padded, Runs.Expand, RunsTail, TailBits, RunsCost, CodesUsed, LitTable, Sound, Shaped,
         LengthSum, Codable, Example, Coding;
    SoundSizes(plan, tokens);
    ShapeOfPlan(tokens, plan);
    CodingFrom(plan.g, plan.b, tokens);
    LengthsBound(plan.g);
    TailFrom(plan.g, plan.b, tokens, 0);
    NothingYet(plan.g, Padded(plan.r), plan.runs);
    PaddedCodes(plan.r);
    PaddedSize(plan.r);
    RunsBound(Padded(plan.r), plan.runs, plan.g + plan.b);
    RunsTailCost(Padded(plan.r), plan.runs, 0);
    OrderBitsLength(plan.r, plan.a);
  }

  lemma PaddedSize(r: seq<nat>)
    ensures |Padded(r)| == 19
  {
  }

  lemma NothingYet(g: seq<nat>, clens: seq<nat>, runs: seq<nat>)
    requires |g| >= 257 && RunsCoded(clens, runs)
    ensures RunsCost(clens, runs[..0]) == 0 && LengthSum(g, 0) == 0
  {
  }

  /** The form that is chosen takes 409 bits. */
  lemma ExampleSize(block: Block, plan: Plan)
    requires Sole(Example(), block) && PlanFor(block.tokens, plan)
    ensures FormSize(0, block, plan) == 409
  {
    hide DynamicBits, FixedBits, Sound, CodesUsed, LitTable, Example;
    ExampleTriples();
    AllLiterals(block.tokens, Example());
    DynamicIsLong(block.tokens, plan);
    FixedExample(block.tokens);
  }

  /** Whatever its settings, the compressor loses the end of this text. */
  method ExampleIsLost(nice: nat, chain: nat, size: nat, hash: int -> nat) returns (result: seq<nat>)
    requires chain >= 1 && forall i :: hash(i) < size
    ensures InflateBytes(result) != Some(Utf8.Utf8(Text())) && High(Utf8.Utf8(Text())) == 31
  {
    hide FormSize, PlanFor, InflateBytes, Example, Text, Utf8.Utf8;
    var needed;
    ghost var block, used;
    result, needed, block, used := Deflate.Compress(Example(), nice, chain, size, hash);
    ExampleSize(block, used);
    ExampleIsText();
    ExampleHigh();
    assert Capacity(46) == 51;
  }
}
