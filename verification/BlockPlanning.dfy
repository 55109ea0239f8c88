/** From frequencies to a sound plan for a dynamic block. */
module BlockPlanning {
  import opened Bits
  import opened Huffman
  import opened BitStream
  import opened HuffmanLengths
  import opened HuffmanCoder
  import opened KraftSums
  import opened CanonicalCode
  import Runs = CodeLengthRuns
  import opened TokenFormat
  import opened Lz77
  import opened Inflate
  import opened BlockFormat
  import opened BlockDecoding
  import opened BlockCosts

  // ---------- limited codes are codable ----------

  lemma {:induction false} TableRescale(lens: seq<nat>, k: nat, m: nat, w: nat)
    requires k <= |lens| && m <= w && forall s :: 0 <= s < k ==> lens[s] <= m
    ensures TableKraft(lens, k, w) == Pow2(w - m) * TableKraft(lens, k, m)
  {
    if k > 0 {
      TableRescale(lens, k - 1, m, w);
      var len := lens[k - 1];
      if len > 0 {
        Pow2Add(w - m, m - len);
        assert w - m + (m - len) == w - len;
        Distribute(Pow2(w - m), TableKraft(lens, k - 1, m), Pow2(m - len));
      }
    }
  }

  lemma Distribute(c: nat, a: nat, b: nat)
    ensures c * (a + b) == c * a + c * b
  {
  }

  /** Code lengths from the builder can be turned into codes, over t bits and over the longest one. */
  lemma LimitedIsCodable(freq: seq<nat>, lens: seq<nat>, maxLen: nat, t: nat)
    requires LimitedCode(freq, lens, maxLen, t)
    ensures maxLen <= t && Codable(lens, t) && Codable(lens, maxLen)
  {
    hide TableKraft, HuffmanTree, Used, CodesUsed;
    LimitedLengthsBound(freq, lens, maxLen, t);
    TableRescale(lens, |lens|, maxLen, t);
    Pow2Add(t - maxLen, maxLen);
    assert t - maxLen + maxLen == t;
    ProductCancels(Pow2(t - maxLen), Pow2(maxLen), TableKraft(lens, |lens|, maxLen));
  }

  lemma LimitedLengthsBound(freq: seq<nat>, lens: seq<nat>, maxLen: nat, t: nat)
    requires LimitedCode(freq, lens, maxLen, t)
    ensures maxLen <= t && TableKraft(lens, |lens|, t) <= Pow2(t)
    ensures forall s :: 0 <= s < |lens| ==> lens[s] <= maxLen
  {
    hide CodesUsed, Used, HuffmanTree, Height, DepthsAgree, TableKraft, Pow2;
    SomethingUsed(freq, lens);
    assert lens != [] ==> lens[0] <= maxLen <= t;
    if |Used(freq, |freq|)| <= 1 {
      HalfBound(TableKraft(lens, |lens|, t), |Used(freq, |freq|)|, Pow2(t));
    }
  }

  lemma HalfBound(k: nat, used: nat, p: nat)
    requires used <= 1 && 2 * k == used * p
    ensures k <= p
  {
    if used == 1 {
      assert used * p == p;
    }
  }

  lemma SomethingUsed(freq: seq<nat>, lens: seq<nat>)
    requires CodesUsed(freq, lens)
    ensures lens != [] <==> |Used(freq, |freq|)| >= 1
  {
    UsedFacts(freq, |freq|);
    if lens != [] {
      assert Leaf(|lens| - 1, freq[|lens| - 1]) in Used(freq, |freq|);
    }
    if Used(freq, |freq|) != [] {
      var x := Used(freq, |freq|)[0];
      assert x in Used(freq, |freq|);
      assert freq[x.s] > 0;
    }
  }

  lemma TrimOfCode(freq: seq<nat>, lens: seq<nat>)
    requires CodesUsed(freq, lens)
    ensures Runs.Trim(lens) == if lens == [] then [0] else lens
  {
  }

  // ---------- every token has its codes ----------

  lemma {:induction false} CountedSymbols(tokens: seq<nat>, k: nat)
    requires k < |tokens|
    ensures LitCount(tokens, LitSymbol(tokens[k])) > 0
    ensures IsMatch(tokens[k]) ==> DistCount(tokens, DistanceCode(tokens[k])) > 0
    decreases |tokens|
  {
    if k < |tokens| - 1 {
      CountedSymbols(tokens[..|tokens| - 1], k);
    }
  }

  /** The frequencies the block is coded with: its tokens and one end-of-block. */
  ghost predicate Frequencies(tokens: seq<nat>, lit: seq<nat>, dist: seq<nat>) {
    && AllWellPacked(tokens)
    && lit == LitTable(tokens)[END_OF_BLOCK := LitTable(tokens)[END_OF_BLOCK] + 1]
    && dist == DistTable(tokens)
  }

  lemma TokensAreCoded(tokens: seq<nat>, lit: seq<nat>, dist: seq<nat>, g: seq<nat>, b: seq<nat>)
    requires Frequencies(tokens, lit, dist) && CodesUsed(lit, g) && CodesUsed(dist, b)
    ensures 257 <= |g| <= 288 && |b| <= 32 && g[END_OF_BLOCK] > 0
    ensures forall k :: 0 <= k < |tokens| ==> Coded(g, b, tokens[k])
  {
    assert lit[END_OF_BLOCK] > 0;
    forall k | 0 <= k < |tokens| ensures Coded(g, b, tokens[k]) {
      CountedSymbols(tokens, k);
      TokenSymbols(tokens[k]);
      assert lit[LitSymbol(tokens[k])] > 0;
      if IsMatch(tokens[k]) {
        assert dist[DistanceCode(tokens[k])] > 0;
      }
    }
  }

  /** Appending a zero length to an empty distance code changes nothing that is used. */
  lemma TrimmedCodes(tokens: seq<nat>, g: seq<nat>, freq: seq<nat>, b: seq<nat>)
    requires CodesUsed(freq, b) && Codable(b, 15)
    requires forall k :: 0 <= k < |tokens| ==> Coded(g, b, tokens[k])
    ensures Codable(Runs.Trim(b), 15) && forall k :: 0 <= k < |tokens| ==> Coded(g, Runs.Trim(b), tokens[k])
  {
    TrimOfCode(freq, b);
    assert TableKraft([0], 1, 15) == 0;
  }

  // ---------- the code length code ----------

  lemma {:induction false} CountedRuns(runs: seq<nat>, k: nat)
    requires k < |runs|
    ensures RunCount(runs, Runs.Symbol(runs[k])) > 0
    decreases |runs|
  {
    if k < |runs| - 1 {
      CountedRuns(runs[..|runs| - 1], k);
    }
  }

  lemma RunsAreCoded(runs: seq<nat>, r: seq<nat>)
    requires (forall k :: 0 <= k < |runs| ==> Runs.ProperRun(runs[k])) && CodesUsed(RunTable(runs), r)
    ensures |r| <= 19 && RunsCoded(Padded(r), runs)
  {
    forall k | 0 <= k < |runs| ensures RunCoded(Padded(r), runs[k]) {
      CountedRuns(runs, k);
      assert RunTable(runs)[Runs.Symbol(runs[k])] > 0;
    }
  }

  lemma CountOneRun(before: seq<nat>, runs: seq<nat>, p: nat)
    requires p < |runs| && Runs.ProperRun(runs[p])
    ensures var t, s := RunTable(before + runs[..p]), Runs.Symbol(runs[p]);
            s < 19 && RunTable(before + runs[..p + 1]) == t[s := t[s] + 1]
  {
    var longer := before + runs[..p + 1];
    assert longer[..|longer| - 1] == before + runs[..p];
    RunTableStep(longer);
  }

  /** Count how often each code length symbol occurs. */
  method CountRuns(t: array<nat>, runs: seq<nat>, ghost before: seq<nat>)
    requires t[..] == RunTable(before) && forall k :: 0 <= k < |runs| ==> Runs.ProperRun(runs[k])
    modifies t
    ensures t[..] == RunTable(before + runs)
  {
    hide RunTable, Runs.ProperRun;
    assert before + runs[..0] == before;
    RunTableSize(before);
    for p := 0 to |runs|
      invariant t[..] == RunTable(before + runs[..p])
    {
      CountOneRun(before, runs, p);
      var s := BitAnd(31, runs[p]);
      ghost var was := t[..];
      t[s] := t[s] + 1;
      assert t[..] == was[s := was[s] + 1];
    }
    assert before + runs[..|runs|] == before + runs;
  }

  /** Drop unused lengths from the end of the transmission order, keeping at least four. */
  method CountOrdered(r: seq<nat>) returns (a: nat)
    requires |r| <= 19
    ensures 4 <= a <= 19 && forall s :: 0 <= s < 19 ==> a <= PlaceOf(s) ==> LenAt(r, s) == 0
    ensures a > 4 ==> LenAt(r, OrderAt(a - 1)) > 0
  {
    a := 19;
    while a > 4 && LenAt(r, OrderAt(a - 1)) == 0
      invariant 4 <= a <= 19 && forall i :: a <= i < 19 ==> LenAt(r, OrderAt(i)) == 0
    {
      a := a - 1;
    }
    forall s | 0 <= s < 19 && a <= PlaceOf(s) ensures LenAt(r, s) == 0 {
      OrderPlaces(s);
    }
  }

  // ---------- the plan ----------

  /** The tables of a dynamic block before and after planning. */
  ghost predicate Planned(plan: Plan, tokens: seq<nat>, lit: seq<nat>, dist: seq<nat>, b: seq<nat>) {
    && Sound(plan, tokens) && Frequencies(tokens, lit, dist)
    && CodesUsed(lit, plan.g) && CodesUsed(dist, b) && plan.b == Runs.Trim(b) && Codable(b, 15)
  }

  lemma PlanIsSound(plan: Plan, tokens: seq<nat>, lit: seq<nat>, dist: seq<nat>, b: seq<nat>, i: seq<nat>, j: seq<nat>)
    requires Frequencies(tokens, lit, dist) && CodesUsed(lit, plan.g) && CodesUsed(dist, b)
    requires Codable(plan.g, 15) && Codable(b, 15) && plan.b == Runs.Trim(b)
    requires Runs.Written(i, Runs.Trim(plan.g)) && Runs.Written(j, Runs.Trim(b)) && plan.runs == i + j
    requires CodesUsed(RunTable(plan.runs), plan.r) && Codable(plan.r, 7)
    requires 4 <= plan.a <= 19 && forall s :: 0 <= s < 19 ==> plan.a <= PlaceOf(s) ==> LenAt(plan.r, s) == 0
    ensures Planned(plan, tokens, lit, dist, b)
  {
    TokensAreCoded(tokens, lit, dist, plan.g, b);
    TrimmedCodes(tokens, plan.g, dist, b);
    TrimOfCode(lit, plan.g);
    TrimOfCode(dist, b);
    RunsAreCoded(plan.runs, plan.r);
    ExpandConcat(i, j);
  }
}
