/** What a block costs: the frequency tables give the exact number of bits written. */
module BlockCosts {
  import opened BitStream
  import opened HuffmanLengths
  import opened CanonicalCode
  import Runs = CodeLengthRuns
  import opened TokenFormat
  import opened Lz77
  import opened Inflate
  import opened BlockFormat
  import opened BlockDecoding

  /** Sum of products over the first n entries. */
  function Dot(f: seq<nat>, t: seq<nat>, n: nat): nat
    requires n <= |f| && n <= |t|
  {
    if n == 0 then 0 else Dot(f, t, n - 1) + f[n - 1] * t[n - 1]
  }

  lemma {:induction false} DotBump(f: seq<nat>, t: seq<nat>, n: nat, s: nat)
    requires n <= |f| && n <= |t| && s < |f|
    ensures Dot(f[s := f[s] + 1], t, n) == Dot(f, t, n) + (if s < n then t[s] else 0)
  {
    if n > 0 {
      DotBump(f, t, n - 1, s);
      assert (f[n - 1] + 1) * t[n - 1] == f[n - 1] * t[n - 1] + t[n - 1];
    }
  }

  lemma {:induction false} DotZero(f: seq<nat>, t: seq<nat>, n: nat)
    requires n <= |f| && n <= |t| && forall k :: 0 <= k < n ==> f[k] == 0
    ensures Dot(f, t, n) == 0
  {
    if n > 0 {
      DotZero(f, t, n - 1);
    }
  }

  lemma {:induction false} SumBump(f: seq<nat>, n: nat, s: nat)
    requires n <= |f| && s < |f|
    ensures Sum(f[s := f[s] + 1], n) == Sum(f, n) + (if s < n then 1 else 0)
  {
    if n > 0 {
      SumBump(f, n - 1, s);
    }
  }

  lemma {:induction false} SumZero(f: seq<nat>, n: nat)
    requires n <= |f| && forall k :: 0 <= k < n ==> f[k] == 0
    ensures Sum(f, n) == 0
  {
    if n > 0 {
      SumZero(f, n - 1);
    }
  }

  // ---------- frequency tables as functions of the tokens ----------

  function LitTable(tokens: seq<nat>): (r: seq<nat>)
    ensures |r| == 288
  {
    seq(288, s requires 0 <= s => LitCount(tokens, s))
  }

  function DistTable(tokens: seq<nat>): (r: seq<nat>)
    ensures |r| == 32
  {
    seq(32, d requires 0 <= d => DistCount(tokens, d))
  }

  lemma TablesFromTally(tokens: seq<nat>, lit: seq<nat>, dist: seq<nat>, extra: nat)
    requires Tally(tokens, lit, dist, extra)
    ensures lit == LitTable(tokens) && dist == DistTable(tokens)
  {
  }

  lemma TablesStep(tokens: seq<nat>)
    requires tokens != [] && AllWellPacked(tokens)
    ensures var token, before := tokens[|tokens| - 1], tokens[..|tokens| - 1];
            && LitTable(tokens) == LitTable(before)[LitSymbol(token) := LitTable(before)[LitSymbol(token)] + 1]
            && DistTable(tokens)
               == if IsMatch(token) then DistTable(before)[DistanceCode(token) := DistTable(before)[DistanceCode(token)] + 1]
                  else DistTable(before)
  {
  }

  lemma {:induction false} TableSums(tokens: seq<nat>)
    requires AllWellPacked(tokens)
    ensures Sum(LitTable(tokens), 288) == |tokens| && Sum(DistTable(tokens), 32) == MatchCount(tokens) <= |tokens|
  {
    if tokens == [] {
      SumZero(LitTable([]), 288);
      SumZero(DistTable([]), 32);
    } else {
      hide LitTable, DistTable, LitSymbol, DistanceCode, LengthCode, IsMatch, Sum;
      var token, before := tokens[|tokens| - 1], tokens[..|tokens| - 1];
      TableSums(before);
      TablesStep(tokens);
      TokenSymbols(token);
      SumBump(LitTable(before), 288, LitSymbol(token));
      if IsMatch(token) {
        SumBump(DistTable(before), 32, DistanceCode(token));
      }
    }
  }

  lemma TokenSymbols(token: nat)
    requires WellPacked(token)
    ensures LitSymbol(token) < 286 && (IsMatch(token) ==> DistanceCode(token) < 30)
  {
  }

  // ---------- tokens ----------

  function TokenCost(lit: seq<nat>, dist: seq<nat>, token: nat): nat
    requires Coded(lit, dist, token)
  {
    lit[LitSymbol(token)] + (if IsMatch(token) then dist[DistanceCode(token)] else 0) + TokenExtra(token)
  }

  function TokensCost(lit: seq<nat>, dist: seq<nat>, tokens: seq<nat>): nat
    requires forall k :: 0 <= k < |tokens| ==> Coded(lit, dist, tokens[k])
  {
    if tokens == [] then 0
    else TokensCost(lit, dist, tokens[..|tokens| - 1]) + TokenCost(lit, dist, tokens[|tokens| - 1])
  }

  lemma TokenBitsCost(lit: seq<nat>, dist: seq<nat>, token: nat)
    requires Coded(lit, dist, token)
    ensures |TokenBits(lit, dist, token)| == TokenCost(lit, dist, token)
  {
  }

  lemma {:induction false} TailBitsCost(lit: seq<nat>, dist: seq<nat>, tokens: seq<nat>, k: nat)
    requires k <= |tokens| && CodesFor(lit, dist, tokens)
    ensures TokensCost(lit, dist, tokens[..k]) + |TailBits(lit, dist, tokens, k)|
         == TokensCost(lit, dist, tokens) + lit[END_OF_BLOCK]
    decreases |tokens| - k
  {
    if k == |tokens| {
      assert tokens[..k] == tokens;
    } else {
      hide Codable, Coded, TokenBits, TokenCost;
      TokenBitsCost(lit, dist, tokens[k]);
      TailBitsCost(lit, dist, tokens, k + 1);
      assert tokens[..k + 1][..k] == tokens[..k];
    }
  }

  lemma NoTokensCost(lit: seq<nat>, dist: seq<nat>, tokens: seq<nat>)
    requires |lit| <= 288 && |dist| <= 32 && tokens == []
    ensures TokensCost(lit, dist, tokens) == ExtraTotal(tokens) == 0
    ensures Dot(LitTable(tokens), lit, |lit|) == Dot(DistTable(tokens), dist, |dist|) == 0
  {
    DotZero(LitTable(tokens), lit, |lit|);
    DotZero(DistTable(tokens), dist, |dist|);
  }

  lemma CostStep(lit: seq<nat>, dist: seq<nat>, tokens: seq<nat>)
    requires tokens != [] && AllWellPacked(tokens) && forall k :: 0 <= k < |tokens| ==> Coded(lit, dist, tokens[k])
    ensures
      var token, before := tokens[|tokens| - 1], tokens[..|tokens| - 1];
      && LitSymbol(token) < |lit| && (IsMatch(token) ==> DistanceCode(token) < |dist|)
      && TokensCost(lit, dist, tokens) == TokensCost(lit, dist, before) + lit[LitSymbol(token)]
           + (if IsMatch(token) then dist[DistanceCode(token)] else 0) + TokenExtra(token)
      && ExtraTotal(tokens) == ExtraTotal(before) + TokenExtra(token)
  {
  }

  /** Weighing the frequency tables with the code lengths gives the cost of the tokens. */
  lemma {:induction false} TokensCostIsDot(lit: seq<nat>, dist: seq<nat>, tokens: seq<nat>)
    requires |lit| <= 288 && |dist| <= 32 && AllWellPacked(tokens)
    requires forall k :: 0 <= k < |tokens| ==> Coded(lit, dist, tokens[k])
    ensures TokensCost(lit, dist, tokens)
         == Dot(LitTable(tokens), lit, |lit|) + Dot(DistTable(tokens), dist, |dist|) + ExtraTotal(tokens)
  {
    hide LitTable, DistTable, LitSymbol, DistanceCode, LengthCode, IsMatch, Dot, TokenExtra, WellPacked, TokensCost, ExtraTotal, Coded;
    if tokens == [] {
      NoTokensCost(lit, dist, tokens);
    } else {
      var token, before := tokens[|tokens| - 1], tokens[..|tokens| - 1];
      assert forall k :: 0 <= k < |before| ==> before[k] == tokens[k];
      TokensCostIsDot(lit, dist, before);
      TablesStep(tokens);
      CostStep(lit, dist, tokens);
      TokenSymbols(token);
      DotBump(LitTable(before), lit, |lit|, LitSymbol(token));
      if IsMatch(token) {
        DotBump(DistTable(before), dist, |dist|, DistanceCode(token));
      }
    }
  }

  /** The compressed body of a block costs exactly what the encoder computes from its tables. */
  lemma BodyCost(lit: seq<nat>, dist: seq<nat>, tokens: seq<nat>)
    requires |lit| <= 288 && |dist| <= 32 && CodesFor(lit, dist, tokens) && AllWellPacked(tokens)
    ensures var freq := LitTable(tokens)[END_OF_BLOCK := LitTable(tokens)[END_OF_BLOCK] + 1];
            |TailBits(lit, dist, tokens, 0)|
            == Dot(freq, lit, |lit|) + Dot(DistTable(tokens), dist, |dist|) + ExtraTotal(tokens)
  {
    hide LitTable, DistTable, Dot, ExtraTotal, Codable, Coded, TailBits, WellPacked;
    assert tokens[..0] == [];
    NoCost(lit, dist);
    TailBitsCost(lit, dist, tokens, 0);
    hide TokensCost;
    TokensCostIsDot(lit, dist, tokens);
    TableSizes(tokens);
    DotBump(LitTable(tokens), lit, |lit|, END_OF_BLOCK);
  }

  lemma NoCost(lit: seq<nat>, dist: seq<nat>)
    ensures TokensCost(lit, dist, []) == 0
  {
  }

  lemma TableSizes(tokens: seq<nat>)
    ensures |LitTable(tokens)| == 288 && |DistTable(tokens)| == 32
  {
  }

  /** With the fixed codes a literal takes at most 9 bits and a match at most 31. */
  lemma {:induction false} FixedTokensCost(tokens: seq<nat>)
    requires AllWellPacked(tokens) && forall k :: 0 <= k < |tokens| ==> Coded(FixedLit(), FixedDist(), tokens[k])
    ensures TokensCost(FixedLit(), FixedDist(), tokens) <= 9 * |tokens| + 22 * MatchCount(tokens)
  {
    if tokens != [] {
      var token := tokens[|tokens| - 1];
      FixedTokensCost(tokens[..|tokens| - 1]);
      FixedTokenCost(token);
    }
  }

  lemma FixedTokenCost(token: nat)
    requires Coded(FixedLit(), FixedDist(), token)
    ensures TokenCost(FixedLit(), FixedDist(), token) <= if IsMatch(token) then 31 else 9
  {
    if IsMatch(token) {
      ExtraAtMost(LengthCode(token), DistanceCode(token));
    }
  }

  lemma ExtraAtMost(lc: nat, dc: nat)
    ensures LenBits(lc) <= 5 && DistBits(dc) <= 13
  {
  }

  lemma FixedCostBound(tokens: seq<nat>)
    requires AllWellPacked(tokens)
    ensures |FixedBits(tokens)| <= 9 * |tokens| + 22 * MatchCount(tokens) + 7
  {
    FixedCodesFor(tokens);
    assert tokens[..0] == [];
    TailBitsCost(FixedLit(), FixedDist(), tokens, 0);
    FixedTokensCost(tokens);
  }

  // ---------- code length runs ----------

  function RunCount(runs: seq<nat>, s: nat): nat {
    if runs == [] then 0
    else RunCount(runs[..|runs| - 1], s) + (if Runs.Symbol(runs[|runs| - 1]) == s then 1 else 0)
  }

  function RunTable(runs: seq<nat>): seq<nat> {
    seq(19, s requires 0 <= s => RunCount(runs, s))
  }

  lemma RunTableStep(runs: seq<nat>)
    requires runs != [] && Runs.Symbol(runs[|runs| - 1]) < 19
    ensures var s, before := Runs.Symbol(runs[|runs| - 1]), runs[..|runs| - 1];
            RunTable(runs) == RunTable(before)[s := RunTable(before)[s] + 1]
  {
  }

  lemma {:induction false} RunTableSum(runs: seq<nat>)
    requires forall k :: 0 <= k < |runs| ==> Runs.Symbol(runs[k]) < 19
    ensures Sum(RunTable(runs), 19) == |runs|
  {
    if runs == [] {
      SumZero(RunTable([]), 19);
    } else {
      var s, before := Runs.Symbol(runs[|runs| - 1]), runs[..|runs| - 1];
      RunTableSum(before);
      RunTableStep(runs);
      SumBump(RunTable(before), 19, s);
    }
  }

  function ExtraOfRuns(t: seq<nat>): nat
    requires |t| == 19
  {
    2 * t[16] + 3 * t[17] + 7 * t[18]
  }

  ghost function RunsCost(clens: seq<nat>, runs: seq<nat>): nat
    requires RunsCoded(clens, runs)
  {
    if runs == [] then 0
    else RunsCost(clens, runs[..|runs| - 1]) + |RunBits(clens, runs[|runs| - 1])|
  }

  lemma {:induction false} RunsTailCost(clens: seq<nat>, runs: seq<nat>, k: nat)
    requires k <= |runs| && RunsCoded(clens, runs)
    ensures RunsCost(clens, runs[..k]) + |RunsTail(clens, runs, k)| == RunsCost(clens, runs)
    decreases |runs| - k
  {
    if k == |runs| {
      assert runs[..k] == runs;
    } else {
      hide RunCoded, RunBits;
      RunsTailCost(clens, runs, k + 1);
      assert runs[..k + 1][..k] == runs[..k];
    }
  }

  lemma {:induction false} RunsCostIsDot(clens: seq<nat>, runs: seq<nat>)
    requires |clens| == 19 && RunsCoded(clens, runs)
    ensures RunsCost(clens, runs) == Dot(RunTable(runs), clens, 19) + ExtraOfRuns(RunTable(runs))
  {
    if runs == [] {
      DotZero(RunTable([]), clens, 19);
    } else {
      hide RunTable, Dot;
      var before := runs[..|runs| - 1];
      RunsCostIsDot(clens, before);
      RunTableStep(runs);
      RunTableSize(before);
      RunTableSize(runs);
      DotBump(RunTable(before), clens, 19, Runs.Symbol(runs[|runs| - 1]));
    }
  }

  lemma RunTableSize(runs: seq<nat>)
    ensures |RunTable(runs)| == 19
  {
  }

  lemma LengthsCost(clens: seq<nat>, runs: seq<nat>)
    requires |clens| == 19 && RunsCoded(clens, runs)
    ensures |RunsTail(clens, runs, 0)| == Dot(RunTable(runs), clens, 19) + ExtraOfRuns(RunTable(runs))
  {
    assert runs[..0] == [];
    RunsTailCost(clens, runs, 0);
    RunsCostIsDot(clens, runs);
  }

  /** The whole dynamic body: header, code length code, lengths and tokens. */
  lemma DynamicCost(plan: Plan, tokens: seq<nat>)
    requires Sound(plan, tokens) && AllWellPacked(tokens)
    ensures var freq := LitTable(tokens)[END_OF_BLOCK := LitTable(tokens)[END_OF_BLOCK] + 1];
            var t := RunTable(plan.runs);
            |DynamicBits(plan, tokens)|
            == Dot(freq, plan.g, |plan.g|) + Dot(DistTable(tokens), plan.b, |plan.b|) + ExtraTotal(tokens)
               + 14 + 3 * plan.a + Dot(t, Padded(plan.r), 19) + ExtraOfRuns(t)
  {
    hide LitTable, DistTable, RunTable, Dot, ExtraTotal, Codable, ExtraOfRuns, Runs.Expand;
    BodyCost(plan.g, plan.b, tokens);
    LengthsCost(Padded(plan.r), plan.runs);
    OrderBitsLength(plan.r, plan.a);
  }
}
