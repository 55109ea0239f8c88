/** The bit segments a block is made of, and that the decoder reads them back. */
module BlockFormat {
  import opened Bits
  import opened Options
  import opened BitStream
  import opened KraftSums
  import opened CanonicalCode
  import Runs = CodeLengthRuns
  import opened TokenFormat
  import opened Lz77
  import opened Inflate

  // ---------- tokens ----------

  const END_OF_BLOCK := 256

  /** Both codes are codable and have a word for every symbol this token needs. */
  ghost predicate Coded(lit: seq<nat>, dist: seq<nat>, token: nat) {
    && WellPacked(token) && LitSymbol(token) < |lit| && lit[LitSymbol(token)] > 0
    && (!IsMatch(token) ==> token < 256)
    && (IsMatch(token) ==> DistanceCode(token) < |dist| && dist[DistanceCode(token)] > 0)
  }

  ghost predicate CodesFor(lit: seq<nat>, dist: seq<nat>, tokens: seq<nat>) {
    && Codable(lit, 15) && Codable(dist, 15)
    && END_OF_BLOCK < |lit| && lit[END_OF_BLOCK] > 0
    && forall k :: 0 <= k < |tokens| ==> Coded(lit, dist, tokens[k])
  }

  /** A literal is its code; a match is length code, extra bits, distance code, extra bits. */
  ghost function TokenBits(lit: seq<nat>, dist: seq<nat>, token: nat): seq<bool>
    requires Coded(lit, dist, token)
  {
    if IsMatch(token) then CodeBits(lit, LitSymbol(token)) + MatchRest(dist, token) else CodeBits(lit, token)
  }

  /** The tokens from k on, and the end-of-block code. */
  ghost function TailBits(lit: seq<nat>, dist: seq<nat>, tokens: seq<nat>, k: nat): seq<bool>
    requires k <= |tokens| && CodesFor(lit, dist, tokens)
    decreases |tokens| - k
  {
    if k == |tokens| then CodeBits(lit, END_OF_BLOCK)
    else TokenBits(lit, dist, tokens[k]) + TailBits(lit, dist, tokens, k + 1)
  }

  lemma MatchFromFields(dist: seq<nat>, s: nat, bits: seq<bool>, p: nat, length: nat, d: nat, p2: nat, distance: nat)
    requires 257 <= s < 286 && d < 30
    requires ReadValue(bits, p, LenBits(s - 257)) == Some(length)
    requires DecodeSymbol(dist, bits, p + LenBits(s - 257)) == Some((d, p2))
    requires ReadValue(bits, p2, DistBits(d)) == Some(distance)
    ensures DecodeMatch(dist, s, bits, p)
         == Some(MatchEnd(LenBase(s - 257) + length, DistBase(d) + distance, p2 + DistBits(d)))
  {
    hide ReadValue, DecodeSymbol, LenBits, DistBits, LenBase, DistBase;
  }

  /** The three segments behind the length code of a match. */
  ghost function MatchRest(dist: seq<nat>, token: nat): seq<bool>
    requires WellPacked(token) && IsMatch(token) && DistanceCode(token) < |dist|
  {
    ValueBits(LengthExtra(token), LenBits(LengthCode(token)))
    + (CodeBits(dist, DistanceCode(token)) + ValueBits(DistanceExtra(token), DistBits(DistanceCode(token))))
  }

  lemma SplitThree(bits: seq<bool>, p: nat, b: seq<bool>, c: seq<bool>, x: seq<bool>)
    requires At(bits, p, b + (c + x))
    ensures At(bits, p, b) && At(bits, p + |b|, c) && At(bits, p + |b| + |c|, x)
  {
    AtSplit(bits, p, b, c + x);
    AtSplit(bits, p + |b|, c, x);
  }

  /** What the decoder reads behind the length code. */
  lemma MatchRestDecodes(dist: seq<nat>, token: nat, bits: seq<bool>, p: nat)
    requires Codable(dist, 15) && WellPacked(token) && IsMatch(token)
    requires DistanceCode(token) < |dist| && dist[DistanceCode(token)] > 0
    requires At(bits, p, MatchRest(dist, token))
    ensures DecodeMatch(dist, LitSymbol(token), bits, p)
         == Some(MatchEnd(MatchLength(token), MatchDistance(token), p + |MatchRest(dist, token)|))
  {
    hide At, DecodeSymbol, ReadValue, DecodeMatch, Codable, CodeBits, ValueBits, LengthCode, DistanceCode,
         LengthExtra, DistanceExtra, IsMatch, LenBits, DistBits, LenBase, DistBase;
    var lc, d := LengthCode(token), DistanceCode(token);
    var w, x := LenBits(lc), DistBits(d);
    var p1 := p + w;
    var p2 := p1 + dist[d];
    SplitThree(bits, p, ValueBits(LengthExtra(token), w), CodeBits(dist, d), ValueBits(DistanceExtra(token), x));
    ReadsBack(bits, p, LengthExtra(token), w);
    SymbolDecodes(dist, 15, d, bits, p1);
    ReadsBack(bits, p2, DistanceExtra(token), x);
    MatchFromFields(dist, 257 + lc, bits, p, LengthExtra(token), d, p2, DistanceExtra(token));
  }

  lemma DataMatchStep(lit: seq<nat>, dist: seq<nat>, s: nat, bits: seq<bool>, pos: nat, p: nat, m: MatchEnd, out: seq<nat>)
    requires DecodeSymbol(lit, bits, pos) == Some((s, p)) && 257 <= s < 286
    requires DecodeMatch(dist, s, bits, p) == Some(m) && 1 <= m.distance <= |out|
    ensures DecodeData(lit, dist, bits, pos, out)
         == DecodeData(lit, dist, bits, m.pos, CopyMatch(out, m.length, m.distance))
  {
  }

  lemma DataLiteralStep(lit: seq<nat>, dist: seq<nat>, s: nat, bits: seq<bool>, pos: nat, p: nat, out: seq<nat>)
    requires DecodeSymbol(lit, bits, pos) == Some((s, p)) && s < 256
    ensures DecodeData(lit, dist, bits, pos, out) == DecodeData(lit, dist, bits, p, out + [s])
  {
  }

  lemma PlayedMatch(out: seq<nat>, token: nat, next: seq<nat>)
    requires IsMatch(token) && WellPacked(token) && PlayToken(out, token) == Some(next)
    ensures 1 <= MatchDistance(token) <= |out|
    ensures next == CopyMatch(out, MatchLength(token), MatchDistance(token))
  {
  }

  lemma MatchTokenDecodes(lit: seq<nat>, dist: seq<nat>, token: nat, bits: seq<bool>, pos: nat, out: seq<nat>, next: seq<nat>)
    requires Codable(lit, 15) && Codable(dist, 15) && Coded(lit, dist, token) && IsMatch(token)
    requires At(bits, pos, CodeBits(lit, LitSymbol(token)) + MatchRest(dist, token)) && PlayToken(out, token) == Some(next)
    ensures DecodeData(lit, dist, bits, pos, out)
         == DecodeData(lit, dist, bits, pos + lit[LitSymbol(token)] + |MatchRest(dist, token)|, next)
  {
    hide At, DecodeSymbol, DecodeMatch, DecodeData, Codable, CodeBits, MatchRest, LengthCode, DistanceCode,
         PlayToken, CopyMatch, MatchLength, MatchDistance, IsMatch;
    var s := LitSymbol(token);
    var p := pos + lit[s];
    AtSplit(bits, pos, CodeBits(lit, s), MatchRest(dist, token));
    SymbolDecodes(lit, 15, s, bits, pos);
    MatchRestDecodes(dist, token, bits, p);
    PlayedMatch(out, token, next);
    DataMatchStep(lit, dist, s, bits, pos, p,
                  MatchEnd(MatchLength(token), MatchDistance(token), p + |MatchRest(dist, token)|), out);
  }

  /** One token: the decoder moves on as playing it does. */
  lemma TokenDecodes(lit: seq<nat>, dist: seq<nat>, token: nat, bits: seq<bool>, pos: nat, out: seq<nat>, next: seq<nat>)
    requires Codable(lit, 15) && Codable(dist, 15) && Coded(lit, dist, token)
    requires At(bits, pos, TokenBits(lit, dist, token)) && PlayToken(out, token) == Some(next)
    ensures DecodeData(lit, dist, bits, pos, out)
         == DecodeData(lit, dist, bits, pos + |TokenBits(lit, dist, token)|, next)
  {
    hide At, DecodeSymbol, DecodeData, Codable, CodeBits, MatchRest;
    if IsMatch(token) {
      MatchTokenDecodes(lit, dist, token, bits, pos, out, next);
    } else {
      LiteralTokenDecodes(lit, dist, token, bits, pos, out);
    }
  }

  lemma LiteralTokenDecodes(lit: seq<nat>, dist: seq<nat>, token: nat, bits: seq<bool>, pos: nat, out: seq<nat>)
    requires Codable(lit, 15) && !IsMatch(token) && Coded(lit, dist, token) && At(bits, pos, CodeBits(lit, token))
    ensures DecodeData(lit, dist, bits, pos, out) == DecodeData(lit, dist, bits, pos + |CodeBits(lit, token)|, out + [token])
  {
    hide At, DecodeSymbol, DecodeData, Codable;
    SymbolDecodes(lit, 15, token, bits, pos);
    DataLiteralStep(lit, dist, token, bits, pos, pos + lit[token], out);
  }

  lemma PlayStep(out0: seq<nat>, tokens: seq<nat>, k: nat, out: seq<nat>) returns (next: seq<nat>)
    requires k < |tokens| && Play(out0, tokens[..k]) == Some(out) && Play(out0, tokens).Some?
    ensures PlayToken(out, tokens[k]) == Some(next) && Play(out0, tokens[..k + 1]) == Some(next)
  {
    PlayPrefix(out0, tokens, k + 1);
    assert tokens[..k + 1] == tokens[..k] + [tokens[k]];
    PlayOneMore(out0, tokens[..k], tokens[k]);
    next := Play(out0, tokens[..k + 1]).value;
  }

  lemma EndDecodes(lit: seq<nat>, dist: seq<nat>, bits: seq<bool>, pos: nat, out: seq<nat>)
    requires Codable(lit, 15) && END_OF_BLOCK < |lit| && lit[END_OF_BLOCK] > 0
    requires At(bits, pos, CodeBits(lit, END_OF_BLOCK))
    ensures DecodeData(lit, dist, bits, pos, out) == Some((out, pos + |CodeBits(lit, END_OF_BLOCK)|))
  {
    SymbolDecodes(lit, 15, END_OF_BLOCK, bits, pos);
  }

  /** Decoding from token k on gives what playing the remaining tokens gives. */
  lemma {:induction false} DataDecodes(lit: seq<nat>, dist: seq<nat>, tokens: seq<nat>, k: nat, bits: seq<bool>, pos: nat,
                                       out0: seq<nat>, out: seq<nat>, all: seq<nat>)
    requires k <= |tokens| && CodesFor(lit, dist, tokens)
    requires At(bits, pos, TailBits(lit, dist, tokens, k))
    requires Play(out0, tokens[..k]) == Some(out) && Play(out0, tokens) == Some(all)
    ensures DecodeData(lit, dist, bits, pos, out) == Some((all, pos + |TailBits(lit, dist, tokens, k)|))
    decreases |tokens| - k
  {
    hide At, DecodeData, Codable, CodeBits, TokenBits, Play, PlayToken;
    if k == |tokens| {
      assert tokens[..k] == tokens;
      EndDecodes(lit, dist, bits, pos, out);
    } else {
      var t, rest := TokenBits(lit, dist, tokens[k]), TailBits(lit, dist, tokens, k + 1);
      AtSplit(bits, pos, t, rest);
      var next := PlayStep(out0, tokens, k, out);
      TokenDecodes(lit, dist, tokens[k], bits, pos, out, next);
      DataDecodes(lit, dist, tokens, k + 1, bits, pos + |t|, out0, next, all);
    }
  }

  lemma {:induction false} PlayPrefix(out: seq<nat>, tokens: seq<nat>, k: nat)
    requires k <= |tokens| && Play(out, tokens).Some?
    ensures Play(out, tokens[..k]).Some?
    decreases |tokens|
  {
    if k == |tokens| {
      assert tokens[..k] == tokens;
    } else {
      var shorter := tokens[..|tokens| - 1];
      assert shorter[..k] == tokens[..k];
      PlayPrefix(out, shorter, k);
    }
  }

  // ---------- run-length coded lengths ----------

  ghost predicate RunCoded(clens: seq<nat>, m: nat) {
    Runs.ProperRun(m) && Runs.Symbol(m) < |clens| && clens[Runs.Symbol(m)] > 0
  }

  ghost function RunBits(clens: seq<nat>, m: nat): seq<bool>
    requires RunCoded(clens, m)
  {
    CodeBits(clens, Runs.Symbol(m)) + ValueBits(Runs.Extra(m), Runs.WidthOf(Runs.Symbol(m)))
  }

  ghost predicate RunsCoded(clens: seq<nat>, runs: seq<nat>) {
    forall k :: 0 <= k < |runs| ==> RunCoded(clens, runs[k])
  }

  /** The runs from k on. */
  ghost function RunsTail(clens: seq<nat>, runs: seq<nat>, k: nat): seq<bool>
    requires k <= |runs| && RunsCoded(clens, runs)
    decreases |runs| - k
  {
    if k == |runs| then [] else RunBits(clens, runs[k]) + RunsTail(clens, runs, k + 1)
  }

  lemma DecodeAppends(out: seq<nat>, before: seq<nat>, symbol: nat, extra: nat)
    requires Runs.Decode(out, symbol, extra).Some?
    ensures |Runs.Decode(out, symbol, extra).value| > |out|
    ensures Runs.Decode(before + out, symbol, extra) == Some(before + Runs.Decode(out, symbol, extra).value)
  {
    var more := Runs.Decode(out, symbol, extra).value;
    if symbol == 16 {
      assert (before + out)[|before + out| - 1] == out[|out| - 1];
    }
    assert before + more == (before + out) + more[|out|..];
  }

  /** Runs coded one after the other expand to the tables one after the other. */
  lemma {:induction false} ExpandConcat(a: seq<nat>, b: seq<nat>)
    requires Runs.Expand(a).Some? && Runs.Expand(b).Some?
    ensures Runs.Expand(a + b) == Some(Runs.Expand(a).value + Runs.Expand(b).value)
  {
    if b == [] {
      assert a + b == a;
      assert Runs.Expand(a).value + [] == Runs.Expand(a).value;
    } else {
      var m := b[|b| - 1];
      assert (a + b)[..|a + b| - 1] == a + b[..|b| - 1];
      ExpandConcat(a, b[..|b| - 1]);
      DecodeAppends(Runs.Expand(b[..|b| - 1]).value, Runs.Expand(a).value, Runs.Symbol(m), Runs.Extra(m));
    }
  }

  lemma {:induction false} ExpandPrefix(runs: seq<nat>, k: nat)
    requires k <= |runs| && Runs.Expand(runs).Some?
    ensures Runs.Expand(runs[..k]).Some?
    ensures |Runs.Expand(runs[..k]).value| + (|runs| - k) <= |Runs.Expand(runs).value|
    decreases |runs|
  {
    if k == |runs| {
      assert runs[..k] == runs;
    } else {
      var shorter, m := runs[..|runs| - 1], runs[|runs| - 1];
      assert shorter[..k] == runs[..k];
      ExpandPrefix(shorter, k);
      DecodeAppends(Runs.Expand(shorter).value, [], Runs.Symbol(m), Runs.Extra(m));
    }
  }

  lemma ExpandStep(runs: seq<nat>, k: nat, acc: seq<nat>) returns (more: seq<nat>)
    requires k < |runs| && Runs.Expand(runs).Some? && Runs.Expand(runs[..k]) == Some(acc)
    ensures Runs.Decode(acc, Runs.Symbol(runs[k]), Runs.Extra(runs[k])) == Some(more)
    ensures Runs.Expand(runs[..k + 1]) == Some(more) && |acc| < |Runs.Expand(runs).value|
  {
    ExpandPrefix(runs, k);
    ExpandPrefix(runs, k + 1);
    assert runs[..k + 1][..k] == runs[..k];
    more := Runs.Expand(runs[..k + 1]).value;
  }

  lemma LengthsStep(clens: seq<nat>, bits: seq<bool>, pos: nat, count: nat, acc: seq<nat>,
                    symbol: nat, p: nat, extra: nat, more: seq<nat>)
    requires |acc| < count && DecodeSymbol(clens, bits, pos) == Some((symbol, p))
    requires ReadValue(bits, p, Runs.WidthOf(symbol)) == Some(extra) && Runs.Decode(acc, symbol, extra) == Some(more)
    ensures DecodeLengths(clens, bits, pos, count, acc)
         == DecodeLengths(clens, bits, p + Runs.WidthOf(symbol), count, more)
  {
  }

  lemma LengthsDone(clens: seq<nat>, bits: seq<bool>, pos: nat, all: seq<nat>)
    ensures DecodeLengths(clens, bits, pos, |all|, all) == Some((all, pos))
  {
  }

  lemma RunDecodes(clens: seq<nat>, m: nat, bits: seq<bool>, pos: nat)
    requires Codable(clens, 7) && RunCoded(clens, m) && At(bits, pos, RunBits(clens, m))
    ensures var p := pos + clens[Runs.Symbol(m)];
            && DecodeSymbol(clens, bits, pos) == Some((Runs.Symbol(m), p))
            && ReadValue(bits, p, Runs.WidthOf(Runs.Symbol(m))) == Some(Runs.Extra(m))
            && p + Runs.WidthOf(Runs.Symbol(m)) == pos + |RunBits(clens, m)|
  {
    hide At, DecodeSymbol, ReadValue, Codable, CodeBits, ValueBits, Runs.Symbol, Runs.Extra, Runs.WidthOf;
    var s := Runs.Symbol(m);
    AtSplit(bits, pos, CodeBits(clens, s), ValueBits(Runs.Extra(m), Runs.WidthOf(s)));
    SymbolDecodes(clens, 7, s, bits, pos);
    ReadsBack(bits, pos + clens[s], Runs.Extra(m), Runs.WidthOf(s));
  }

  /** Decoding the runs from k on completes the table. */
  lemma {:induction false} LengthsDecode(clens: seq<nat>, runs: seq<nat>, k: nat, bits: seq<bool>, pos: nat,
                                         acc: seq<nat>, all: seq<nat>)
    requires k <= |runs| && Codable(clens, 7) && RunsCoded(clens, runs)
    requires At(bits, pos, RunsTail(clens, runs, k))
    requires Runs.Expand(runs[..k]) == Some(acc) && Runs.Expand(runs) == Some(all)
    ensures DecodeLengths(clens, bits, pos, |all|, acc) == Some((all, pos + |RunsTail(clens, runs, k)|))
    decreases |runs| - k
  {
    hide At, DecodeSymbol, ReadValue, DecodeLengths, Codable, CodeBits, ValueBits, RunCoded, RunBits,
         Runs.Expand, Runs.Decode, Runs.Symbol, Runs.Extra, Runs.WidthOf;
    if k == |runs| {
      assert runs[..k] == runs;
      LengthsDone(clens, bits, pos, all);
    } else {
      var m, t := runs[k], RunBits(clens, runs[k]);
      AtSplit(bits, pos, t, RunsTail(clens, runs, k + 1));
      RunDecodes(clens, m, bits, pos);
      var more := ExpandStep(runs, k, acc);
      LengthsStep(clens, bits, pos, |all|, acc, Runs.Symbol(m), pos + clens[Runs.Symbol(m)], Runs.Extra(m), more);
      LengthsDecode(clens, runs, k + 1, bits, pos + |t|, more, all);
    }
  }

  // ---------- the code length code ----------

  /** Where each code length symbol stands in the transmission order. */
  const PLACE: seq<nat> := [3, 17, 15, 13, 11, 9, 7, 5, 4, 6, 8, 10, 12, 14, 16, 18, 0, 1, 2]

  function PlaceOf(s: nat): nat
    requires s < 19
  {
    PLACE[s]
  }

  lemma OrderPlaces(i: nat)
    requires i < 19
    ensures PlaceOf(i) < 19 && OrderAt(PlaceOf(i)) == i && OrderAt(i) < 19 && PlaceOf(OrderAt(i)) == i
  {
  }

  ghost function OrderBits(r: seq<nat>, n: nat): seq<bool>
    requires n <= 19
  {
    if n == 0 then [] else OrderBits(r, n - 1) + ValueBits(LenAt(r, OrderAt(n - 1)), 3)
  }

  lemma {:induction false} OrderBitsLength(r: seq<nat>, n: nat)
    requires n <= 19
    ensures |OrderBits(r, n)| == 3 * n
  {
    if n > 0 {
      OrderBitsLength(r, n - 1);
    }
  }

  /** Lengths at the first n places of the order arrive at their symbols. */
  lemma {:induction false} OrderDecodes(r: seq<nat>, n: nat, bits: seq<bool>, pos: nat)
    requires n <= 19 && At(bits, pos, OrderBits(r, n)) && forall s :: 0 <= s < |r| ==> r[s] < 8
    ensures pos + 3 * n <= |bits|
    ensures forall s :: 0 <= s < 19 ==> ReadOrder(bits, pos, n)[s] == if PlaceOf(s) < n then LenAt(r, s) else 0
  {
    hide OrderAt, PlaceOf;
    OrderBitsLength(r, n);
    if n > 0 {
      OrderBitsLength(r, n - 1);
      OrderPlaces(n - 1);
      var v := LenAt(r, OrderAt(n - 1));
      AtSplit(bits, pos, OrderBits(r, n - 1), ValueBits(v, 3));
      assert Pow2(3) == 8;
      ReadsBack(bits, pos + 3 * (n - 1), v, 3);
      OrderDecodes(r, n - 1, bits, pos);
      forall s | 0 <= s < 19 ensures ReadOrder(bits, pos, n)[s] == if PlaceOf(s) < n then LenAt(r, s) else 0 {
        OrderPlaces(s);
      }
    }
  }

  /** A table of code lengths filled up to 19 entries. */
  function Padded(r: seq<nat>): seq<nat> {
    seq(19, s requires 0 <= s => LenAt(r, s))
  }

  lemma {:induction false} PaddedCount(r: seq<nat>, k: nat, len: nat)
    requires |r| <= 19 && k <= 19 && len > 0
    ensures Count(Padded(r), k, len) == Count(r, if k <= |r| then k else |r|, len)
  {
    if k > 0 {
      PaddedCount(r, k - 1, len);
    }
  }

  lemma {:induction false} PaddedFirstCode(r: seq<nat>, len: nat)
    requires |r| <= 19
    ensures FirstCode(Padded(r), len) == FirstCode(r, len)
  {
    if len > 1 {
      PaddedFirstCode(r, len - 1);
      PaddedCount(r, 19, len - 1);
    }
  }

  lemma {:induction false} PaddedKraft(r: seq<nat>, k: nat, w: nat)
    requires |r| <= 19 && k <= 19
    ensures TableKraft(Padded(r), k, w) == TableKraft(r, if k <= |r| then k else |r|, w)
  {
    if k > 0 {
      PaddedKraft(r, k - 1, w);
    }
  }

  /** Filling up with zeros changes neither the codes nor their validity. */
  lemma PaddedCodes(r: seq<nat>)
    requires |r| <= 19 && Codable(r, 7)
    ensures Codable(Padded(r), 7)
    ensures forall s :: 0 <= s < |r| && r[s] > 0 ==> CodeBits(Padded(r), s) == CodeBits(r, s)
  {
    PaddedKraft(r, 19, 7);
    forall s | 0 <= s < |r| && r[s] > 0 ensures CodeBits(Padded(r), s) == CodeBits(r, s) {
      PaddedFirstCode(r, r[s]);
      PaddedCount(r, s, r[s]);
    }
  }
}
