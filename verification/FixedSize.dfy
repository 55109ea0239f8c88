/** The size of a block in the fixed form, from the bytes it covers. */
module FixedSize {
  import opened Options
  import opened TokenFormat
  import opened Lz77
  import opened Inflate
  import opened BlockFormat
  import opened BlockDecoding
  import opened BlockCosts

  /** How many bytes from 144 on there are: the ones whose fixed code has nine bits. */
  function High(e: seq<nat>): nat {
    if e == [] then 0 else High(e[..|e| - 1]) + (if e[|e| - 1] >= 144 then 1 else 0)
  }

  lemma {:induction false} HighPrefix(a: seq<nat>, e: seq<nat>)
    requires a <= e
    ensures High(a) <= High(e)
  {
    if a == e {
    } else {
      assert a <= e[..|e| - 1];
      HighPrefix(a, e[..|e| - 1]);
    }
  }

  /** The bytes a copy adds repeat those distance earlier. */
  lemma {:induction false} CopyExtends(out: seq<nat>, length: nat, distance: nat)
    requires 1 <= distance <= |out|
    ensures out <= CopyMatch(out, length, distance) && |CopyMatch(out, length, distance)| == |out| + length
    ensures forall i | |out| <= i < |out| + length ::
              CopyMatch(out, length, distance)[i] == CopyMatch(out, length, distance)[i - distance]
    decreases length
  {
    if length > 0 {
      var more := out + [out[|out| - distance]];
      CopyExtends(more, length - 1, distance);
      var all := CopyMatch(more, length - 1, distance);
      assert all[|out|] == more[|out|] && all[|out| - distance] == more[|out| - distance];
    }
  }

  /** Within 8192 bytes a match has no more than 11 extra bits of distance. */
  lemma NearDistance(code: nat)
    requires code < 30 && DistBase(code) <= 8192
    ensures DistBits(code) <= 11
  {
  }

  /** The length symbol, its extra bits and 16 more do not exceed eight bits for each byte of the match. */
  lemma LengthPays(code: nat)
    requires code < 29
    ensures FixedLit()[257 + code] + LenBits(code) + 16 <= 8 * LenBase(code)
  {
    if code >= 8 {
      assert LenBase(code) >= 11 && LenBits(code) <= 5;
    }
  }

  /** One token: a match takes at most eight bits for each of its bytes, a byte from 144 on takes nine, another eight. */
  lemma FixedTokenFits(out: seq<nat>, token: nat, e: seq<nat>)
    requires Coded(FixedLit(), FixedDist(), token) && PlayToken(out, token) == Some(e) && |e| <= 8192
    ensures out <= e && TokenCost(FixedLit(), FixedDist(), token) + 8 * |out| + High(out) <= 8 * |e| + High(e)
  {
    hide FixedLit, FixedDist, High, LengthCode, DistanceCode, LengthExtra, DistanceExtra, LenBits, DistBits, LenBase, DistBase;
    if IsMatch(token) {
      CopyExtends(out, MatchLength(token), MatchDistance(token));
      NearDistance(DistanceCode(token));
      LengthPays(LengthCode(token));
      FixedDistance(DistanceCode(token));
      HighPrefix(out, e);
    } else {
      FixedLiteral(out, token);
    }
  }

  lemma FixedDistance(code: nat)
    requires code < 30
    ensures |FixedDist()| == 32 && FixedDist()[code] == 5
  {
  }

  lemma FixedLiteral(out: seq<nat>, v: nat)
    requires v < 256
    ensures |FixedLit()| == 288 && FixedLit()[v] + High(out) == 8 + High(out + [v])
  {
    assert (out + [v])[..|out|] == out;
  }

  lemma {:induction false} FixedTokensFit(tokens: seq<nat>, e: seq<nat>)
    requires forall k :: 0 <= k < |tokens| ==> Coded(FixedLit(), FixedDist(), tokens[k])
    requires Play([], tokens) == Some(e) && |e| <= 8192
    ensures TokensCost(FixedLit(), FixedDist(), tokens) <= 8 * |e| + High(e)
  {
    hide Coded, TokenCost, FixedLit, FixedDist, PlayToken;
    if tokens != [] {
      var before, token := tokens[..|tokens| - 1], tokens[|tokens| - 1];
      var sofar := Play([], before).value;
      FixedTokenFits(sofar, token, e);
      FixedTokensFit(before, sofar);
    }
  }

  /** A sole block of at most 8192 bytes in the fixed form: eight bits a byte, one more for each byte from 144 on,
      and the seven that end the block. */
  lemma FixedFits(tokens: seq<nat>, e: seq<nat>)
    requires AllWellPacked(tokens) && Play([], tokens) == Some(e) && |e| <= 8192
    ensures |FixedBits(tokens)| <= 8 * |e| + High(e) + 7
  {
    hide TokensCost, Coded, Play, High;
    FixedCodesFor(tokens);
    FixedEnd();
    assert tokens[..0] == [];
    NoCost(FixedLit(), FixedDist());
    TailBitsCost(FixedLit(), FixedDist(), tokens, 0);
    FixedTokensFit(tokens, e);
  }

  lemma FixedEnd()
    ensures |FixedLit()| == 288 && FixedLit()[END_OF_BLOCK] == 7
  {
  }
}
