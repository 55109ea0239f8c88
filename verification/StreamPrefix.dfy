/** The decoder reads no further than it says: what a prefix of a stream decodes to, the stream decodes to. */
module StreamPrefix {
  import opened Options
  import opened BitStream
  import opened CanonicalCode
  import opened TokenFormat
  import opened Lz77
  import opened Inflate
  import opened BlockDecoding
  import Runs = CodeLengthRuns

  lemma ValueExtends(s: seq<bool>, t: seq<bool>, pos: nat, w: nat)
    requires s <= t && pos + w <= |s|
    ensures ReadValue(t, pos, w) == ReadValue(s, pos, w) && t[pos..pos + w] == s[pos..pos + w]
  {
    assert t[..|s|] == s;
    assert t[pos..pos + w] == t[..|s|][pos..pos + w];
  }

  /** With a prefix code, a symbol that is read is the only one that can be. */
  lemma SymbolExtends(lens: seq<nat>, w: nat, s: seq<bool>, t: seq<bool>, pos: nat)
    requires Codable(lens, w) && s <= t && DecodeSymbol(lens, s, pos).Some?
    ensures DecodeSymbol(lens, t, pos) == DecodeSymbol(lens, s, pos)
  {
    hide Codable, FindSymbol;
    var x := FindSymbol(lens, s, pos, |lens|).value;
    assert CodeHere(lens, x, t, pos);
    FindsSymbol(lens, w, x, t, pos, |lens|);
  }

  lemma MatchExtends(dist: seq<nat>, x: nat, s: seq<bool>, t: seq<bool>, pos: nat)
    requires 257 <= x < 286 && Codable(dist, 15) && s <= t && DecodeMatch(dist, x, s, pos).Some?
    ensures DecodeMatch(dist, x, t, pos) == DecodeMatch(dist, x, s, pos)
    ensures DecodeMatch(dist, x, s, pos).value.pos <= |s|
  {
    hide Codable, DecodeSymbol, BitsValue, LenBits, LenBase, DistBits, DistBase;
    var w := LenBits(x - 257);
    ValueExtends(s, t, pos, w);
    SymbolExtends(dist, 15, s, t, pos + w);
    var (d, p) := DecodeSymbol(dist, s, pos + w).value;
    ValueExtends(s, t, p, DistBits(d));
  }

  lemma {:induction false} DataExtends(lit: seq<nat>, dist: seq<nat>, s: seq<bool>, t: seq<bool>, pos: nat, out: seq<nat>)
    requires Codable(lit, 15) && Codable(dist, 15) && s <= t && DecodeData(lit, dist, s, pos, out).Some?
    ensures DecodeData(lit, dist, t, pos, out) == DecodeData(lit, dist, s, pos, out)
    ensures DecodeData(lit, dist, s, pos, out).value.1 <= |s|
    decreases |s| - pos
  {
    hide Codable, DecodeSymbol, DecodeMatch, CopyMatch;
    SymbolExtends(lit, 15, s, t, pos);
    var (x, p) := DecodeSymbol(lit, s, pos).value;
    if x < 256 {
      DataExtends(lit, dist, s, t, p, out + [x]);
    } else if x > 256 {
      MatchExtends(dist, x, s, t, p);
      var m := DecodeMatch(dist, x, s, p).value;
      DataExtends(lit, dist, s, t, m.pos, CopyMatch(out, m.length, m.distance));
    }
  }

  lemma {:induction false} OrderExtends(s: seq<bool>, t: seq<bool>, pos: nat, n: nat)
    requires s <= t && n <= 19 && pos + 3 * n <= |s|
    ensures ReadOrder(t, pos, n) == ReadOrder(s, pos, n)
  {
    if n > 0 {
      OrderExtends(s, t, pos, n - 1);
      ValueExtends(s, t, pos + 3 * (n - 1), 3);
    }
  }

  lemma {:induction false} LengthsExtend(clens: seq<nat>, s: seq<bool>, t: seq<bool>, pos: nat, count: nat, acc: seq<nat>)
    requires Codable(clens, 7) && s <= t && pos <= |s| && DecodeLengths(clens, s, pos, count, acc).Some?
    ensures DecodeLengths(clens, t, pos, count, acc) == DecodeLengths(clens, s, pos, count, acc)
    ensures DecodeLengths(clens, s, pos, count, acc).value.1 <= |s|
    decreases |s| - pos
  {
    hide Codable, DecodeSymbol, BitsValue, Runs.WidthOf, Runs.Decode;
    if |acc| < count {
      SymbolExtends(clens, 7, s, t, pos);
      var (symbol, p) := DecodeSymbol(clens, s, pos).value;
      var w := Runs.WidthOf(symbol);
      ValueExtends(s, t, p, w);
      var more := Runs.Decode(acc, symbol, ReadValue(s, p, w).value).value;
      LengthsExtend(clens, s, t, p + w, count, more);
    }
  }

  lemma {:induction false} BytesExtend(s: seq<bool>, t: seq<bool>, pos: nat, n: nat)
    requires s <= t && pos + 8 * n <= |s|
    ensures ReadBytes(t, pos, n) == ReadBytes(s, pos, n)
  {
    if n > 0 {
      BytesExtend(s, t, pos, n - 1);
      ValueExtends(s, t, pos + 8 * (n - 1), 8);
    }
  }

  lemma StoredExtends(s: seq<bool>, t: seq<bool>, pos: nat, out: seq<nat>)
    requires s <= t && DecodeStored(s, pos, out).Some?
    ensures DecodeStored(t, pos, out) == DecodeStored(s, pos, out) && DecodeStored(s, pos, out).value.1 <= |s|
  {
    hide BitsValue, ReadBytes;
    var p := (pos + 7) / 8 * 8;
    ValueExtends(s, t, p, 16);
    ValueExtends(s, t, p + 16, 16);
    BytesExtend(s, t, p + 32, ReadValue(s, p, 16).value);
  }

  lemma DynamicExtends(s: seq<bool>, t: seq<bool>, pos: nat, out: seq<nat>)
    requires s <= t && DecodeDynamic(s, pos, out).Some?
    ensures DecodeDynamic(t, pos, out) == DecodeDynamic(s, pos, out) && DecodeDynamic(s, pos, out).value.1 <= |s|
  {
    hide BitsValue, Codable, ReadOrder, DecodeLengths, DecodeData;
    ValueExtends(s, t, pos, 5);
    ValueExtends(s, t, pos + 5, 5);
    ValueExtends(s, t, pos + 10, 4);
    var hlit, hdist := BitsValue(s[pos..pos + 5]) + 257, BitsValue(s[pos + 5..pos + 10]) + 1;
    var hclen := BitsValue(s[pos + 10..pos + 14]) + 4;
    OrderExtends(s, t, pos + 14, hclen);
    var clens := ReadOrder(s, pos + 14, hclen);
    var q := pos + 14 + 3 * hclen;
    LengthsExtend(clens, s, t, q, hlit + hdist, []);
    var (lens, p) := DecodeLengths(clens, s, q, hlit + hdist, []).value;
    DataExtends(lens[..hlit], lens[hlit..], s, t, p, out);
  }

  lemma BlockExtends(s: seq<bool>, t: seq<bool>, pos: nat, out: seq<nat>)
    requires s <= t && DecodeBlock(s, pos, out).Some?
    ensures DecodeBlock(t, pos, out) == DecodeBlock(s, pos, out) && DecodeBlock(s, pos, out).value.pos <= |s|
  {
    hide BitsValue, DecodeStored, DecodeData, DecodeDynamic, FixedLit, FixedDist;
    ValueExtends(s, t, pos + 1, 2);
    var kind := BitsValue(s[pos + 1..pos + 3]);
    if kind == 0 {
      StoredExtends(s, t, pos + 3, out);
    } else if kind == 1 {
      FixedCodable();
      DataExtends(FixedLit(), FixedDist(), s, t, pos + 3, out);
    } else if kind == 2 {
      DynamicExtends(s, t, pos + 3, out);
    }
  }
}
