/** The LZ77 match finder: hash chains propose, byte comparison decides. */
module Lz77 {
  import opened Bits
  import opened Options
  import opened TokenFormat

  /** What one block hands to the block writer. */
  datatype Block = Block(tokens: seq<nat>, litFreq: seq<nat>, distFreq: seq<nat>, extraBits: nat,
                         start: nat, count: nat, final: bool)

  // ---------- the decoder's view of tokens ----------

  /** Append length bytes, each copied from distance back, as section 3.2.3 of RFC 1951 lets them overlap. */
  function CopyMatch(out: seq<nat>, length: nat, distance: nat): seq<nat>
    requires 1 <= distance <= |out|
    decreases length
  {
    if length == 0 then out else CopyMatch(out + [out[|out| - distance]], length - 1, distance)
  }

  function MatchLength(token: nat): nat
    requires LengthCode(token) < 29
  {
    LenBase(LengthCode(token)) + LengthExtra(token)
  }

  function MatchDistance(token: nat): nat
    requires DistanceCode(token) < 30
  {
    DistBase(DistanceCode(token)) + DistanceExtra(token)
  }

  function PlayToken(out: seq<nat>, token: nat): Option<seq<nat>> {
    if !IsMatch(token) then Some(out + [token])
    else if LengthCode(token) < 29 && DistanceCode(token) < 30 && 1 <= MatchDistance(token) <= |out| then
      Some(CopyMatch(out, MatchLength(token), MatchDistance(token)))
    else None
  }

  function Play(out: seq<nat>, tokens: seq<nat>): Option<seq<nat>> {
    if tokens == [] then Some(out)
    else
      match Play(out, tokens[..|tokens| - 1])
      case None => None
      case Some(sofar) => PlayToken(sofar, tokens[|tokens| - 1])
  }

  /** Play the blocks one after the other; distances may reach back into earlier blocks. */
  function PlayBlocks(blocks: seq<Block>): Option<seq<nat>> {
    if blocks == [] then Some([])
    else
      match PlayBlocks(blocks[..|blocks| - 1])
      case None => None
      case Some(sofar) => Play(sofar, blocks[|blocks| - 1].tokens)
  }

  // ---------- tallies ----------

  /** The literal/length symbol a token is coded with. */
  function LitSymbol(token: nat): nat {
    if IsMatch(token) then 257 + LengthCode(token) else token
  }

  function LitCount(tokens: seq<nat>, s: nat): nat {
    if tokens == [] then 0
    else LitCount(tokens[..|tokens| - 1], s) + (if LitSymbol(tokens[|tokens| - 1]) == s then 1 else 0)
  }

  function DistCount(tokens: seq<nat>, d: nat): nat {
    if tokens == [] then 0
    else
      var token := tokens[|tokens| - 1];
      DistCount(tokens[..|tokens| - 1], d) + (if IsMatch(token) && DistanceCode(token) == d then 1 else 0)
  }

  function MatchCount(tokens: seq<nat>): nat {
    if tokens == [] then 0
    else MatchCount(tokens[..|tokens| - 1]) + (if IsMatch(tokens[|tokens| - 1]) then 1 else 0)
  }

  function TokenExtra(token: nat): nat
    requires WellPacked(token)
  {
    if IsMatch(token) then LenBits(LengthCode(token)) + DistBits(DistanceCode(token)) else 0
  }

  /** The fields of a packed token are codes of the format with extra values that fit. */
  predicate WellPacked(token: nat) {
    IsMatch(token) ==>
      && LengthCode(token) < 29 && LengthExtra(token) < Pow2(LenBits(LengthCode(token)))
      && DistanceCode(token) < 30 && DistanceExtra(token) < Pow2(DistBits(DistanceCode(token)))
  }

  ghost predicate AllWellPacked(tokens: seq<nat>) {
    forall k :: 0 <= k < |tokens| ==> WellPacked(tokens[k])
  }

  function ExtraTotal(tokens: seq<nat>): nat
    requires AllWellPacked(tokens)
  {
    if tokens == [] then 0 else ExtraTotal(tokens[..|tokens| - 1]) + TokenExtra(tokens[|tokens| - 1])
  }

  /** The frequency tables and the extra-bit total belong to these tokens. */
  ghost predicate Tally(tokens: seq<nat>, lit: seq<nat>, dist: seq<nat>, extra: nat) {
    && |lit| == 288 && |dist| == 32 && AllWellPacked(tokens)
    && (forall s :: 0 <= s < 288 ==> lit[s] == LitCount(tokens, s))
    && (forall d :: 0 <= d < 32 ==> dist[d] == DistCount(tokens, d))
    && extra == ExtraTotal(tokens)
  }

  lemma TallyLiteral(tokens: seq<nat>, lit: seq<nat>, dist: seq<nat>, extra: nat, v: nat)
    requires Tally(tokens, lit, dist, extra) && v < 256
    ensures Tally(tokens + [v], lit[v := lit[v] + 1], dist, extra)
  {
    assert (tokens + [v])[..|tokens|] == tokens;
  }

  lemma TallyMatch(tokens: seq<nat>, lit: seq<nat>, dist: seq<nat>, extra: nat, token: nat)
    requires Tally(tokens, lit, dist, extra) && IsMatch(token) && WellPacked(token)
    ensures var v, k := LengthCode(token), DistanceCode(token);
            Tally(tokens + [token], lit[257 + v := lit[257 + v] + 1], dist[k := dist[k] + 1],
                  extra + LenBits(v) + DistBits(k))
  {
    assert (tokens + [token])[..|tokens|] == tokens;
  }

  // ---------- matches ----------

  /** The length bytes at l repeat those distance earlier. */
  ghost predicate Repeats(e: seq<nat>, l: nat, length: nat, distance: nat) {
    && 1 <= distance <= l && l + length <= |e|
    && forall i :: l <= i < l + length ==> e[i] == e[i - distance]
  }

  /** What the search may return: nothing, or a match the format can express. */
  ghost predicate GoodMatch(e: seq<nat>, l: nat, length: nat, distance: nat) {
    distance != 0 ==> 3 <= length <= 258 && distance <= 32767 && Repeats(e, l, length, distance)
  }

  lemma {:induction false} CopyRepeats(e: seq<nat>, l: nat, length: nat, distance: nat)
    requires Repeats(e, l, length, distance)
    ensures CopyMatch(e[..l], length, distance) == e[..l + length]
    decreases length
  {
    if length > 0 {
      assert e[l] == e[l - distance];
      assert e[..l] + [e[l - distance]] == e[..l + 1];
      CopyRepeats(e, l + 1, length - 1, distance);
    }
  }

  /** The distance from b up to a, modulo the window: `a - b + 32768 & 32767`. */
  function Back(a: int, b: int): (d: nat)
    ensures d < 32768
  {
    (a - b) % 32768
  }

  method Min(a: int, b: int) returns (r: int)
    ensures r == if a < b then a else b
  {
    r := if a < b then a else b;
  }

  /** How far the bytes at l repeat those q earlier, up to j. */
  method RepeatLength(e: seq<nat>, l: nat, q: nat, j: nat) returns (y: nat)
    requires 1 <= q <= l && l + j <= |e|
    ensures y <= j && Repeats(e, l, y, q)
  {
    y := 0;
    while y < j && e[l + y] == e[l + y - q]
      invariant y <= j && Repeats(e, l, y, q)
    {
      y := y + 1;
    }
  }

  /** Among the window entries inside the match, the one whose own chain reaches furthest back. */
  method BestChain(g: array<nat>, l: nat, q: nat, f: int, o: nat) returns (o': nat)
    requires g.Length == 32768 && q <= l && o < 32768
    ensures o' < 32768
  {
    o' := o;
    var z := 0;
    for h := 0 to if f > 0 then f else 0
      invariant o' < 32768
    {
      var wi := Back(l + h, q);
      var d := Back(wi, g[wi]);
      if d > z {
        z := d;
        o' := wi;
      }
    }
  }

  /** Walk the hash chain from o, keeping the longest verified match. */
  method FindMatch(e: seq<nat>, l: nat, g: array<nat>, o0: nat, nice: nat, chain: nat, hash: int -> nat)
    returns (length: nat, distance: nat)
    requires l < |e| && o0 < 32768 && chain >= 1
    requires g.Length == 32768 && forall i :: 0 <= i < 32768 ==> g[i] < 32768
    ensures GoodMatch(e, l, length, distance)
  {
    var a := |e| - l;
    length, distance := 2, 0;
    var r, o, d := Back(l, 0), o0, chain;
    var q := Back(r, o);
    if a > 2 && hash(l) == hash(l - q) {
      var u := Min(nice, a);
      u := u - 1;
      var m := Min(32767, l);
      var j := Min(258, a);
      while q <= m && d - 1 != 0 && r != o
        invariant r < 32768 && o < 32768 && (r != o ==> q >= 1) && d >= 1
        invariant 2 <= length <= 258 && GoodMatch(e, l, length, distance)
        decreases d
      {
        d := d - 1;
        if l + length < |e| && e[l + length] == e[l + length - q] {
          var y := RepeatLength(e, l, q, j);
          if y > length {
            length, distance := y, q;
            if y > u {
              break;
            }
            var f := Min(q, y - 2);
            o := BestChain(g, l, q, f, o);
          }
        }
        r := o;
        o := g[r];
        q := q + Back(r, o);
      }
    }
  }

  // ---------- the token buffer ----------

  lemma {:induction false} NoHighSymbols(tokens: seq<nat>, s: nat)
    requires AllWellPacked(tokens)
    ensures s >= 286 ==> LitCount(tokens, s) == 0
    ensures s >= 30 ==> DistCount(tokens, s) == 0
  {
    if tokens != [] {
      NoHighSymbols(tokens[..|tokens| - 1], s);
    }
  }

  lemma CountOneMore(tokens: seq<nat>, token: nat)
    ensures MatchCount(tokens + [token]) == MatchCount(tokens) + (if IsMatch(token) then 1 else 0)
  {
    assert (tokens + [token])[..|tokens|] == tokens;
  }

  const CAPACITY := 25000

  /** No block holds more matches than this. */
  const MAX_MATCHES := 7424

  lemma TallySizes(tokens: seq<nat>, lit: seq<nat>, dist: seq<nat>, extra: nat)
    requires Tally(tokens, lit, dist, extra)
    ensures |lit| == 288 && |dist| == 32
  {
  }

  lemma MatchCodes(token: nat)
    requires IsMatch(token) && WellPacked(token)
    ensures LengthCode(token) < 29 && DistanceCode(token) < 30
  {
  }

  /** Packed tokens of the current block with their running frequency tables. */
  class TokenBuffer {
    const w: array<nat>
    const lit: array<nat>
    const dist: array<nat>
    var k: nat
    var extra: nat
    var matches: nat

    ghost predicate Valid()
      reads this, w, lit, dist
    {
      && w.Length == CAPACITY && k <= CAPACITY && w != lit && w != dist && lit != dist
      && Tally(w[..k], lit[..], dist[..], extra) && matches == MatchCount(w[..k])
    }

    ghost function Repr(): set<object> {
      {this, w, lit, dist}
    }

    ghost function Tokens(): seq<nat>
      reads this, w, lit, dist
      requires Valid()
    {
      w[..k]
    }

    constructor ()
      ensures Valid() && Tokens() == [] && matches == 0 && k == 0
      ensures fresh(Repr())
    {
      w := new nat[CAPACITY];
      lit := new nat[288](_ => 0);
      dist := new nat[32](_ => 0);
      k, extra, matches := 0, 0, 0;
    }

    method AddLiteral(v: nat)
      requires Valid() && k < CAPACITY && v < 256
      modifies this`k, w, lit
      ensures Valid() && Tokens() == old(Tokens()) + [v] && k == old(k) + 1
    {
      CountOneMore(w[..k], v);
      TallyLiteral(w[..k], lit[..], dist[..], extra, v);
      ghost var tokens, table := w[..k], lit[..];
      w[k] := v;
      k := k + 1;
      lit[v] := lit[v] + 1;
      assert w[..k] == tokens + [v];
      assert lit[..] == table[v := table[v] + 1];
    }

    method AddMatch(token: nat)
      requires Valid() && k < CAPACITY && IsMatch(token) && WellPacked(token)
      modifies this`k, this`extra, this`matches, w, lit, dist
      ensures Valid() && Tokens() == old(Tokens()) + [token] && k == old(k) + 1 && matches == old(matches) + 1
    {
      hide Tally, MatchCount, WellPacked, IsMatch, LengthCode, DistanceCode, LenBits, DistBits;
      TallySizes(w[..k], lit[..], dist[..], extra);
      CountOneMore(w[..k], token);
      MatchCodes(token);
      var v, d := LengthCode(token), DistanceCode(token);
      TallyMatch(w[..k], lit[..], dist[..], extra, token);
      ghost var tokens, table, table' := w[..k], lit[..], dist[..];
      w[k] := token;
      k := k + 1;
      extra := extra + LenBits(v) + DistBits(d);
      lit[257 + v] := lit[257 + v] + 1;
      dist[d] := dist[d] + 1;
      matches := matches + 1;
      assert w[..k] == tokens + [token];
      assert lit[..] == table[257 + v := table[257 + v] + 1];
      assert dist[..] == table'[d := table'[d] + 1];
    }

    /** Start a new block: clear the counters of the symbols that can occur. */
    method Reset()
      requires Valid()
      modifies this, lit, dist
      ensures Valid() && Tokens() == [] && matches == 0 && k == 0
    {
      ghost var tokens := w[..k];
      forall s | s >= 286 ensures LitCount(tokens, s) == 0 {
        NoHighSymbols(tokens, s);
      }
      forall s | s >= 30 ensures DistCount(tokens, s) == 0 {
        NoHighSymbols(tokens, s);
      }
      k, extra, matches := 0, 0, 0;
      for h := 0 to 286
        invariant forall s :: 0 <= s < h || 286 <= s < 288 ==> lit[s] == 0
        modifies lit
      {
        lit[h] := 0;
      }
      for h := 0 to 30
        invariant forall d :: 0 <= d < h || 30 <= d < 32 ==> dist[d] == 0
        modifies dist
      {
        dist[h] := 0;
      }
      assert w[..k] == [];
    }
  }

  // ---------- the whole input ----------

  /** The blocks cover the input up to `upto` without gap or overlap, and the tokens of each one
      play to exactly the bytes it covers, given the bytes before it. */
  ghost predicate BlocksOf(e: seq<nat>, blocks: seq<Block>, upto: nat) {
    if blocks == [] then upto == 0
    else
      var b := blocks[|blocks| - 1];
      && b.start + b.count == upto <= |e|
      && Play(e[..b.start], b.tokens) == Some(e[..upto])
      && BlocksOf(e, blocks[..|blocks| - 1], b.start)
  }

  /** Playing the blocks one after the other gives the input back. */
  lemma {:induction false} BlocksPlay(e: seq<nat>, blocks: seq<Block>, upto: nat)
    requires BlocksOf(e, blocks, upto)
    ensures upto <= |e| && PlayBlocks(blocks) == Some(e[..upto])
  {
    if blocks != [] {
      BlocksPlay(e, blocks[..|blocks| - 1], blocks[|blocks| - 1].start);
    }
  }

  /** What makes the encoder close a block before the end of the input. */
  predicate Full(tokens: seq<nat>) {
    MatchCount(tokens) > 7000 || |tokens| > 24576
  }

  ghost predicate ProperBlock(b: Block) {
    && |b.tokens| <= CAPACITY && MatchCount(b.tokens) <= MAX_MATCHES
    && (!b.final ==> Full(b.tokens))
    && Tally(b.tokens, b.litFreq, b.distFreq, b.extraBits)
  }

  /** A block closed early was closed as soon as it was full, and with more than 423 bytes still to come. */
  ghost predicate Timely(e: seq<nat>, b: Block) {
    && Full(b.tokens) && |b.tokens| <= 24577 && MatchCount(b.tokens) <= 7001
    && b.start + b.count + 423 < |e|
  }

  /** Playing the finished blocks gives the input up to p; the pending tokens carry on to `at`. */
  ghost predicate Covers(e: seq<nat>, blocks: seq<Block>, tokens: seq<nat>, p: nat, at: nat) {
    && p <= at <= |e| && BlocksOf(e, blocks, p) && Play(e[..p], tokens) == Some(e[..at])
    && forall k :: 0 <= k < |blocks| ==> ProperBlock(blocks[k]) && !blocks[k].final && Timely(e, blocks[k])
  }

  lemma CoverLiteral(e: seq<nat>, blocks: seq<Block>, tokens: seq<nat>, p: nat, at: nat)
    requires Covers(e, blocks, tokens, p, at) && at < |e| && e[at] < 256
    ensures Covers(e, blocks, tokens + [e[at]], p, at + 1)
  {
    hide BlocksOf, ProperBlock, Play;
    PlayOneMore(e[..p], tokens, e[at]);
    assert e[..at] + [e[at]] == e[..at + 1];
  }

  lemma CoverMatch(e: seq<nat>, blocks: seq<Block>, tokens: seq<nat>, p: nat, at: nat,
                   length: nat, distance: nat, le: nat, de: nat)
    requires Covers(e, blocks, tokens, p, at) && distance != 0 && GoodMatch(e, at, length, distance)
    requires LengthEntry(length, le) && DistanceEntry(distance, de)
    ensures var token := PackMatch(le, de);
            && IsMatch(token) && WellPacked(token)
            && Covers(e, blocks, tokens + [token], p, at + length)
  {
    var token := PackMatch(le, de);
    MatchPlays(e[..at], length, distance, le, de);
    CopyRepeats(e, at, length, distance);
    PlayOneMore(e[..p], tokens, token);
  }

  /** A packed table entry plays back as the length and distance it was looked up for. */
  lemma MatchPlays(out: seq<nat>, length: nat, distance: nat, le: nat, de: nat)
    requires LengthEntry(length, le) && DistanceEntry(distance, de) && 1 <= distance <= |out|
    ensures var token := PackMatch(le, de);
            && IsMatch(token) && WellPacked(token)
            && PlayToken(out, token) == Some(CopyMatch(out, length, distance))
  {
    hide PackMatch, LengthCode, DistanceCode, LengthExtra, DistanceExtra, IsMatch, CopyMatch;
    hide LengthEntry, DistanceEntry, LenBits, LenBase, DistBits, DistBase, Pow2, PlayToken;
    PackedEntries(length, le, distance, de);
    TokenPlays(out, PackMatch(le, de));
  }

  lemma TokenPlays(out: seq<nat>, token: nat)
    requires IsMatch(token) && WellPacked(token) && 1 <= MatchDistance(token) <= |out|
    ensures PlayToken(out, token) == Some(CopyMatch(out, MatchLength(token), MatchDistance(token)))
  {
  }

  lemma PlayOneMore(out: seq<nat>, tokens: seq<nat>, token: nat)
    ensures Play(out, tokens + [token])
         == match Play(out, tokens) case None => None case Some(sofar) => PlayToken(sofar, token)
  {
    assert (tokens + [token])[..|tokens|] == tokens;
  }

  lemma CloseBlock(e: seq<nat>, blocks: seq<Block>, tokens: seq<nat>, p: nat, at: nat, b: Block)
    requires Covers(e, blocks, tokens, p, at) && b.tokens == tokens
    requires b.start == p && b.count == at - p
    ensures BlocksOf(e, blocks + [b], at)
    ensures !b.final && ProperBlock(b) && Timely(e, b) ==> Covers(e, blocks + [b], [], at, at)
  {
    assert (blocks + [b])[..|blocks|] == blocks;
  }

  /** Room left in the token buffer: a full block is flushed while more than 423 bytes remain. */
  ghost predicate Room(k: nat, matches: nat, left: nat) {
    if left > 423 then k <= 24577 && matches <= 7001 else k + left <= CAPACITY && matches + left <= MAX_MATCHES
  }

  /** Close the pending block and start the next one at l. */
  method Flush(e: seq<nat>, blocks: seq<Block>, buffer: TokenBuffer, p: nat, l: nat, final: bool)
    returns (blocks': seq<Block>)
    requires buffer.Valid() && Covers(e, blocks, buffer.Tokens(), p, l) && buffer.matches <= MAX_MATCHES
    requires !final ==> Full(buffer.Tokens()) && buffer.k <= 24577 && buffer.matches <= 7001 && l + 423 < |e|
    modifies buffer, buffer.lit, buffer.dist
    ensures buffer.Valid() && buffer.k == 0 && buffer.matches == 0 && buffer.Tokens() == []
    ensures |blocks'| == |blocks| + 1 && blocks'[..|blocks|] == blocks
    ensures var b := blocks'[|blocks|];
            ProperBlock(b) && b.final == final
    ensures BlocksOf(e, blocks', l)
    ensures !final ==> Covers(e, blocks', [], l, l)
  {
    var b := Block(buffer.w[..buffer.k], buffer.lit[..], buffer.dist[..], buffer.extra, p, l - p, final);
    CloseBlock(e, blocks, buffer.Tokens(), p, l, b);
    blocks' := blocks + [b];
    buffer.Reset();
  }

  /** Code what starts at l: the match found, or else the byte itself. */
  method EmitToken(e: seq<nat>, ghost blocks: seq<Block>, buffer: TokenBuffer, ghost p: nat, l: nat,
                   length: nat, distance: nat, te: seq<nat>, tr: seq<nat>) returns (at: nat)
    requires buffer.Valid() && buffer.k < CAPACITY && Covers(e, blocks, buffer.Tokens(), p, l)
    requires l < |e| && e[l] < 256 && CodeTables(te, tr) && GoodMatch(e, l, length, distance)
    modifies buffer, buffer.w, buffer.lit, buffer.dist
    ensures at == if distance != 0 then l + length else l + 1
    ensures buffer.Valid() && buffer.k == old(buffer.k) + 1
    ensures buffer.matches <= old(buffer.matches) + 1
    ensures Covers(e, blocks, buffer.Tokens(), p, at)
  {
    if distance != 0 {
      CoverMatch(e, blocks, buffer.Tokens(), p, l, length, distance, te[length], tr[distance]);
      buffer.AddMatch(PackMatch(te[length], tr[distance]));
      at := l + length;
    } else {
      CoverLiteral(e, blocks, buffer.Tokens(), p, l);
      buffer.AddLiteral(e[l]);
      at := l + 1;
    }
  }

  ghost predicate WindowEntries(a: array<nat>)
    reads a
  {
    forall i :: 0 <= i < a.Length ==> a[i] < 32768
  }

  /** Enter position l into the hash chains and return the previous entry of its bucket. */
  method Insert(g: array<nat>, m: array<nat>, x: nat, r: nat) returns (o: nat)
    requires g != m && g.Length == 32768 && x < m.Length && r < 32768
    requires WindowEntries(g) && WindowEntries(m)
    modifies g, m
    ensures WindowEntries(g) && WindowEntries(m) && o < 32768
  {
    o := m[x];
    g[r] := o;
    m[x] := r;
  }

  /** The state of the scan: everything before `at` is coded, and there is room for what is left. */
  ghost predicate Scanning(e: seq<nat>, blocks: seq<Block>, buffer: TokenBuffer, p: nat, l: nat, at: nat)
    reads buffer, buffer.Repr()
  {
    buffer.Valid() && l <= |e| && Covers(e, blocks, buffer.Tokens(), p, at)
    && Room(buffer.k, buffer.matches, |e| - l)
  }

  /** At an uncovered position: flush a full block, then code a match or a literal. */
  method CodeAt(e: seq<nat>, blocks: seq<Block>, buffer: TokenBuffer, p: nat, l: nat, o: nat, g: array<nat>,
                nice: nat, chain: nat, hash: int -> nat, te: seq<nat>, tr: seq<nat>)
    returns (blocks': seq<Block>, p': nat, at: nat)
    requires Scanning(e, blocks, buffer, p, l, l) && l < |e| && e[l] < 256 && o < 32768
    requires g.Length == 32768 && WindowEntries(g) && g !in buffer.Repr() && chain >= 1 && CodeTables(te, tr)
    modifies buffer, buffer.w, buffer.lit, buffer.dist
    ensures at > l && Scanning(e, blocks', buffer, p', l + 1, at)
  {
    blocks', p' := blocks, p;
    var a := |e| - l;
    if (buffer.matches > 7000 || buffer.k > 24576) && a > 423 {
      blocks' := Flush(e, blocks, buffer, p, l, false);
      p' := l;
    }
    var length, distance := FindMatch(e, l, g, o, nice, chain, hash);
    at := EmitToken(e, blocks', buffer, p', l, length, distance, te, tr);
  }

  lemma ScanStart(e: seq<nat>, buffer: TokenBuffer)
    requires buffer.Valid() && buffer.Tokens() == [] && buffer.k == 0 && buffer.matches == 0
    ensures Scanning(e, [], buffer, 0, 0, 0)
  {
    assert e[..0] == [];
  }

  lemma ScanBound(e: seq<nat>, blocks: seq<Block>, buffer: TokenBuffer, p: nat, l: nat, at: nat)
    requires Scanning(e, blocks, buffer, p, l, at)
    ensures at <= |e|
  {
  }

  /** A position that is already covered is passed over. */
  lemma ScanOn(e: seq<nat>, blocks: seq<Block>, buffer: TokenBuffer, p: nat, l: nat, at: nat)
    requires l < at ==> Scanning(e, blocks, buffer, p, l, at)
    ensures l < at ==> at <= |e| && Scanning(e, blocks, buffer, p, l + 1, at)
  {
  }

  /** Scan the whole input, leaving the last block pending in the buffer. */
  method Scan(e: seq<nat>, nice: nat, chain: nat, size: nat, hash: int -> nat, te: seq<nat>, tr: seq<nat>,
              buffer: TokenBuffer) returns (blocks: seq<Block>, p: nat)
    requires forall i :: 0 <= i < |e| ==> e[i] < 256
    requires chain >= 1 && CodeTables(te, tr) && forall i :: hash(i) < size
    requires buffer.Valid() && buffer.Tokens() == [] && buffer.k == 0 && buffer.matches == 0
    modifies buffer, buffer.w, buffer.lit, buffer.dist
    ensures Scanning(e, blocks, buffer, p, |e|, |e|)
  {
    hide Scanning;
    var s := |e|;
    var g := new nat[32768](_ => 0);
    var m := new nat[size](_ => 0);
    blocks := [];
    var l: nat, t: nat := 0, 0;
    p := 0;
    ScanStart(e, buffer);
    while l < s
      invariant l <= s && g !in buffer.Repr() && m !in buffer.Repr() && fresh(g) && fresh(m)
      invariant WindowEntries(g) && WindowEntries(m)
      invariant Scanning(e, blocks, buffer, p, l, if t > l then t else l)
    {
      var o := Insert(g, m, hash(l), Back(l, 0));
      ScanOn(e, blocks, buffer, p, l, t);
      if t <= l {
        blocks, p, t := CodeAt(e, blocks, buffer, p, l, o, g, nice, chain, hash, te, tr);
      }
      l := l + 1;
    }
    ScanBound(e, blocks, buffer, p, l, if t > l then t else l);
  }

  /** Blocks that are not final, followed by one that is. */
  ghost predicate OnlyLastFinal(blocks: seq<Block>) {
    && blocks != []
    && forall k :: 0 <= k < |blocks| ==> ProperBlock(blocks[k]) && blocks[k].final == (k == |blocks| - 1)
  }

  lemma LastBlock(e: seq<nat>, before: seq<Block>, tokens: seq<nat>, p: nat, after: seq<Block>)
    requires Covers(e, before, tokens, p, |e|)
    requires |after| == |before| + 1 && after[..|before|] == before
    requires ProperBlock(after[|before|]) && after[|before|].final
    ensures OnlyLastFinal(after) && forall k | 0 <= k < |after| - 1 :: Timely(e, after[k])
  {
    forall k | 0 <= k < |before| ensures after[k] == before[k] {
      assert after[..|before|][k] == after[k];
    }
  }

  /** Split the input into blocks of literals and matches. */
  method Compress(e: seq<nat>, nice: nat, chain: nat, size: nat, hash: int -> nat, te: seq<nat>, tr: seq<nat>)
    returns (blocks: seq<Block>)
    requires forall i :: 0 <= i < |e| ==> e[i] < 256
    requires chain >= 1 && CodeTables(te, tr) && forall i :: hash(i) < size
    ensures BlocksOf(e, blocks, |e|) && OnlyLastFinal(blocks) && PlayBlocks(blocks) == Some(e)
    ensures forall k | 0 <= k < |blocks| - 1 :: Timely(e, blocks[k])
  {
    var buffer := new TokenBuffer();
    var before, p := Scan(e, nice, chain, size, hash, te, tr, buffer);
    ghost var tokens := buffer.Tokens();
    blocks := Flush(e, before, buffer, p, |e|, true);
    LastBlock(e, before, tokens, p, blocks);
    BlocksPlay(e, blocks, |e|);
    assert e[..|e|] == e;
  }

  // ---------- how much a block covers ----------

  lemma {:induction false} CopyLength(out: seq<nat>, length: nat, distance: nat)
    requires 1 <= distance <= |out|
    ensures |CopyMatch(out, length, distance)| == |out| + length
    decreases length
  {
    if length > 0 {
      CopyLength(out + [out[|out| - distance]], length - 1, distance);
    }
  }

  /** Every token stands for a byte at least, a match for three. */
  lemma {:induction false} TokensCover(out: seq<nat>, tokens: seq<nat>)
    requires Play(out, tokens).Some?
    ensures |Play(out, tokens).value| >= |out| + |tokens| + 2 * MatchCount(tokens)
  {
    if tokens != [] {
      var before, token := tokens[..|tokens| - 1], tokens[|tokens| - 1];
      TokensCover(out, before);
      if IsMatch(token) {
        CopyLength(Play(out, before).value, MatchLength(token), MatchDistance(token));
        LeastLength(LengthCode(token));
      }
    }
  }

  lemma LeastLength(code: nat)
    requires code < 29
    ensures LenBase(code) >= 3
  {
  }

  lemma {:induction false} FewMatches(tokens: seq<nat>)
    ensures MatchCount(tokens) <= |tokens|
  {
    if tokens != [] {
      FewMatches(tokens[..|tokens| - 1]);
    }
  }

  /** A block closed early covers at least 21003 bytes. */
  lemma FullBlockCovers(e: seq<nat>, b: Block)
    requires b.start + b.count <= |e| && Play(e[..b.start], b.tokens) == Some(e[..b.start + b.count]) && Full(b.tokens)
    ensures b.count >= 21003
  {
    TokensCover(e[..b.start], b.tokens);
    FewMatches(b.tokens);
  }
}
