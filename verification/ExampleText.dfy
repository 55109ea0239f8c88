/** A JSON text of 46 bytes in UTF-8: an object with one property, whose name has 15 characters beyond ASCII, and the
    version tag that is added to everything before it is compressed. */
module ExampleText {
  import U = Utf8
  import opened Lz77
  import opened TokenFormat
  import opened FixedSize
  import opened Options

  /** {" */
  const OPENING: seq<U.Scalar> := [123, 34]

  /** ":1,"v":"v1"} */
  const CLOSING: seq<U.Scalar> := [34, 58, 49, 44, 34, 118, 34, 58, 34, 118, 49, 34, 125]

  /** The first n of the 14 two-byte characters of the name; a three-byte one, U+0EBD, follows them. */
  function Name(n: nat): (cs: seq<U.Scalar>)
    requires n <= 14
  {
    seq(n, i requires 0 <= i < n => 272 + 131 * i)
  }

  function Text(): seq<U.Scalar> {
    OPENING + Name(14) + [0x0EBD] + CLOSING
  }

  /** Its bytes: between opening and closing, first bytes from 196 on in steps of 2 and others from 144 on in steps
      of 3. */
  function ByteAt(i: nat): U.Byte
    requires i < 46
  {
    if i < 2 then OPENING[i]
    else if i >= 33 then CLOSING[i - 33]
    else if i == 32 then 189
    else if i % 2 == 0 then 194 + i
    else 144 + (i - 3) / 2 * 3
  }

  function Example(): (e: seq<nat>)
    ensures |e| == 46 && forall i | 0 <= i < 46 :: e[i] == ByteAt(i) < 256
  {
    seq(46, i requires 0 <= i < 46 => ByteAt(i))
  }

  // ---------- the text ----------

  lemma {:induction false} Utf8Concat(a: seq<U.Scalar>, b: seq<U.Scalar>)
    ensures U.Utf8(a + b) == U.Utf8(a) + U.Utf8(b)
  {
    if a == [] {
      assert a + b == b;
    } else {
      assert (a + b)[1..] == a[1..] + b;
      Utf8Concat(a[1..], b);
    }
  }

  lemma {:induction false} Utf8Ascii(a: seq<U.Scalar>)
    requires forall i | 0 <= i < |a| :: a[i] < 0x80
    ensures U.Utf8(a) == a
  {
    if a != [] {
      Utf8Ascii(a[1..]);
    }
  }

  lemma NameChar(i: nat)
    requires i < 14
    ensures U.Utf8One(272 + 131 * i) == [196 + 2 * i, 144 + 3 * i]
  {
  }

  lemma NameStep(n: nat)
    requires n < 14
    ensures Name(n + 1) == Name(n) + [272 + 131 * n]
    ensures Example()[2..4 + 2 * n] == Example()[2..2 + 2 * n] + [196 + 2 * n, 144 + 3 * n]
  {
    var e := Example();
    assert e[2..4 + 2 * n] == e[2..2 + 2 * n] + [e[2 + 2 * n], e[3 + 2 * n]];
  }

  lemma {:induction false} NameBytes(n: nat)
    requires n <= 14
    ensures U.Utf8(Name(n)) == Example()[2..2 + 2 * n]
  {
    hide U.Utf8One, Example;
    if n > 0 {
      NameBytes(n - 1);
      NameChar(n - 1);
      NameStep(n - 1);
      U.Utf8Append(Name(n - 1), 272 + 131 * (n - 1));
    }
  }

  lemma LastChar()
    ensures U.Utf8([0x0EBD]) == [224, 186, 189]
  {
    assert U.Utf8One(0x0EBD) == [224, 186, 189];
    assert [0x0EBD as U.Scalar][1..] == [];
  }

  /** The bytes are the text in UTF-8. */
  lemma ExampleIsText()
    ensures U.Utf8(Text()) == Example()
  {
    hide U.Utf8, U.Utf8One, Name;
    var head := OPENING + Name(14);
    Utf8Concat(head + [0x0EBD], CLOSING);
    Utf8Concat(head, [0x0EBD]);
    Utf8Concat(OPENING, Name(14));
    Utf8Ascii(OPENING);
    Utf8Ascii(CLOSING);
    NameBytes(14);
    LastChar();
    var e := Example();
    assert e == e[..2] + e[2..30] + e[30..33] + e[33..];
    assert e[..2] == OPENING && e[30..33] == [224, 186, 189] && e[33..] == CLOSING;
  }

  // ---------- no matches ----------

  /** The three bytes from i on stand from j on again. */
  predicate SameTriple(e: seq<nat>, i: nat, j: nat)
    requires i < j && j + 2 < |e|
  {
    e[i] == e[j] && e[i + 1] == e[j + 1] && e[i + 2] == e[j + 2]
  }

  predicate NoTriples(e: seq<nat>) {
    forall i, j | 0 <= i < j && j + 2 < |e| :: !SameTriple(e, i, j)
  }

  /** A byte of the name occurs once. */
  lemma NameByteOnce(i: nat, j: nat)
    requires i < 46 && 2 <= j < 33 && ByteAt(i) == ByteAt(j)
    ensures i == j
  {
  }

  lemma ExampleTriples()
    ensures NoTriples(Example())
  {
    hide SameTriple;
    forall i, j | 0 <= i < j && j + 2 < |Example()| ensures !SameTriple(Example(), i, j) {
      TriplesDiffer(i, j);
    }
  }

  lemma TriplesDiffer(i: nat, j: nat)
    requires i < j < 44
    ensures !SameTriple(Example(), i, j)
  {
    hide ByteAt;
    if SameTriple(Example(), i, j) {
      if j < 33 {
        var k := if j < 2 then 2 - j else 0;
        NameByteOnce(i + k, j + k);
      } else if i < 33 {
        var k := if i < 2 then 2 - i else 0;
        NameByteOnce(j + k, i + k);
      } else {
        ClosingTriples(i - 33, j - 33);
      }
    }
  }

  lemma ClosingTriples(i: nat, j: nat)
    requires i < j < 11
    ensures !SameTriple(Example(), 33 + i, 33 + j)
  {
  }

  lemma MatchIsLong(token: nat)
    requires LengthCode(token) < 29
    ensures MatchLength(token) >= 3
  {
    hide LengthCode, LengthExtra;
  }

  lemma TripleInPrefix(a: seq<nat>, e: seq<nat>)
    requires a <= e && NoTriples(e)
    ensures NoTriples(a)
  {
    forall i, j | 0 <= i < j && j + 2 < |a| ensures !SameTriple(a, i, j) {
      assert !SameTriple(e, i, j);
    }
  }

  lemma CopiedTriple(out: seq<nat>, length: nat, distance: nat)
    requires 1 <= distance <= |out| && length >= 3
    ensures |CopyMatch(out, length, distance)| == |out| + length
    ensures SameTriple(CopyMatch(out, length, distance), |out| - distance, |out|)
  {
    CopyExtends(out, length, distance);
  }

  lemma MatchRepeats(out: seq<nat>, token: nat, e: seq<nat>)
    requires PlayToken(out, token) == Some(e) && IsMatch(token)
    ensures !NoTriples(e)
  {
    hide IsMatch, LengthCode, DistanceCode, MatchLength, MatchDistance, SameTriple;
    var l, d := MatchLength(token), MatchDistance(token);
    MatchIsLong(token);
    CopiedTriple(out, l, d);
    assert SameTriple(e, |out| - d, |out|);
  }

  /** Bytes without such a repetition are played by tokens that are all literals. */
  lemma {:induction false} AllLiterals(tokens: seq<nat>, e: seq<nat>)
    requires Play([], tokens) == Some(e) && NoTriples(e)
    ensures tokens == e && forall k | 0 <= k < |tokens| :: !IsMatch(tokens[k])
  {
    hide IsMatch, LengthCode, DistanceCode, MatchLength, MatchDistance, NoTriples;
    if tokens != [] {
      var before, last := tokens[..|tokens| - 1], tokens[|tokens| - 1];
      var sofar := Play([], before).value;
      if IsMatch(last) {
        MatchRepeats(sofar, last, e);
      }
      assert sofar == e[..|e| - 1];
      TripleInPrefix(sofar, e);
      AllLiterals(before, sofar);
    }
  }

  // ---------- the byte values that occur ----------

  predicate Occurs(p: nat) {
    || p in {34, 44, 49, 58, 118, 123, 125}
    || (144 <= p <= 189 && p % 3 == 0)
    || (196 <= p <= 224 && p % 2 == 0)
  }

  /** Where a value occurs first. */
  function PlaceIn(p: nat): (i: nat)
    requires Occurs(p)
    ensures i < 46 && ByteAt(i) == p
  {
    if p == 123 then 0 else if p == 34 then 1 else if p == 58 then 34 else if p == 49 then 35 else if p == 44 then 36
    else if p == 118 then 38 else if p == 125 then 45
    else if p == 189 then 32 else if p < 192 then 3 + (p - 144) / 3 * 2 else p - 194
  }

  lemma ByteOccurs(i: nat)
    requires i < 46
    ensures Occurs(ByteAt(i))
  {
  }

  /** 31 of the bytes have nine bits in the fixed form. */
  lemma ExampleHigh()
    ensures High(Example()) == 31
  {
    HighUpTo(46);
    assert Example()[..46] == Example();
  }

  lemma {:induction false} HighUpTo(n: nat)
    requires n <= 46
    ensures High(Example()[..n]) == if n <= 2 then 0 else if n <= 33 then n - 2 else 31
  {
    if n > 0 {
      HighUpTo(n - 1);
      assert Example()[..n][..n - 1] == Example()[..n - 1];
    }
  }
}
