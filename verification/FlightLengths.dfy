/** Streams whose length fields are well written read the same however they are cut; two ways of writing them badly. */
module FlightLengths {
  import opened Bits
  import opened FlightRows
  import opened FlightChunks
  import opened FlightEncoding

  /** 0 to 9 and a to f. */
  predicate HexDigit(b: nat) {
    48 <= b < 58 || 97 <= b < 103
  }

  function DigitValue(b: nat): (d: nat)
    requires HexDigit(b)
    ensures d < 16 && Digit(d) == b
  {
    if b < 58 then b - 48 else b - 87
  }

  /** They are the sixteen digits a number is written with. */
  lemma HexDigits(b: nat)
    ensures HexDigit(b) <==> exists d: nat | d < 16 :: Digit(d) == b
  {
    if HexDigit(b) {
      assert Digit(DigitValue(b)) == b;
    }
  }

  predicate HexNumber(field: seq<nat>) {
    forall i | 0 <= i < |field| :: HexDigit(field[i])
  }

  /** The number the digits stand for. */
  function HexValue(field: seq<nat>): nat
    requires HexNumber(field)
  {
    if field == [] then 0 else 16 * HexValue(field[..|field| - 1]) + DigitValue(field[|field| - 1])
  }

  /** The tag at i opens a length field, and the bytes behind it up to k are in the field. */
  ghost predicate FieldAt(stream: seq<nat>, i: nat, k: nat) {
    && i < k <= |stream| && After(stream, i).state == 1 && SizedTag(stream[i])
    && 44 !in stream[i + 1..k]
  }

  /** Every length field holds hexadecimal digits only and stands for less than 2^31. */
  ghost predicate WellWritten(stream: seq<nat>) {
    forall i: nat, k: nat | FieldAt(stream, i, k) :: FieldFine(stream[i + 1..k])
  }

  predicate FieldFine(field: seq<nat>) {
    HexNumber(field) && HexValue(field) < 0x8000_0000
  }

  /** Between bytes: a length counts down in a payload, grows in its field, and is zero elsewhere. */
  predicate Tame(p: Parser) {
    p.state <= 4 && p.length >= 0 && (p.state in {0, 1, 3} ==> p.length == 0)
  }

  lemma FieldGrows(stream: seq<nat>, i: nat, k: nat)
    requires k < |stream| && FieldAt(stream, i, k) && stream[k] != 44 && WellWritten(stream)
    ensures FieldAt(stream, i, k + 1) && FieldFine(stream[i + 1..k]) && FieldFine(stream[i + 1..k + 1])
    ensures ShiftIn(HexValue(stream[i + 1..k]), stream[k]) == HexValue(stream[i + 1..k + 1])
  {
    hide ShiftIn;
    var field, more := stream[i + 1..k], stream[i + 1..k + 1];
    assert more == field + [stream[k]];
    assert FieldAt(stream, i, k + 1);
    assert FieldFine(field) && FieldFine(more);
    assert more[..|more| - 1] == field && more[|more| - 1] == stream[k];
    ShiftInDigit(HexValue(field), DigitValue(stream[k]));
  }

  lemma StepTame(p: Parser, b: nat)
    requires Tame(p) && (p.state == 2 && b != 44 ==> ShiftIn(p.length, b) >= 0)
    ensures Tame(Step(p, b))
    ensures Step(p, b).state == 2 <==> (p.state == 1 && SizedTag(b)) || (p.state == 2 && b != 44)
    ensures p.state == 1 && SizedTag(b) ==> Step(p, b).length == 0
    ensures p.state == 2 && b != 44 ==> Step(p, b).length == ShiftIn(p.length, b)
  {
    hide ShiftIn, SizedTag, LineTag;
  }

  /** In a length field the parser holds the number read so far. */
  lemma {:induction false} FieldState(stream: seq<nat>, k: nat) returns (i: nat)
    requires WellWritten(stream) && k <= |stream|
    ensures Tame(After(stream, k))
    ensures After(stream, k).state == 2 ==>
              && FieldAt(stream, i, k) && FieldFine(stream[i + 1..k])
              && After(stream, k).length == HexValue(stream[i + 1..k])
  {
    hide Tame, Step, WellWritten, FieldFine, ShiftIn, FieldAt, HexValue, SizedTag;
    i := 0;
    if k == 0 {
      assert stream[..0] == [];
      StartTame();
    } else {
      var p, b := After(stream, k - 1), stream[k - 1];
      i := FieldState(stream, k - 1);
      StepAfter(stream, k - 1);
      if p.state == 1 && SizedTag(b) {
        i := k - 1;
        FieldOpens(stream, i);
      } else if p.state == 2 && b != 44 {
        FieldGrows(stream, i, k - 1);
      }
      StepTame(p, b);
    }
  }

  lemma StartTame()
    ensures Tame(START)
  {
  }

  lemma FieldOpens(stream: seq<nat>, i: nat)
    requires i < |stream| && After(stream, i).state == 1 && SizedTag(stream[i])
    ensures FieldAt(stream, i, i + 1) && FieldFine(stream[i + 1..i + 1]) && HexValue(stream[i + 1..i + 1]) == 0
  {
  }

  /** Then no length overruns, so the stream reads the same however it is cut. */
  lemma WellWrittenIsIndependent(stream: seq<nat>)
    requires WellWritten(stream)
    ensures !SomeOverrun(stream) && CutIndependent(stream)
  {
    hide WellWritten;
    forall k | 0 <= k < |stream| ensures !Overruns(After(stream, k), k) {
      var i := FieldState(stream, k);
    }
    ChunkIndependence(stream);
  }

  // ---------- a digit below zero ----------

  lemma MinusUnsigned()
    ensures Unsigned(-3) == 0xffff_fffd
  {
  }

  /** What the first character of a field is taken for, whether it is a digit or not. */
  lemma FirstCharacter(b: nat)
    requires b < 256
    ensures ShiftIn(0, b) == if b > 96 then b - 87 else b - 48
  {
    var d := if b > 96 then b - 87 else b - 48;
    SmallSigned(d);
    hide BitOr, Unsigned, Signed;
    FullUnsigned(0);
    OrZero(Unsigned(d));
  }

  lemma SmallSigned(d: int)
    requires -256 < d < 256
    ensures Signed(Unsigned(d)) == d
  {
  }

  lemma MinusIsNegative()
    ensures ShiftIn(0, 45) == -3
  {
    hide BitOr, Unsigned;
    MinusUnsigned();
    FullUnsigned(0);
    OrZero(0xffff_fffd);
    FullUnsigned(0xffff_fffd);
    SignedIsUnsigned(0xffff_fffd);
  }

  /** The bytes "0:T-," : one character that is no digit takes the length to -3 at once. */
  lemma MinusState()
    ensures Steps(START, [48, 58, 84, 45, 44]) == Parser(4, 0, 84, -3, [], [])
  {
    hide ShiftIn;
    ShiftInDigit(0, 0);
    MinusIsNegative();
    ShortSteps(START, 48, 58);
    var p := Parser(1, 0, 0, 0, [], []);
    ShortSteps(p, 84, 45);
    OneStep(Parser(2, 0, 84, -3, [], []), 44);
    StepsConcat(START, [48, 58], [84, 45]);
    StepsConcat(START, [48, 58, 84, 45], [44]);
    assert [48, 58] + [84, 45] == [48, 58, 84, 45] && [48, 58, 84, 45] + [44] == [48, 58, 84, 45, 44];
  }

  lemma MinusDependsOnCut(b: nat)
    ensures SomeOverrun([48, 58, 84, 45, 44, b]) && !CutIndependent([48, 58, 84, 45, 44, b])
  {
    var stream := [48, 58, 84, 45, 44, b];
    MinusState();
    assert stream[..5] == [48, 58, 84, 45, 44];
    assert Overruns(After(stream, 5), 5);
    ChunkIndependence(stream);
  }
}
