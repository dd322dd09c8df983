/** Worked cases: the chunking example of recmul.c's comment, the BCD writer's
    example, and concrete products meeting bc_multiply's contract. By
    BcMultiply.ProductUnique, any result Multiply returns for those operands is
    the same number as the one shown here. */
module Scenarios {
  import opened Words
  import opened Digits
  import opened Chunks
  import opened Codec
  import opened BcMultiply

  /** bc_write_bcd_representation(1234) writes the digits 1, 2, 3, 4. */
  lemma WriteBcdExample()
    ensures WriteBcdRepresentation(1234) == [1, 2, 3, 4]
  {
    assert ToDigits(1234, 4) == [1, 2, 3, 4];
  }

  /** 12345678901234567890 is chunked as {34567890, 56789012, 1234}: any
      result meeting bc_convert_to_uint's contract is that array. */
  lemma ConvertToUintExample(chunks: seq<u64>)
    requires |chunks| == (20 + W - 1) / W && Normalized(chunks)
    requires ChunkValue(chunks) == DigitsValue([1, 2, 3, 4, 5, 6, 7, 8, 9, 0, 1, 2, 3, 4, 5, 6, 7, 8, 9, 0])
    ensures chunks == [34567890, 56789012, 1234]
  {
    TwentyDigitsValue();
    ExampleChunksValue();
    ChunkValueInjective(chunks, [34567890, 56789012, 1234]);
  }

  lemma TwentyDigitsValue()
    ensures DigitsValue([1, 2, 3, 4, 5, 6, 7, 8, 9, 0, 1, 2, 3, 4, 5, 6, 7, 8, 9, 0]) == 12345678901234567890
  {
    var a: seq<Digit> := [1, 2, 3, 4];
    var b: seq<Digit> := [5, 6, 7, 8, 9, 0, 1, 2];
    var c: seq<Digit> := [3, 4, 5, 6, 7, 8, 9, 0];
    assert a + b + c == [1, 2, 3, 4, 5, 6, 7, 8, 9, 0, 1, 2, 3, 4, 5, 6, 7, 8, 9, 0];
    Pow10Values();
    HighGroup();
    MiddleGroup();
    LowGroup();
    DigitsValueAppend(a, b);
    DigitsValueAppend(a + b, c);
  }

  lemma HighGroup()
    ensures DigitsValue([1, 2, 3, 4]) == 1234
  {
    DigitsValueSnoc([], 1, [1]);
    DigitsValueSnoc([1], 2, [1, 2]);
    DigitsValueSnoc([1, 2], 3, [1, 2, 3]);
    DigitsValueSnoc([1, 2, 3], 4, [1, 2, 3, 4]);
  }

  lemma MiddleGroup()
    ensures DigitsValue([5, 6, 7, 8, 9, 0, 1, 2]) == 56789012
  {
    DigitsValueSnoc([], 5, [5]);
    DigitsValueSnoc([5], 6, [5, 6]);
    DigitsValueSnoc([5, 6], 7, [5, 6, 7]);
    DigitsValueSnoc([5, 6, 7], 8, [5, 6, 7, 8]);
    DigitsValueSnoc([5, 6, 7, 8], 9, [5, 6, 7, 8, 9]);
    DigitsValueSnoc([5, 6, 7, 8, 9], 0, [5, 6, 7, 8, 9, 0]);
    DigitsValueSnoc([5, 6, 7, 8, 9, 0], 1, [5, 6, 7, 8, 9, 0, 1]);
    DigitsValueSnoc([5, 6, 7, 8, 9, 0, 1], 2, [5, 6, 7, 8, 9, 0, 1, 2]);
  }

  lemma LowGroup()
    ensures DigitsValue([3, 4, 5, 6, 7, 8, 9, 0]) == 34567890
  {
    DigitsValueSnoc([], 3, [3]);
    DigitsValueSnoc([3], 4, [3, 4]);
    DigitsValueSnoc([3, 4], 5, [3, 4, 5]);
    DigitsValueSnoc([3, 4, 5], 6, [3, 4, 5, 6]);
    DigitsValueSnoc([3, 4, 5, 6], 7, [3, 4, 5, 6, 7]);
    DigitsValueSnoc([3, 4, 5, 6, 7], 8, [3, 4, 5, 6, 7, 8]);
    DigitsValueSnoc([3, 4, 5, 6, 7, 8], 9, [3, 4, 5, 6, 7, 8, 9]);
    DigitsValueSnoc([3, 4, 5, 6, 7, 8, 9], 0, [3, 4, 5, 6, 7, 8, 9, 0]);
  }

  lemma ExampleChunksValue()
    ensures ChunkValue([34567890, 56789012, 1234]) == 12345678901234567890
  {
    var expected: seq<u64> := [34567890, 56789012, 1234];
    ChunkValuePrefix(expected, 0);
    ChunkValuePrefix(expected, 1);
    ChunkValuePrefix(expected, 2);
    ChunkValueFull(expected);
    assert ChunkWeight(1) == ChunkBase as int;
    assert ChunkWeight(2) == ChunkBase as int * ChunkBase as int;
  }

  /** The operands and results of the worked products. */
  const Int123: BcNum := BcNum(Plus, 3, 0, [1, 2, 3])
  const Int456: BcNum := BcNum(Plus, 3, 0, [4, 5, 6])
  const Int56088: BcNum := BcNum(Plus, 5, 0, [5, 6, 0, 8, 8])
  const OnePointFive: BcNum := BcNum(Plus, 1, 1, [1, 5])
  const TwoPointFive: BcNum := BcNum(Plus, 1, 1, [2, 5])
  const ThreePointSevenFive: BcNum := BcNum(Plus, 1, 2, [3, 7, 5])
  const ThreePointSeven: BcNum := BcNum(Plus, 1, 1, [3, 7])
  const MinusSeven: BcNum := BcNum(Minus, 1, 0, [7])
  const Eight: BcNum := BcNum(Plus, 1, 0, [8])
  const MinusFiftySix: BcNum := BcNum(Minus, 2, 0, [5, 6])
  const MinusZero: BcNum := BcNum(Minus, 1, 0, [0])
  const Zero: BcNum := BcNum(Plus, 1, 0, [0])
  const OnePoint111: BcNum := BcNum(Plus, 1, 3, [1, 1, 1, 1])
  const OnePoint234321: BcNum := BcNum(Plus, 1, 6, [1, 2, 3, 4, 3, 2, 1])
  const NinesEighteen: BcNum := BcNum(Plus, 18, 0, seq(18, _ => 9))

  lemma IntegerValues()
    ensures Int123.Valid() && Int123.Digits() == [1, 2, 3] && Int123.Magnitude() == 123
    ensures Int456.Valid() && Int456.Digits() == [4, 5, 6] && Int456.Magnitude() == 456
    ensures Int56088.Valid() && Int56088.Digits() == [5, 6, 0, 8, 8] && Int56088.Magnitude() == 56088
  {
    assert [1, 2, 3][..3] == [1, 2, 3];
    DigitsValueSnoc([], 1, [1]);
    DigitsValueSnoc([1], 2, [1, 2]);
    DigitsValueSnoc([1, 2], 3, [1, 2, 3]);
    assert [4, 5, 6][..3] == [4, 5, 6];
    DigitsValueSnoc([], 4, [4]);
    DigitsValueSnoc([4], 5, [4, 5]);
    DigitsValueSnoc([4, 5], 6, [4, 5, 6]);
    assert [5, 6, 0, 8, 8][..5] == [5, 6, 0, 8, 8];
    DigitsValueSnoc([], 5, [5]);
    DigitsValueSnoc([5], 6, [5, 6]);
    DigitsValueSnoc([5, 6], 0, [5, 6, 0]);
    DigitsValueSnoc([5, 6, 0], 8, [5, 6, 0, 8]);
    DigitsValueSnoc([5, 6, 0, 8], 8, [5, 6, 0, 8, 8]);
  }

  /** 123 × 456 at scale 0 is 56088. */
  lemma IntegerExample()
    ensures Int123.Valid() && Int456.Valid() && IsProduct(Int123, Int456, 0, Int56088)
  {
    IntegerValues();
    Pow10Values();
  }

  lemma FractionValues()
    ensures OnePointFive.Valid() && OnePointFive.Digits() == [1, 5] && OnePointFive.Magnitude() == 15
    ensures TwoPointFive.Valid() && TwoPointFive.Digits() == [2, 5] && TwoPointFive.Magnitude() == 25
    ensures ThreePointSevenFive.Valid() && ThreePointSevenFive.Digits() == [3, 7, 5] && ThreePointSevenFive.Magnitude() == 375
    ensures ThreePointSeven.Valid() && ThreePointSeven.Digits() == [3, 7] && ThreePointSeven.Magnitude() == 37
  {
    assert [1, 5][..2] == [1, 5];
    DigitsValueSnoc([], 1, [1]);
    DigitsValueSnoc([1], 5, [1, 5]);
    assert [2, 5][..2] == [2, 5];
    DigitsValueSnoc([], 2, [2]);
    DigitsValueSnoc([2], 5, [2, 5]);
    assert [3, 7, 5][..3] == [3, 7, 5];
    DigitsValueSnoc([], 3, [3]);
    DigitsValueSnoc([3], 7, [3, 7]);
    DigitsValueSnoc([3, 7], 5, [3, 7, 5]);
    assert [3, 7][..2] == [3, 7];
    DigitsValueSnoc([], 3, [3]);
    DigitsValueSnoc([3], 7, [3, 7]);
  }

  /** 1.5 × 2.5 at scale 2 is 3.75. */
  lemma FractionExample()
    ensures OnePointFive.Valid() && TwoPointFive.Valid()
    ensures IsProduct(OnePointFive, TwoPointFive, 2, ThreePointSevenFive)
  {
    FractionValues();
    Pow10Values();
  }

  /** 1.5 × 2.5 at scale 1 is 3.7: the dropped digit is truncated, not rounded. */
  lemma TruncationExample()
    ensures OnePointFive.Valid() && TwoPointFive.Valid()
    ensures IsProduct(OnePointFive, TwoPointFive, 1, ThreePointSeven)
  {
    FractionValues();
    TruncatedMagnitude();
    assert ProdScale(1, 1, 1) == 1;
  }

  lemma TruncatedMagnitude()
    ensures ThreePointSeven.Magnitude()
            == OnePointFive.Magnitude() * TwoPointFive.Magnitude()
               / Pow10(OnePointFive.scale + TwoPointFive.scale - ProdScale(OnePointFive.scale, TwoPointFive.scale, 1))
  {
    FractionValues();
    var m1, m2 := OnePointFive.Magnitude(), TwoPointFive.Magnitude();
    var e := OnePointFive.scale + TwoPointFive.scale - ProdScale(OnePointFive.scale, TwoPointFive.scale, 1);
    assert e == 1;
    assert Pow10(e) == 10;
    assert m1 * m2 == 375;
    DivMulAdd(37, 10, 5);
    assert 375 / 10 == 37;
    assert m1 * m2 / Pow10(e) == 37;
  }

  lemma NegativeValues()
    ensures MinusSeven.Valid() && MinusSeven.Digits() == [7] && MinusSeven.Magnitude() == 7
    ensures Eight.Valid() && Eight.Digits() == [8] && Eight.Magnitude() == 8
    ensures MinusFiftySix.Valid() && MinusFiftySix.Digits() == [5, 6] && MinusFiftySix.Magnitude() == 56
  {
    assert [7][..1] == [7];
    DigitsValueSnoc([], 7, [7]);
    assert [8][..1] == [8];
    DigitsValueSnoc([], 8, [8]);
    assert [5, 6][..2] == [5, 6];
    DigitsValueSnoc([], 5, [5]);
    DigitsValueSnoc([5], 6, [5, 6]);
  }

  /** -7 × 8 at scale 0 is -56. */
  lemma NegativeExample()
    ensures MinusSeven.Valid() && Eight.Valid() && IsProduct(MinusSeven, Eight, 0, MinusFiftySix)
  {
    NegativeValues();
    Pow10Values();
  }

  lemma ZeroValues()
    ensures MinusZero.Valid() && MinusZero.Digits() == [0] && MinusZero.Magnitude() == 0
    ensures Zero.Valid() && Zero.Digits() == [0] && Zero.Magnitude() == 0
  {
    assert [0][..1] == [0];
    DigitsValueSnoc([], 0, [0]);
    assert [0][..1] == [0];
    DigitsValueSnoc([], 0, [0]);
  }

  /** -0 × 999999999999999999 at scale 5 is a positive 0 with scale 0: the
      exact product has no fractional digits, and a zero is never negative. */
  lemma ZeroExample()
    ensures MinusZero.Valid() && NinesEighteen.Valid() && IsProduct(MinusZero, NinesEighteen, 5, Zero)
  {
    ZeroValues();
    Pow10Values();
    var m := NinesEighteen.Magnitude();
    assert 0 * m == 0;
  }

  lemma CappedValues()
    ensures OnePoint111.Valid() && OnePoint111.Digits() == [1, 1, 1, 1] && OnePoint111.Magnitude() == 1111
    ensures OnePoint234321.Valid() && OnePoint234321.Digits() == [1, 2, 3, 4, 3, 2, 1] && OnePoint234321.Magnitude() == 1234321
  {
    assert [1, 1, 1, 1][..4] == [1, 1, 1, 1];
    DigitsValueSnoc([], 1, [1]);
    DigitsValueSnoc([1], 1, [1, 1]);
    DigitsValueSnoc([1, 1], 1, [1, 1, 1]);
    DigitsValueSnoc([1, 1, 1], 1, [1, 1, 1, 1]);
    assert [1, 2, 3, 4, 3, 2, 1][..7] == [1, 2, 3, 4, 3, 2, 1];
    DigitsValueSnoc([], 1, [1]);
    DigitsValueSnoc([1], 2, [1, 2]);
    DigitsValueSnoc([1, 2], 3, [1, 2, 3]);
    DigitsValueSnoc([1, 2, 3], 4, [1, 2, 3, 4]);
    DigitsValueSnoc([1, 2, 3, 4], 3, [1, 2, 3, 4, 3]);
    DigitsValueSnoc([1, 2, 3, 4, 3], 2, [1, 2, 3, 4, 3, 2]);
    DigitsValueSnoc([1, 2, 3, 4, 3, 2], 1, [1, 2, 3, 4, 3, 2, 1]);
  }

  /** 1.111 × 1.111 at scale 10 is 1.234321: the request exceeds the exact
      product's scale 6, which caps it. */
  lemma CappedScaleExample()
    ensures OnePoint111.Valid() && IsProduct(OnePoint111, OnePoint111, 10, OnePoint234321)
  {
    CappedValues();
    Pow10Values();
  }
}
