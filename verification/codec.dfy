/** Digit/chunk codecs of recmul.c: digit runs to native words
    (bc_parse_chunk_chars, bc_partial_convert_to_uint, bc_convert_to_uint) and a
    value below 10000 back to four digit bytes (LUT, bc_expand_lut,
    bc_write_bcd_representation), in the 64-bit little-endian configuration.

    A pointer to the LAST digit of a run in the source is an exclusive end index
    `nend` into the digit sequence here. */
module Codec {
  import opened Words
  import opened Digits
  import opened Chunks

  /** bc_parse_chunk_chars: a full chunk of W = 8 digits combined pairwise in
      O(log W) rounds: digit pairs into 2-digit lanes (×10), lane pairs into
      4-digit lanes (×100), and the two halves into the chunk (×10000). The
      byte masks, the wide load and the byte swap are not modelled. */
  function ParseChunkChars(s: seq<Digit>): (r: u64)
    requires |s| == W
    ensures r as int == DigitsValue(s)
    ensures r < ChunkBase
  {
    var d: seq<int> := s;
    var p0, p1, p2, p3 := 10 * d[0] + d[1], 10 * d[2] + d[3], 10 * d[4] + d[5], 10 * d[6] + d[7];
    var q0, q1 := 100 * p0 + p1, 100 * p2 + p3;
    ParseChunkCharsValue(s);
    DigitsValueBound(s);
    Pow10Values();
    (10000 * q0 + q1) as u64
  }

  /** The pairwise rounds compute the positional value of eight digits. */
  lemma ParseChunkCharsValue(s: seq<Digit>)
    requires |s| == W
    ensures var d: seq<int> := s;
      DigitsValue(s) == 10000 * (100 * (10 * d[0] + d[1]) + (10 * d[2] + d[3]))
                        + (100 * (10 * d[4] + d[5]) + (10 * d[6] + d[7]))
  {
    assert s == s[..4] + s[4..];
    DigitsValueAppend(s[..4], s[4..]);
    FourDigits(s[..4]);
    FourDigits(s[4..]);
  }

  lemma FourDigits(s: seq<Digit>)
    requires |s| == 4
    ensures var d: seq<int> := s;
      DigitsValue(s) == 100 * (10 * d[0] + d[1]) + (10 * d[2] + d[3])
  {
    assert s[..1][..0] == [] && s[..2][..1] == s[..1] && s[..3][..2] == s[..2] && s[..4][..3] == s[..3];
    assert s[..4] == s;
    var d: seq<int> := s;
    assert DigitsValue(s[..1]) == d[0];
    assert DigitsValue(s[..2]) == 10 * d[0] + d[1];
    assert DigitsValue(s[..3]) == 100 * d[0] + 10 * d[1] + d[2];
  }

  /** bc_partial_convert_to_uint: the value of the `len` digits ending just
      before `nend`. The digit at `nend - 1` has weight 1 and each step back
      multiplies the weight by ten; a full chunk goes through
      bc_parse_chunk_chars instead. */
  method PartialConvertToUint(n: seq<Digit>, nend: nat, len: nat) returns (num: u64)
    requires len <= W && len <= nend <= |n|
    ensures num as int == DigitsValue(n[nend - len..nend])
    ensures num as int < Pow10(len)
  {
    if len == W {
      num := ParseChunkChars(n[nend - W..nend]);
      Pow10Values();
      return;
    }
    num := 0;
    var base: u64 := 1;
    var i := 0;
    while i < len
      invariant 0 <= i <= len
      invariant base as int == Pow10(i)
      invariant num as int == DigitsValue(n[nend - i..nend]) < Pow10(i)
    {
      var d := n[nend - 1 - i];
      PartialStep(n, nend, i, len, num as int, base as int, d);
      var term := (d as u64) * base;
      num := num + term;
      base := base * Radix;
      i := i + 1;
    }
  }

  /** One step of the digit loop: the digit i places before the end enters at
      weight 10^i, and both the running value and the weight stay below 10^W. */
  lemma PartialStep(n: seq<Digit>, nend: nat, i: nat, len: nat, num: int, base: int, d: int)
    requires i < len < W && len <= nend <= |n| && d == n[nend - 1 - i]
    requires base == Pow10(i) && num == DigitsValue(n[nend - i..nend])
    ensures num + d * base == DigitsValue(n[nend - (i + 1)..nend])
    ensures 0 <= d * base && num + d * base < Pow10(i + 1) <= 10_000_000
    ensures base * 10 == Pow10(i + 1)
  {
    assert n[nend - (i + 1)..nend] == [d] + n[nend - i..nend];
    DigitsValueCons(d, n[nend - i..nend]);
    DigitsValueBound(n[nend - i..nend]);
    Pow10Mono(i + 1, W - 1);
    Pow10Values();
    AccumulateDigit(num, d, base);
  }

  /** Adding a digit at weight p to a value below p stays below 10·p. */
  lemma AccumulateDigit(x: int, d: int, p: int)
    requires 0 <= x < p && 0 <= d < 10
    ensures 0 <= x + d * p < 10 * p
  {
    MulMono(d, 9, p);
  }

  /** bc_convert_to_uint: cuts the first `nlen` digits into chunks of W digits
      from the least significant end; only the most significant chunk may be
      shorter. Σ chunk[k]·B^k is the value of the digit run. */
  method ConvertToUint(n: seq<Digit>, nlen: nat) returns (chunks: seq<u64>)
    requires nlen <= |n|
    ensures |chunks| == (nlen + W - 1) / W
    ensures Normalized(chunks)
    ensures ChunkValue(chunks) == DigitsValue(n[..nlen])
  {
    chunks := [];
    var rest: nat := nlen;
    while rest > 0
      invariant rest <= nlen <= |n|
      invariant rest > 0 ==> nlen - rest == W * |chunks|
      invariant rest == 0 ==> |chunks| == (nlen + W - 1) / W
      invariant Normalized(chunks)
      invariant DigitsValue(n[..nlen])
                == DigitsValue(n[..rest]) * ChunkWeight(|chunks|) + ChunkValue(chunks)
    {
      var len: nat := Min(W, rest);
      var c := PartialConvertToUint(n, rest, len);
      Pow10Mono(len, W);
      Pow10Values();
      ConvertStep(n, rest, len, chunks, c);
      chunks := chunks + [c];
      rest := rest - len;
    }
    assert n[..0] == [];
  }

  /** One round of bc_convert_to_uint keeps the running total: the chunk read
      from the low end of the remaining digits moves to the next chunk slot. */
  lemma ConvertStep(n: seq<Digit>, rest: nat, len: nat, chunks: seq<u64>, c: u64)
    requires len <= rest <= |n| && (len == W || len == rest)
    requires c as int == DigitsValue(n[rest - len..rest])
    ensures DigitsValue(n[..rest]) * ChunkWeight(|chunks|) + ChunkValue(chunks)
            == DigitsValue(n[..rest - len]) * ChunkWeight(|chunks| + 1) + ChunkValue(chunks + [c])
  {
    SplitLowDigits(n, rest, len);
    ChunkValueSnoc(chunks, c);
    ShiftOneChunk(DigitsValue(n[..rest]), DigitsValue(n[..rest - len]), Pow10(len), c as int,
                  ChunkWeight(|chunks|), ChunkWeight(|chunks| + 1),
                  ChunkValue(chunks), ChunkValue(chunks + [c]));
  }

  /** The run before `rest` is the run before `rest - len` shifted by `len`
      digits plus the last `len` digits; when fewer than W digits are taken,
      nothing is left in front of them. */
  lemma SplitLowDigits(n: seq<Digit>, rest: nat, len: nat)
    requires len <= rest <= |n| && (len == W || len == rest)
    ensures DigitsValue(n[..rest])
            == DigitsValue(n[..rest - len]) * Pow10(len) + DigitsValue(n[rest - len..rest])
    ensures Pow10(len) == ChunkBase as int || DigitsValue(n[..rest - len]) == 0
  {
    var hi, lo := n[..rest - len], n[rest - len..rest];
    assert n[..rest] == hi + lo;
    DigitsValueAppend(hi, lo);
    Pow10Values();
    if len < W {
      assert hi == [];
    }
  }

  /** Moving the least significant W digits of the remaining run into the next
      chunk keeps the total. */
  lemma ShiftOneChunk(v: int, x: int, p: int, c: int, w: int, w1: int, acc: int, acc1: int)
    requires p == ChunkBase as int || x == 0
    requires v == x * p + c && w1 == ChunkBase as int * w && acc1 == acc + c * w
    ensures v * w + acc == x * w1 + acc1
  {
  }

  /** The LUT entry for 0 <= k < 100 in the little-endian layout
      (BC_ENCODE_LUT(A, B) = A | B << 4 with k = 10·A + B): the tens digit in
      the low nibble, the ones digit in the high nibble. */
  function Lut(k: nat): (c: nat)
    requires k < 100
    ensures c < 256
    ensures c % 16 == k / 10 && c / 16 == k % 10
  {
    k / 10 + 16 * (k % 10)
  }

  /** bc_expand_lut: `(c & 0x0f) | (c & 0xf0) << 4`, spreading the two nibbles of
      a byte into the low nibbles of two bytes (the fields are disjoint, so `|`
      is `+`). */
  function ExpandLut(c: nat): (e: nat)
    requires c < 256
    ensures e % 256 == c % 16 && e / 256 == c / 16
  {
    c % 16 + (c / 16) * 256
  }

  /** The four bytes a 32-bit little-endian store writes, lowest address first. */
  function StoreLe32(w: nat): (bytes: seq<nat>)
    requires w < 0x1_0000_0000
    ensures |bytes| == 4
  {
    [w % 256, w / 256 % 256, w / 65536 % 256, w / 16777216]
  }

  /** bc_write_bcd_representation: the four decimal digits of a value below
      10000, most significant first, assembled from two LUT entries and written
      with one 32-bit store (little-endian: `lower` in the high half). */
  function WriteBcdRepresentation(value: nat): (str: seq<Digit>)
    requires value < 10000
    ensures |str| == 4
    ensures DigitsValue(str) == value
    ensures str == ToDigits(value, 4)
  {
    var upper := value / 100;
    var lower := value % 100;
    var digits := ExpandLut(Lut(lower)) * 65536 + ExpandLut(Lut(upper));
    var bytes := StoreLe32(digits);
    BcdBytes(value);
    var str: seq<Digit> := [bytes[0], bytes[1], bytes[2], bytes[3]];
    FourDigits(str);
    ToDigitsUnique(str, value);
    str
  }

  /** The stored bytes are the tens and ones digits of `upper`, then of `lower`. */
  lemma BcdBytes(value: nat)
    requires value < 10000
    ensures var upper, lower := value / 100, value % 100;
      StoreLe32(ExpandLut(Lut(lower)) * 65536 + ExpandLut(Lut(upper)))
        == [upper / 10, upper % 10, lower / 10, lower % 10]
    ensures var upper, lower := value / 100, value % 100;
      100 * (10 * (upper / 10) + upper % 10) + (10 * (lower / 10) + lower % 10) == value
  {
    var upper, lower := value / 100, value % 100;
    LutExpand(upper);
    LutExpand(lower);
    WordBytes(upper / 10, upper % 10, lower / 10, lower % 10);
  }

  /** A LUT entry expands to its tens digit in the low byte and its ones digit
      in the high byte. */
  lemma LutExpand(k: nat)
    requires k < 100
    ensures ExpandLut(Lut(k)) == k / 10 + (k % 10) * 256
  {
  }

  /** Four bytes packed into a word come back out of the store in order. */
  lemma WordBytes(b0: nat, b1: nat, b2: nat, b3: nat)
    requires b0 < 16 && b1 < 16 && b2 < 16 && b3 < 16
    ensures StoreLe32((b2 + b3 * 256) * 65536 + (b0 + b1 * 256)) == [b0, b1, b2, b3]
  {
    var w := (b2 + b3 * 256) * 65536 + (b0 + b1 * 256);
    assert w == b0 + 256 * (b1 + 256 * (b2 + 256 * b3));
    DivMulAdd(b1 + 256 * (b2 + 256 * b3), 256, b0);
    DivMulAdd(b2 + 256 * b3, 256, b1);
    DivMulAdd(b3, 256, b2);
    assert w / 65536 == (w / 256) / 256;
    assert w / 16777216 == (w / 65536) / 256;
  }

  /** One chunk below 10^8 written as two BCD groups, high group first, has the
      chunk's value. */
  lemma WriteChunkValue(x: nat)
    requires x < ChunkBase as int
    ensures DigitsValue(WriteBcdRepresentation(x / 10000) + WriteBcdRepresentation(x % 10000)) == x
  {
    DigitsValueAppend(WriteBcdRepresentation(x / 10000), WriteBcdRepresentation(x % 10000));
    Pow10Values();
  }

  /** Decoding a full chunk and writing it back as two BCD groups gives the
      same eight digits. */
  lemma ChunkRoundTrip(s: seq<Digit>)
    requires |s| == W
    ensures var x := ParseChunkChars(s) as int;
      WriteBcdRepresentation(x / 10000) + WriteBcdRepresentation(x % 10000) == s
  {
    var x := ParseChunkChars(s) as int;
    WriteChunkValue(x);
    DigitsValueInjective(WriteBcdRepresentation(x / 10000) + WriteBcdRepresentation(x % 10000), s);
  }

  /** Writing a chunk value as two BCD groups and decoding them gives the value
      back. */
  lemma ChunkEncodeDecode(x: nat)
    requires x < ChunkBase as int
    ensures ParseChunkChars(WriteBcdRepresentation(x / 10000) + WriteBcdRepresentation(x % 10000)) as int == x
  {
    WriteChunkValue(x);
  }
}
