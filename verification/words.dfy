/** Native word and chunk constants of the 64-bit configuration of recmul.c
    (BC_MUL_UINT_DIGITS = 8, BC_MUL_UINT_OVERFLOW = 10^8, BC_UINT_T 64 bits wide),
    and the overflow budget of the deferred carry scheme. */
module Words {

  /** BC_UINT_T on a 64-bit build. Every `+`, `*`, `/` and `%` on this type carries
      Dafny's range obligation, which is the model's no-wraparound check. */
  newtype u64 = x: int | 0 <= x < 0x1_0000_0000_0000_0000

  /** ~((BC_UINT_T) 0) */
  const U64Max: int := 0xFFFF_FFFF_FFFF_FFFF

  /** BASE: digits are base 10. */
  const Radix: u64 := 10

  /** BC_MUL_UINT_DIGITS: decimal digits per chunk. */
  const W: nat := 8

  /** BC_MUL_UINT_OVERFLOW: the chunk base 10^W. */
  const ChunkBase: u64 := 100_000_000

  /** BC_MUL_MAX_ADD_COUNT: how many rows of chunk products may be added into the
      accumulator before a carry pass is due. */
  const MaxAddCount: nat := U64Max / (ChunkBase as int * ChunkBase as int)

  /** The largest product of two chunk digits, (10^W - 1)^2. */
  const RowMax: int := (ChunkBase as int - 1) * (ChunkBase as int - 1)

  /** An upper bound on any accumulator slot after `count` rows were added since
      the last carry pass (which left every slot below the chunk base). */
  function AddCap(count: nat): int
  {
    (ChunkBase as int - 1) + count * RowMax
  }

  /** The bound every slot respects when a carry pass starts. */
  const SlotCap: int := AddCap(MaxAddCount)

  /** An upper bound on the carry moved into the next slot during a carry pass. */
  const CarryCap: int := 0x1_0000_0000_0000_0000 / ChunkBase as int

  /** The budget is the number the source derives, and it leaves room for the
      largest carry on top of a full slot, so a carry pass cannot wrap either. */
  lemma BudgetFacts()
    ensures MaxAddCount == 1844
    ensures AddCap(0) == ChunkBase as int - 1
    ensures SlotCap + CarryCap <= U64Max
    ensures (SlotCap + CarryCap) / ChunkBase as int <= CarryCap
  {
  }

  /** A later cap is at least as large as an earlier one. */
  lemma AddCapMono(c: nat, d: nat)
    requires c <= d
    ensures AddCap(c) <= AddCap(d)
  {
    MulMono(c, d, RowMax as nat);
  }

  /** One more row of products raises the cap by exactly one product. */
  lemma AddCapStep(c: nat)
    ensures AddCap(c) + RowMax == AddCap(c + 1)
  {
  }

  function Min(a: int, b: int): int { if a <= b then a else b }

  function Max(a: int, b: int): int { if a >= b then a else b }

  /** Multiplication by a natural is monotone. */
  lemma {:induction false} MulMono(a: int, b: int, c: nat)
    requires a <= b
    ensures a * c <= b * c
  {
    if c > 0 {
      MulMono(a, b, c - 1);
      assert a * c == a * (c - 1) + a;
      assert b * c == b * (c - 1) + b;
    }
  }

  /** Two chunk digits multiply to at most RowMax. */
  lemma ChunkProductBound(a: int, b: int)
    requires 0 <= a < ChunkBase as int && 0 <= b < ChunkBase as int
    ensures 0 <= a * b <= RowMax
  {
    MulMono(0, a, b);
    MulMono(b, ChunkBase as int - 1, a);
    MulMono(a, ChunkBase as int - 1, ChunkBase as int - 1);
  }

  /** Cancelling a positive factor from a strict inequality. */
  lemma MulLtCancel(a: int, b: int, c: nat)
    requires c > 0 && a * c < b * c
    ensures a < b
  {
    if b <= a {
      MulMono(b, a, c);
    }
  }

  /** Product of two strict bounds on naturals. */
  lemma MulStrictBound(x: nat, y: nat, xBound: nat, yBound: nat)
    requires x < xBound && y < yBound
    ensures x * y < xBound * yBound
  {
    MulMono(y, yBound - 1, x);
    MulMono(x, xBound - 1, yBound);
    assert x * y <= x * (yBound - 1) == x * yBound - x;
    assert (xBound - 1) * yBound == xBound * yBound - yBound;
  }

  /** Division undoes a multiplication when the remainder is in range. */
  lemma DivMulAdd(x: int, m: nat, y: int)
    requires m > 0 && 0 <= y < m
    ensures (x * m + y) / m == x
    ensures (x * m + y) % m == y
  {
    var q := (x * m + y) / m;
    var r := (x * m + y) % m;
    assert q * m + r == x * m + y;
    assert (q - x) * m == y - r;
    if q > x {
      MulMono(1, q - x, m);
    } else if q < x {
      MulMono(1, x - q, m);
    }
  }
}
