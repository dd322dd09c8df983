/** bc_digits_adjustment: the carry-normalisation pass over the accumulator,
    in base B = 10^W. */
module Carry {
  import opened Words
  import opened Chunks

  /** Every slot of `s` is within the bound the overflow budget guarantees at
      the moment a carry pass starts. */
  ghost predicate WithinBudget(s: seq<u64>)
  {
    forall k :: 0 <= k < |s| ==> s[k] as int <= SlotCap
  }

  /** Moves everything above B in each slot but the last into the next slot.
      Σ p[k]·B^k is kept, every slot but the last ends below B, and the last slot
      is never reduced: it only gains the final carry. No slot wraps around. */
  method DigitsAdjustment(p: seq<u64>) returns (q: seq<u64>)
    requires |p| >= 1
    requires WithinBudget(p)
    ensures |q| == |p|
    ensures ChunkValue(q) == ChunkValue(p)
    ensures forall k :: 0 <= k < |q| - 1 ==> q[k] < ChunkBase
    ensures p[|p| - 1] <= q[|q| - 1]
    ensures q[|q| - 1] as int <= p[|p| - 1] as int + CarryCap
  {
    BudgetFacts();
    q := p;
    var i := 0;
    while i < |q| - 1
      invariant 0 <= i <= |q| - 1 && |q| == |p|
      invariant ChunkValue(q) == ChunkValue(p)
      invariant forall k :: 0 <= k < i ==> q[k] < ChunkBase
      invariant forall k :: i < k < |q| ==> q[k] == p[k]
      invariant p[i] <= q[i] && q[i] as int <= p[i] as int + CarryCap
    {
      var carry := q[i] / ChunkBase;
      CarryStep(q, i);
      q := q[i + 1 := q[i + 1] + carry];
      q := q[i := q[i] % ChunkBase];
      i := i + 1;
    }
  }

  /** Taking the carry out of slot i and adding it to slot i + 1 keeps the sum. */
  lemma CarryStep(s: seq<u64>, i: nat)
    requires i + 1 < |s|
    requires s[i + 1] as int + (s[i] / ChunkBase) as int <= U64Max
    ensures var carry := s[i] / ChunkBase;
      ChunkValue(s[i + 1 := s[i + 1] + carry][i := s[i] % ChunkBase]) == ChunkValue(s)
  {
    var carry := s[i] / ChunkBase;
    var s1 := s[i + 1 := s[i + 1] + carry];
    ChunkValueUpdate(s, i + 1, s[i + 1] + carry);
    ChunkValueUpdate(s1, i, s[i] % ChunkBase);
    var b, c, d, w := ChunkBase as int, s[i] as int, carry as int, ChunkWeight(i);
    assert ChunkWeight(i + 1) == b * w;
    assert ChunkValue(s1) == ChunkValue(s) + d * (b * w);
    assert (s[i] % ChunkBase) as int - c == -(b * d);
    CarryCancels(d, b, w);
  }

  lemma CarryCancels(d: int, b: int, w: int)
    ensures d * (b * w) + -(b * d) * w == 0
  {
  }

  /** A pass over an accumulator whose total is below B^|p| leaves every slot,
      the last one included, below B. */
  lemma AdjustedIsNormalized(q: seq<u64>)
    requires |q| >= 1
    requires forall k :: 0 <= k < |q| - 1 ==> q[k] < ChunkBase
    requires ChunkValue(q) < ChunkWeight(|q|)
    ensures Normalized(q)
  {
    TopSlotBound(q);
  }
}
