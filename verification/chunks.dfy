/** Chunk-integer arrays: native words each holding W decimal digits, least
    significant chunk first, read in base 10^W. `ChunkValue` is the weighted sum
    Σ s[k]·B^k that the convolution and the carry pass are held to. */
module Chunks {
  import opened Words
  import opened Digits

  /** B^k for the chunk base B = 10^W. */
  function ChunkWeight(k: nat): (w: nat)
    ensures w >= 1
  {
    if k == 0 then 1 else ChunkBase as int * ChunkWeight(k - 1)
  }

  /** Σ s[k]·B^k, least significant chunk first. Slots may exceed the chunk base
      (the accumulator before a carry pass); the sum is still well defined. */
  function ChunkValue(s: seq<u64>): nat
  {
    if |s| == 0 then 0
    else ChunkValue(s[..|s| - 1]) + s[|s| - 1] as int * ChunkWeight(|s| - 1)
  }

  /** Every slot is a proper chunk digit. */
  ghost predicate Normalized(s: seq<u64>)
  {
    forall k :: 0 <= k < |s| ==> s[k] < ChunkBase
  }

  lemma {:induction false} ChunkWeightAdd(a: nat, b: nat)
    ensures ChunkWeight(a + b) == ChunkWeight(a) * ChunkWeight(b)
  {
    if b > 0 {
      ChunkWeightAdd(a, b - 1);
      assert ChunkWeight(a + b) == ChunkBase as int * ChunkWeight(a + b - 1);
    }
  }

  lemma {:induction false} ChunkWeightMono(a: nat, b: nat)
    requires a <= b
    ensures ChunkWeight(a) <= ChunkWeight(b)
  {
    if a < b {
      ChunkWeightMono(a, b - 1);
    }
  }

  /** A chunk weight is the decimal weight of W digits per chunk. */
  lemma {:induction false} ChunkWeightDigits(k: nat)
    ensures ChunkWeight(k) == Pow10(W * k)
  {
    if k > 0 {
      ChunkWeightDigits(k - 1);
      Pow10Add(W * (k - 1), W);
      assert W * k == W * (k - 1) + W;
      assert Pow10(W) == ChunkBase as int;
    }
  }

  /** Extending a prefix by one chunk adds that chunk at its weight. */
  lemma ChunkValuePrefix(s: seq<u64>, i: nat)
    requires i < |s|
    ensures ChunkValue(s[..i + 1]) == ChunkValue(s[..i]) + s[i] as int * ChunkWeight(i)
  {
    assert s[..i + 1][..i] == s[..i];
  }

  /** Appending a chunk adds it at the next weight, B times the last one. */
  lemma ChunkValueSnoc(s: seq<u64>, c: u64)
    ensures ChunkValue(s + [c]) == ChunkValue(s) + c as int * ChunkWeight(|s|)
    ensures ChunkWeight(|s| + 1) == ChunkBase as int * ChunkWeight(|s|)
  {
    assert (s + [c])[..|s|] == s;
  }

  /** The empty prefix is worth nothing, the full prefix everything. */
  lemma ChunkValueFull(s: seq<u64>)
    ensures ChunkValue(s[..0]) == 0 && ChunkValue(s[..|s|]) == ChunkValue(s)
  {
    assert s[..|s|] == s;
  }

  /** An all-zero accumulator is worth nothing. */
  lemma {:induction false} ChunkValueZeros(n: nat)
    ensures ChunkValue(seq(n, _ => 0 as u64)) == 0
  {
    if n > 0 {
      assert seq(n, _ => 0 as u64)[..n - 1] == seq(n - 1, _ => 0 as u64);
      ChunkValueZeros(n - 1);
    }
  }

  /** Changing one slot moves the sum by the change times that slot's weight. */
  lemma {:induction false} ChunkValueUpdate(s: seq<u64>, k: nat, v: u64)
    requires k < |s|
    ensures ChunkValue(s[k := v]) == ChunkValue(s) + (v as int - s[k] as int) * ChunkWeight(k)
  {
    var n := |s| - 1;
    if k < n {
      assert s[k := v][..n] == s[..n][k := v];
      ChunkValueUpdate(s[..n], k, v);
    } else {
      assert s[k := v][..n] == s[..n];
    }
  }

  /** A normalized array of n chunks is worth less than B^n. */
  lemma {:induction false} ChunkValueBound(s: seq<u64>)
    requires Normalized(s)
    ensures ChunkValue(s) < ChunkWeight(|s|)
  {
    if |s| > 0 {
      var n := |s| - 1;
      ChunkValueBound(s[..n]);
      MulMono(s[n] as int, ChunkBase as int - 1, ChunkWeight(n));
    }
  }

  /** The top slot of an array whose sum is below B^|s| is a proper chunk digit. */
  lemma TopSlotBound(s: seq<u64>)
    requires |s| > 0 && ChunkValue(s) < ChunkWeight(|s|)
    ensures s[|s| - 1] < ChunkBase
  {
    var n := |s| - 1;
    MulLtCancel(s[n] as int, ChunkBase as int, ChunkWeight(n));
  }

  /** Normalized arrays of equal length are equal exactly when their sums are:
      base-B representations are unique. */
  lemma {:induction false} ChunkValueInjective(s: seq<u64>, t: seq<u64>)
    requires |s| == |t| && Normalized(s) && Normalized(t)
    ensures s == t <==> ChunkValue(s) == ChunkValue(t)
  {
    if |s| > 0 && ChunkValue(s) == ChunkValue(t) {
      var n := |s| - 1;
      ChunkValueBound(s[..n]);
      ChunkValueBound(t[..n]);
      var w := ChunkWeight(n);
      DivMulAdd(s[n] as int, w, ChunkValue(s[..n]));
      DivMulAdd(t[n] as int, w, ChunkValue(t[..n]));
      ChunkValueInjective(s[..n], t[..n]);
      assert s == s[..n] + [s[n]] && t == t[..n] + [t[n]];
    }
  }
}
