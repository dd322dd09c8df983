/** The two multiplication strategies of recmul.c: bc_fast_mul (both operands
    fit one chunk, one native multiply) and bc_standard_mul (chunked schoolbook
    convolution with deferred carry passes). Both produce the `n1len + n2len`
    digits of the exact product of the two digit runs. */
module Paths {
  import opened Words
  import opened Digits
  import opened Chunks
  import opened Codec
  import opened Carry

  /** The reference both paths meet: the product of the two digit runs, written
      in exactly `n1len + n2len` digits with leading zeros. */
  function ProductDigits(n1: seq<Digit>, n1len: nat, n2: seq<Digit>, n2len: nat): seq<Digit>
    requires n1len <= |n1| && n2len <= |n2|
  {
    ToDigits(DigitsValue(n1[..n1len]) * DigitsValue(n2[..n2len]), n1len + n2len)
  }

  /** The product of an `l1`-digit and an `l2`-digit run fits in `l1 + l2` digits. */
  lemma ProductFits(n1: seq<Digit>, n2: seq<Digit>)
    ensures DigitsValue(n1) * DigitsValue(n2) < Pow10(|n1| + |n2|)
  {
    DigitsValueBound(n1);
    DigitsValueBound(n2);
    Pow10MulBound(DigitsValue(n1), DigitsValue(n2), |n1|, |n2|);
  }

  /** bc_fast_mul: each run is at most W digits, so each converts to one word
      below 10^W, and their product is below 10^(2W) < 2^64: the native multiply
      cannot wrap. The product is written from the last position backwards by
      `% 10` and `/ 10`. */
  method FastMul(n1: seq<Digit>, n1len: nat, n2: seq<Digit>, n2len: nat) returns (prod: seq<Digit>)
    requires n1len <= W && n2len <= W
    requires n1len <= |n1| && n2len <= |n2|
    ensures |prod| == n1len + n2len
    ensures DigitsValue(prod) == DigitsValue(n1[..n1len]) * DigitsValue(n2[..n2len])
    ensures prod == ProductDigits(n1, n1len, n2, n2len)
  {
    var n1Uint := PartialConvertToUint(n1, n1len, n1len);
    var n2Uint := PartialConvertToUint(n2, n2len, n2len);
    assert n1[n1len - n1len..n1len] == n1[..n1len];
    assert n2[n2len - n2len..n2len] == n2[..n2len];
    ghost var product := DigitsValue(n1[..n1len]) * DigitsValue(n2[..n2len]);
    ProductFits(n1[..n1len], n2[..n2len]);
    Pow10Mono(n1len + n2len, 2 * W);
    Pow10Add(W, W);
    Pow10Values();
    var prodUint := n1Uint * n2Uint;
    var prodlen := n1len + n2len;
    prod := [];
    while |prod| < prodlen
      invariant |prod| <= prodlen
      invariant prodUint as int * Pow10(|prod|) + DigitsValue(prod) == product
    {
      ExpandStep(prodUint, prod);
      prod := [(prodUint % Radix) as int] + prod;
      prodUint := prodUint / Radix;
    }
    NothingLeft(prodUint as int, Pow10(prodlen), DigitsValue(prod), product);
    ToDigitsUnique(prod, product);
  }

  /** Emitting the lowest digit of the remaining value keeps the total. */
  lemma ExpandStep(v: u64, ds: seq<Digit>)
    ensures (v / 10) as int * Pow10(|ds| + 1) + DigitsValue([(v % 10) as int] + ds)
            == v as int * Pow10(|ds|) + DigitsValue(ds)
  {
    var q, r, p := (v / 10) as int, (v % 10) as int, Pow10(|ds|);
    DigitsValueCons(r, ds);
    assert Pow10(|ds| + 1) == 10 * p;
    DigitShift(v as int, q, r, p);
  }

  lemma DigitShift(v: int, q: int, r: int, p: int)
    requires v == 10 * q + r
    ensures q * (10 * p) + r * p == v * p
  {
  }

  /** Once as many digits as the value has are emitted, nothing remains. */
  lemma NothingLeft(v: nat, p: nat, d: nat, total: nat)
    requires p >= 1 && v * p + d == total && total < p
    ensures v == 0 && d == total
  {
    if v > 0 {
      MulMono(1, v, p);
    }
  }

  /** One row of the convolution (the inner loop of bc_standard_mul): adds
      a·b[j] into p[i + j] for every j. Each slot gains exactly its one product,
      the sum gains a·B^i·Σ b[j]·B^j, and no slot wraps. */
  method AddRow(p: seq<u64>, a: u64, b: seq<u64>, i: nat) returns (q: seq<u64>)
    requires i + |b| <= |p|
    requires a < ChunkBase && Normalized(b)
    requires forall k :: 0 <= k < |p| ==> p[k] as int + RowMax <= U64Max
    ensures |q| == |p|
    ensures forall k :: 0 <= k < |p| ==>
      q[k] as int == p[k] as int + (if i <= k < i + |b| then a as int * b[k - i] as int else 0)
    ensures forall k :: 0 <= k < |p| ==> p[k] <= q[k] && q[k] as int <= p[k] as int + RowMax
    ensures ChunkValue(q) == ChunkValue(p) + a as int * ChunkWeight(i) * ChunkValue(b)
  {
    q := p;
    var j := 0;
    while j < |b|
      invariant 0 <= j <= |b| && |q| == |p|
      invariant forall k :: 0 <= k < |p| ==>
        q[k] as int == p[k] as int + (if i <= k < i + j then a as int * b[k - i] as int else 0)
      invariant forall k :: 0 <= k < |p| ==> p[k] <= q[k] && q[k] as int <= p[k] as int + RowMax
      invariant ChunkValue(q) == ChunkValue(p) + a as int * ChunkWeight(i) * ChunkValue(b[..j])
    {
      ChunkProductBound(a as int, b[j] as int);
      var v := q[i + j] + a * b[j];
      RowStep(p, q, a, b, i, j, v);
      q := q[i + j := v];
      j := j + 1;
    }
    assert b[..|b|] == b;
  }

  /** Adding a·b[j] at slot i + j extends the row's contribution by one chunk of b. */
  lemma RowStep(p: seq<u64>, q: seq<u64>, a: u64, b: seq<u64>, i: nat, j: nat, v: u64)
    requires j < |b| && i + j < |q|
    requires v as int == q[i + j] as int + a as int * b[j] as int
    requires ChunkValue(q) == ChunkValue(p) + a as int * ChunkWeight(i) * ChunkValue(b[..j])
    ensures ChunkValue(q[i + j := v]) == ChunkValue(p) + a as int * ChunkWeight(i) * ChunkValue(b[..j + 1])
  {
    ChunkValueUpdate(q, i + j, v);
    ChunkValuePrefix(b, j);
    ChunkWeightAdd(i, j);
    RowIdentity(ChunkValue(q[i + j := v]), ChunkValue(q), ChunkValue(p), v as int - q[i + j] as int,
                a as int, b[j] as int, ChunkWeight(i), ChunkWeight(j), ChunkWeight(i + j),
                ChunkValue(b[..j]), ChunkValue(b[..j + 1]));
  }

  lemma RowIdentity(after1: int, before1: int, base: int, delta: int,
                    x: int, y: int, wi: int, wj: int, wij: int, before: int, after: int)
    requires after1 == before1 + delta * wij && delta == x * y
    requires before1 == base + x * wi * before
    requires wij == wi * wj && after == before + y * wj
    ensures after1 == base + x * wi * after
  {
  }

  /** The accumulation loop of bc_standard_mul (with the zeroing of the
      accumulator before it). Row i adds a[i]·b into the slots from i on; before
      a row, once `count` rows were added since the last carry pass and the
      budget BC_MUL_MAX_ADD_COUNT is used up, a carry pass runs. Result:
      Σ p[k]·B^k is the product of the two chunk sums, and no slot ever leaves
      the 64-bit range. */
  method Convolve(a: seq<u64>, b: seq<u64>) returns (p: seq<u64>)
    requires |a| >= 1 && |b| >= 1
    requires Normalized(a) && Normalized(b)
    ensures |p| == |a| + |b| - 1
    ensures ChunkValue(p) == ChunkValue(a) * ChunkValue(b)
    ensures WithinBudget(p)
  {
    BudgetFacts();
    p := seq(|a| + |b| - 1, _ => 0 as u64);
    ChunkValueZeros(|a| + |b| - 1);
    ChunkValueFull(a);
    var count: nat := 0;
    var i := 0;
    while i < |a|
      invariant 0 <= i <= |a| && |p| == |a| + |b| - 1
      invariant count <= MaxAddCount
      invariant forall k :: 0 <= k < |p| ==> p[k] as int <= AddCap(count)
      invariant ChunkValue(p) == ChunkValue(a[..i]) * ChunkValue(b)
    {
      if count >= MaxAddCount {
        AddCapMono(count, MaxAddCount);
        p := DigitsAdjustment(p);
        PartialProductBound(a, b, i);
        AdjustedIsNormalized(p);
        count := 0;
      }
      AddCapMono(count + 1, MaxAddCount);
      AddCapStep(count);
      count := count + 1;
      ghost var before := ChunkValue(p);
      p := AddRow(p, a[i], b, i);
      ChunkValuePrefix(a, i);
      NextRow(ChunkValue(p), before, ChunkValue(a[..i]), ChunkValue(a[..i + 1]),
              a[i] as int, ChunkWeight(i), ChunkValue(b));
      i := i + 1;
    }
    assert a[..|a|] == a;
    AddCapMono(count, MaxAddCount);
  }

  /** After i < |a| rows the partial product is below B^(|a| + |b| - 1), so a
      carry pass leaves even the top slot below B. */
  lemma PartialProductBound(a: seq<u64>, b: seq<u64>, i: nat)
    requires i < |a| && |b| >= 1 && Normalized(a) && Normalized(b)
    ensures ChunkValue(a[..i]) * ChunkValue(b) < ChunkWeight(|a| + |b| - 1)
  {
    ChunkValueBound(a[..i]);
    ChunkValueBound(b);
    MulStrictBound(ChunkValue(a[..i]), ChunkValue(b), ChunkWeight(i), ChunkWeight(|b|));
    ChunkWeightAdd(i, |b|);
    ChunkWeightMono(i + |b|, |a| + |b| - 1);
  }

  /** Adding row i to the product of the first i chunks of a gives the product
      of the first i + 1. */
  lemma NextRow(after: int, before: int, x: int, x1: int, ai: int, wi: int, y: int)
    requires before == x * y && after == before + ai * wi * y && x1 == x + ai * wi
    ensures after == x1 * y
  {
  }

  /** The digit-writing tail of bc_standard_mul: every slot but the last is
      written as W digits through two bc_write_bcd_representation calls (high
      half first), from the end of the buffer backwards; the last slot fills the
      remaining leading positions by `% 10` and `/ 10`, absorbing any width
      beyond W and padding with zeros. The digits have the accumulator's value. */
  method ExpandProduct(p: seq<u64>, prodlen: nat) returns (prod: seq<Digit>)
    requires |p| >= 1
    requires forall k :: 0 <= k < |p| - 1 ==> p[k] < ChunkBase
    requires W * (|p| - 1) <= prodlen
    requires ChunkValue(p) < Pow10(prodlen)
    ensures |prod| == prodlen
    ensures DigitsValue(prod) == ChunkValue(p)
  {
    var low: seq<Digit> := [];
    var i := 0;
    ChunkValueFull(p);
    while i < |p| - 1
      invariant 0 <= i <= |p| - 1
      invariant |low| == W * i
      invariant DigitsValue(low) == ChunkValue(p[..i])
    {
      var hi := WriteBcdRepresentation((p[i] / 10000) as int);
      var lo := WriteBcdRepresentation((p[i] % 10000) as int);
      WriteSlotStep(p, i, low);
      low := hi + lo + low;
      i := i + 1;
    }
    var top := p[i];
    var k := prodlen - |low|;
    TopFits(p, prodlen);
    var head: seq<Digit> := [];
    while |head| < k
      invariant |head| <= k
      invariant top as int * Pow10(|head|) + DigitsValue(head) == p[i] as int
    {
      ExpandStep(top, head);
      head := [(top % Radix) as int] + head;
      top := top / Radix;
    }
    NothingLeft(top as int, Pow10(k), DigitsValue(head), p[i] as int);
    prod := head + low;
    DigitsValueAppend(head, low);
    ChunkWeightDigits(i);
    ChunkValuePrefix(p, i);
  }

  /** Prepending one slot's eight digits extends the written prefix by that
      slot at its weight. */
  lemma WriteSlotStep(p: seq<u64>, i: nat, low: seq<Digit>)
    requires i < |p| && p[i] < ChunkBase
    requires |low| == W * i && DigitsValue(low) == ChunkValue(p[..i])
    ensures var s := WriteBcdRepresentation((p[i] / 10000) as int) + WriteBcdRepresentation((p[i] % 10000) as int);
      DigitsValue(s + low) == ChunkValue(p[..i + 1]) && |s + low| == W * (i + 1)
  {
    var s := WriteBcdRepresentation((p[i] / 10000) as int) + WriteBcdRepresentation((p[i] % 10000) as int);
    WriteChunkValue(p[i] as int);
    DigitsValueAppend(s, low);
    ChunkWeightDigits(i);
    ChunkValuePrefix(p, i);
  }

  /** The last slot fits the leading positions left over by the full slots. */
  lemma TopFits(p: seq<u64>, prodlen: nat)
    requires |p| >= 1
    requires forall k :: 0 <= k < |p| - 1 ==> p[k] < ChunkBase
    requires W * (|p| - 1) <= prodlen
    requires ChunkValue(p) < Pow10(prodlen)
    ensures p[|p| - 1] as int < Pow10(prodlen - W * (|p| - 1))
  {
    var n := |p| - 1;
    var w := ChunkWeight(n);
    ChunkWeightDigits(n);
    Pow10Add(prodlen - W * n, W * n);
    assert p[n] as int * w <= ChunkValue(p);
    MulLtCancel(p[n] as int, Pow10(prodlen - W * n), w);
  }

  /** bc_standard_mul: chunks both runs, convolves, runs the final carry pass
      and expands the accumulator into `n1len + n2len` digits holding exactly
      the product. */
  method StandardMul(n1: seq<Digit>, n1len: nat, n2: seq<Digit>, n2len: nat) returns (prod: seq<Digit>)
    requires 1 <= n1len <= |n1| && 1 <= n2len <= |n2|
    ensures |prod| == n1len + n2len
    ensures DigitsValue(prod) == DigitsValue(n1[..n1len]) * DigitsValue(n2[..n2len])
    ensures prod == ProductDigits(n1, n1len, n2, n2len)
  {
    var prodlen := n1len + n2len;
    var n1Uint := ConvertToUint(n1, n1len);
    var n2Uint := ConvertToUint(n2, n2len);
    var prodUint := Convolve(n1Uint, n2Uint);
    prodUint := DigitsAdjustment(prodUint);
    ProductFits(n1[..n1len], n2[..n2len]);
    prod := ExpandProduct(prodUint, prodlen);
    ToDigitsUnique(prod, DigitsValue(n1[..n1len]) * DigitsValue(n2[..n2len]));
  }

  /** The two strategies agree wherever both apply: each yields the product in
      `n1len + n2len` digits, and that digit string is unique. */
  lemma PathsAgree(n1: seq<Digit>, n1len: nat, n2: seq<Digit>, n2len: nat, fast: seq<Digit>, standard: seq<Digit>)
    requires n1len <= |n1| && n2len <= |n2|
    requires |fast| == |standard| == n1len + n2len
    requires DigitsValue(fast) == DigitsValue(n1[..n1len]) * DigitsValue(n2[..n2len])
    requires DigitsValue(standard) == DigitsValue(n1[..n1len]) * DigitsValue(n2[..n2len])
    ensures fast == standard
  {
    DigitsValueInjective(fast, standard);
  }
}
