/** bc_multiply: the scale, sign and length bookkeeping around the two
    multiplication paths. A bc_num here is its sign, its integer-digit count
    `n_len`, its fractional-digit count `n_scale` and its digit buffer `n_value`;
    the number it denotes is DigitsValue(n_value[..n_len + n_scale]) / 10^n_scale.
    Digits of the buffer past `n_len + n_scale` are not part of the number. */
module BcMultiply {
  import opened Words
  import opened Digits
  import opened Paths

  datatype Sign = Plus | Minus

  datatype BcNum = BcNum(sign: Sign, len: nat, scale: nat, value: seq<Digit>)
  {
    /** A well-formed bc_num: at least one integer digit, and the buffer holds
        every digit the number uses. */
    predicate Valid()
    {
      len >= 1 && len + scale <= |value|
    }

    /** The digits the number uses, integer digits first. */
    function Digits(): (ds: seq<Digit>)
      requires len + scale <= |value|
      ensures |ds| == len + scale
    {
      value[..len + scale]
    }

    /** The number times 10^scale: the integer its digits spell. */
    function Magnitude(): nat
      requires len + scale <= |value|
    {
      DigitsValue(Digits())
    }

    /** No superfluous leading zero: a single integer digit, or a nonzero first
        digit. */
    predicate LeadingTrimmed()
      requires Valid()
    {
      len == 1 || value[0] != 0
    }
  }

  /** The scale of the product (lines 319-320): the caller's request, raised to
      the larger operand scale, and never above the exact product's scale
      s1 + s2. */
  function ProdScale(s1: nat, s2: nat, scale: nat): (ps: nat)
    ensures s1 <= ps && s2 <= ps && ps <= s1 + s2
    ensures scale <= ps || ps == s1 + s2
    ensures ps <= scale || ps == Max(s1, s2)
  {
    Min(s1 + s2, Max(scale, Max(s1, s2)))
  }

  /** The three properties of ProdScale pin it down: any scale meeting them is
      the product scale. */
  lemma ProdScaleUnique(s1: nat, s2: nat, scale: nat, x: nat)
    requires s1 <= x && s2 <= x && x <= s1 + s2
    requires scale <= x || x == s1 + s2
    requires x <= scale || x == Max(s1, s2)
    ensures x == ProdScale(s1, s2, scale)
  {
  }

  /** The raw product as bc_multiply first assembles it (lines 330-332): the
      `len1 + len2` digit buffer of the exact product, the sign from the operand
      signs, `n_len` reduced by the full scale, and the product scale. Digits
      beyond the product scale stay in the buffer but leave the number, so the
      magnitude is the exact product truncated, not rounded. */
  function Assemble(n1: BcNum, n2: BcNum, scale: nat, buf: seq<Digit>): (raw: BcNum)
    requires n1.Valid() && n2.Valid()
    requires |buf| == n1.len + n1.scale + n2.len + n2.scale
    ensures raw.Valid()
    ensures raw.len == n1.len + n2.len
    ensures raw.scale == ProdScale(n1.scale, n2.scale, scale)
    ensures raw.sign == Plus <==> n1.sign == n2.sign
    ensures raw.Magnitude()
            == DigitsValue(buf) / Pow10(n1.scale + n2.scale - ProdScale(n1.scale, n2.scale, scale))
  {
    var fullScale := n1.scale + n2.scale;
    var prodScale := ProdScale(n1.scale, n2.scale, scale);
    var sign := if n1.sign == n2.sign then Plus else Minus;
    var raw := BcNum(sign, |buf| - fullScale, prodScale, buf);
    assert buf == raw.Digits() + buf[raw.len + prodScale..];
    DigitsValuePrefix(raw.Digits(), buf[raw.len + prodScale..]);
    raw
  }

  /** Stand-in for _bc_rm_leading_zeros (line 333): drops leading zero digits
      while more than one integer digit remains. The value, scale and sign are
      kept and no superfluous leading zero is left. */
  function RmLeadingZeros(num: BcNum): (r: BcNum)
    requires num.Valid()
    ensures r.Valid() && r.sign == num.sign && r.scale == num.scale
    ensures r.Magnitude() == num.Magnitude()
    ensures r.len <= num.len
    ensures r.LeadingTrimmed()
    decreases num.len
  {
    if num.value[0] == 0 && num.len > 1 then
      var next := num.(len := num.len - 1, value := num.value[1..]);
      assert num.Digits() == [0] + next.Digits();
      LeadingZero(next.Digits());
      RmLeadingZeros(next)
    else
      num
  }

  /** Stand-in for bc_is_zero (line 334): every digit the number uses is zero.
      That is the case exactly when its value is zero. */
  function IsZero(num: BcNum): (z: bool)
    requires num.Valid()
    ensures z <==> num.Magnitude() == 0
  {
    AllZeroValue(num.Digits());
    forall k :: 0 <= k < num.len + num.scale ==> num.value[k] == 0
  }

  /** A digit run is worth zero exactly when all its digits are zero. */
  lemma {:induction false} AllZeroValue(ds: seq<Digit>)
    ensures DigitsValue(ds) == 0 <==> forall k :: 0 <= k < |ds| ==> ds[k] == 0
  {
    if |ds| > 0 {
      var init := ds[..|ds| - 1];
      AllZeroValue(init);
      assert forall k :: 0 <= k < |init| ==> init[k] == ds[k];
    }
  }

  /** The clean-up of lines 333-336: trims leading zeros and then makes a zero
      product positive, whatever the operand signs were. */
  function Finish(raw: BcNum): (r: BcNum)
    requires raw.Valid()
    ensures r.Valid() && r.scale == raw.scale && r.len <= raw.len && r.LeadingTrimmed()
    ensures r.Magnitude() == raw.Magnitude()
    ensures r.sign == Plus <==> raw.sign == Plus || r.Magnitude() == 0
  {
    var trimmed := RmLeadingZeros(raw);
    if IsZero(trimmed) then trimmed.(sign := Plus) else trimmed
  }

  /** What bc_multiply promises about `prod` for operands `n1`, `n2` and a
      requested scale: the product scale, the exact product of the magnitudes
      truncated to that scale, a positive sign exactly when the operand signs
      agree or the result is zero, at most n1.len + n2.len integer digits and no
      superfluous leading zero. */
  ghost predicate IsProduct(n1: BcNum, n2: BcNum, scale: nat, prod: BcNum)
    requires n1.Valid() && n2.Valid()
  {
    var ps := ProdScale(n1.scale, n2.scale, scale);
    && prod.Valid()
    && prod.LeadingTrimmed()
    && prod.scale == ps
    && prod.Magnitude() == n1.Magnitude() * n2.Magnitude() / Pow10(n1.scale + n2.scale - ps)
    && (prod.sign == Plus <==> n1.sign == n2.sign || prod.Magnitude() == 0)
    && prod.len <= n1.len + n2.len
  }

  /** bc_multiply: both operands fitting one chunk take bc_fast_mul, any other
      pair bc_standard_mul; the raw product is assembled and cleaned up. */
  method Multiply(n1: BcNum, n2: BcNum, scale: nat) returns (prod: BcNum)
    requires n1.Valid() && n2.Valid()
    ensures IsProduct(n1, n2, scale, prod)
  {
    var len1 := n1.len + n1.scale;
    var len2 := n2.len + n2.scale;
    var buf;
    if len1 <= W && len2 <= W {
      buf := FastMul(n1.value, len1, n2.value, len2);
    } else {
      buf := StandardMul(n1.value, len1, n2.value, len2);
    }
    prod := Finish(Assemble(n1, n2, scale, buf));
  }

  /** The observable parts of two bc_nums agree: sign, both digit counts and the
      digits in use. */
  ghost predicate SameNumber(a: BcNum, b: BcNum)
    requires a.Valid() && b.Valid()
  {
    a.sign == b.sign && a.len == b.len && a.scale == b.scale && a.Digits() == b.Digits()
  }

  /** A trimmed number is fixed by its scale and magnitude: its integer-digit
      count and its digits follow. */
  lemma TrimmedUnique(a: BcNum, b: BcNum)
    requires a.Valid() && b.Valid() && a.LeadingTrimmed() && b.LeadingTrimmed()
    requires a.scale == b.scale && a.Magnitude() == b.Magnitude()
    ensures a.len == b.len && a.Digits() == b.Digits()
  {
    if a.len < b.len {
      TrimmedTooLong(a, b);
    } else if b.len < a.len {
      TrimmedTooLong(b, a);
    }
    DigitsValueInjective(a.Digits(), b.Digits());
  }

  /** A trimmed number with more integer digits is worth more. */
  lemma TrimmedTooLong(a: BcNum, b: BcNum)
    requires a.Valid() && b.Valid() && b.LeadingTrimmed()
    requires a.scale == b.scale && a.len < b.len
    ensures a.Magnitude() < b.Magnitude()
  {
    var ds := b.Digits();
    var rest := ds[1..];
    assert ds == [ds[0]] + rest;
    DigitsValueCons(ds[0], rest);
    MulMono(1, ds[0], Pow10(|rest|));
    DigitsValueBound(a.Digits());
    Pow10Mono(a.len + a.scale, |rest|);
  }

  /** bc_multiply's result is determined: two results meeting its promise for
      the same operands are the same number. */
  lemma ProductUnique(n1: BcNum, n2: BcNum, scale: nat, p: BcNum, q: BcNum)
    requires n1.Valid() && n2.Valid()
    requires IsProduct(n1, n2, scale, p) && IsProduct(n1, n2, scale, q)
    ensures SameNumber(p, q)
  {
    TrimmedUnique(p, q);
  }

  /** Multiplication is commutative: the result for (n2, n1) is the same
      number as the result for (n1, n2). */
  lemma MultiplyCommutes(n1: BcNum, n2: BcNum, scale: nat, p: BcNum, q: BcNum)
    requires n1.Valid() && n2.Valid()
    requires IsProduct(n1, n2, scale, p) && IsProduct(n2, n1, scale, q)
    ensures SameNumber(p, q)
  {
    assert n1.Magnitude() * n2.Magnitude() == n2.Magnitude() * n1.Magnitude();
    assert ProdScale(n1.scale, n2.scale, scale) == ProdScale(n2.scale, n1.scale, scale);
    TrimmedUnique(p, q);
  }
}
