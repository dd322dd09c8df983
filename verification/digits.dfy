/** The decimal digit buffer of a bc_num (`n_value`): one digit value 0..9 per
    byte, most significant digit first. `DigitsValue` is the number a run of
    digits denotes and `ToDigits` the fixed-width decimal expansion of a number;
    they are the reference both multiplication paths are held to. */
module Digits {
  import opened Words

  /** A BCD digit as stored in `n_value` (a value, not an ASCII character). */
  type Digit = d: int | 0 <= d < 10

  function Pow10(n: nat): (r: nat)
    ensures r >= 1
  {
    if n == 0 then 1 else 10 * Pow10(n - 1)
  }

  /** The value of a digit run, most significant digit first. */
  function DigitsValue(ds: seq<Digit>): nat
  {
    if |ds| == 0 then 0 else DigitsValue(ds[..|ds| - 1]) * 10 + ds[|ds| - 1]
  }

  /** A run of n digits is worth less than 10^n. */
  lemma {:induction false} DigitsValueBound(ds: seq<Digit>)
    ensures DigitsValue(ds) < Pow10(|ds|)
  {
    if |ds| > 0 {
      DigitsValueBound(ds[..|ds| - 1]);
    }
  }

  /** The last `k` decimal digits of `v`, most significant first, padded with
      leading zeros. */
  function ToDigits(v: nat, k: nat): (ds: seq<Digit>)
    ensures |ds| == k
  {
    if k == 0 then [] else ToDigits(v / 10, k - 1) + [v % 10]
  }

  lemma {:induction false} Pow10Add(a: nat, b: nat)
    ensures Pow10(a + b) == Pow10(a) * Pow10(b)
  {
    if b > 0 {
      Pow10Add(a, b - 1);
      assert Pow10(a + b) == 10 * Pow10(a + b - 1);
    }
  }

  /** The powers of ten the 64-bit configuration uses. */
  lemma Pow10Values()
    ensures Pow10(0) == 1 && Pow10(1) == 10 && Pow10(2) == 100 && Pow10(3) == 1000
    ensures Pow10(4) == 10000 && Pow10(5) == 100000 && Pow10(6) == 1000000
    ensures Pow10(7) == 10_000_000
    ensures Pow10(W) == ChunkBase as int
  {
    assert Pow10(1) == 10;
    assert Pow10(2) == 100;
    assert Pow10(3) == 1000;
    assert Pow10(4) == 10000;
    assert Pow10(5) == 100000;
    assert Pow10(6) == 1000000;
    assert Pow10(7) == 10_000_000;
  }

  lemma {:induction false} Pow10Mono(a: nat, b: nat)
    requires a <= b
    ensures Pow10(a) <= Pow10(b)
  {
    if a < b {
      Pow10Mono(a, b - 1);
    }
  }

  /** An a-digit number times a b-digit number has at most a + b digits. */
  lemma Pow10MulBound(x: nat, y: nat, a: nat, b: nat)
    requires x < Pow10(a) && y < Pow10(b)
    ensures x * y < Pow10(a + b)
  {
    MulStrictBound(x, y, Pow10(a), Pow10(b));
    Pow10Add(a, b);
  }

  /** Concatenating digit runs shifts the left run by the width of the right one. */
  lemma {:induction false} DigitsValueAppend(a: seq<Digit>, b: seq<Digit>)
    ensures DigitsValue(a + b) == DigitsValue(a) * Pow10(|b|) + DigitsValue(b)
  {
    if |b| == 0 {
      assert a + b == a;
    } else {
      var b' := b[..|b| - 1];
      assert (a + b)[..|a + b| - 1] == a + b';
      DigitsValueAppend(a, b');
      var x, p, y, d := DigitsValue(a), Pow10(|b'|), DigitsValue(b'), b[|b| - 1];
      assert DigitsValue(a + b) == (x * p + y) * 10 + d;
      ShiftOneDigit(x, p, y, d);
      assert DigitsValue(b) == y * 10 + d;
    }
  }

  lemma ShiftOneDigit(x: int, p: int, y: int, d: int)
    ensures (x * p + y) * 10 + d == x * (10 * p) + (y * 10 + d)
  {
  }

  /** Appending a digit shifts the run by one place. */
  lemma DigitsValueSnoc(ds: seq<Digit>, d: Digit, full: seq<Digit>)
    requires full == ds + [d]
    ensures DigitsValue(full) == DigitsValue(ds) * 10 + d
  {
    assert full[..|ds|] == ds;
  }

  /** A leading digit contributes its value times the weight of its position. */
  lemma DigitsValueCons(d: Digit, ds: seq<Digit>)
    ensures DigitsValue([d] + ds) == d * Pow10(|ds|) + DigitsValue(ds)
  {
    DigitsValueAppend([d], ds);
    assert DigitsValue([d]) == d by {
      assert [d][..0] == [];
    }
  }

  /** Leading zeros do not change the value. */
  lemma LeadingZero(ds: seq<Digit>)
    ensures DigitsValue([0] + ds) == DigitsValue(ds)
  {
    DigitsValueCons(0, ds);
  }

  /** Dropping the last `|b|` digits divides the value by 10^|b| (truncation). */
  lemma DigitsValuePrefix(a: seq<Digit>, b: seq<Digit>)
    ensures DigitsValue(a) == DigitsValue(a + b) / Pow10(|b|)
  {
    DigitsValueAppend(a, b);
    DigitsValueBound(b);
    DivMulAdd(DigitsValue(a), Pow10(|b|), DigitsValue(b));
  }

  /** Encoding then decoding a number that fits in `k` digits gives it back. */
  lemma {:induction false} ToDigitsValue(v: nat, k: nat)
    requires v < Pow10(k)
    ensures DigitsValue(ToDigits(v, k)) == v
  {
    if k > 0 {
      ToDigitsValue(v / 10, k - 1);
      var ds := ToDigits(v, k);
      assert ds[..|ds| - 1] == ToDigits(v / 10, k - 1);
    }
  }

  /** Decoding then encoding at the run's own width gives the run back. */
  lemma {:induction false} ToDigitsOfValue(ds: seq<Digit>)
    ensures ToDigits(DigitsValue(ds), |ds|) == ds
  {
    if |ds| > 0 {
      var init := ds[..|ds| - 1];
      ToDigitsOfValue(init);
      var v := DigitsValue(ds);
      assert v / 10 == DigitsValue(init) && v % 10 == ds[|ds| - 1];
      assert ds == init + [ds[|ds| - 1]];
    }
  }

  /** Runs of equal width are equal exactly when their values are. */
  lemma DigitsValueInjective(a: seq<Digit>, b: seq<Digit>)
    requires |a| == |b|
    ensures a == b <==> DigitsValue(a) == DigitsValue(b)
  {
    if DigitsValue(a) == DigitsValue(b) {
      ToDigitsOfValue(a);
      ToDigitsOfValue(b);
    }
  }

  /** A value and a width determine the unique run of that width. */
  lemma ToDigitsUnique(ds: seq<Digit>, v: nat)
    requires DigitsValue(ds) == v
    ensures ds == ToDigits(v, |ds|)
  {
    ToDigitsOfValue(ds);
  }
}
