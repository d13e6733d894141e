/**
  * Powers of two, shifts, and fixed-width big-endian numerals: a sequence of
  * `width`-bit digits read as one number. Bit regrouping is specified in these terms.
  */
module Numerals {
  /** A 5-bit data word. */
  type word = n: nat | n < 32

  function Pow2(n: nat): (p: nat)
    ensures p > 0
  {
    if n == 0 then 1 else 2 * Pow2(n - 1)
  }

  lemma {:induction false} Pow2Add(m: nat, n: nat)
    ensures Pow2(m + n) == Pow2(m) * Pow2(n)
  {
    if n == 0 {
      assert Pow2(m) * Pow2(0) == Pow2(m);
    } else {
      Pow2Add(m, n - 1);
      assert Pow2(m + n) == 2 * Pow2(m + (n - 1));
      assert Pow2(m) * (2 * Pow2(n - 1)) == 2 * (Pow2(m) * Pow2(n - 1));
    }
  }

  lemma MulMono(a: int, b: int, c: int)
    requires a <= b && c >= 0
    ensures a * c <= b * c
  {
  }

  lemma MulSucc(a: int, c: int)
    ensures (a + 1) * c == a * c + c
  {
  }

  lemma MulSplit(q: int, p: int, r: int, f: int)
    ensures (q * p + r) * f == q * (p * f) + r * f
  {
    assert (q * p + r) * f == (q * p) * f + r * f;
  }

  /** `v` shifted right by `n` bits, rounding toward minus infinity. */
  function Shr(v: int, n: nat): (q: int)
    ensures v >= 0 ==> q >= 0
    decreases n
  {
    if n == 0 then v else Shr(v / 2, n - 1)
  }

  /** The `n` low-order bits of `v` in two's complement. */
  function Low(v: int, n: nat): (r: nat)
    ensures r < Pow2(n)
    decreases n
  {
    if n == 0 then 0 else 2 * Low(v / 2, n - 1) + v % 2
  }

  lemma {:induction false} ShrLow(v: int, n: nat)
    ensures v == Shr(v, n) * Pow2(n) + Low(v, n)
    decreases n
  {
    if n == 0 {
    } else {
      ShrLow(v / 2, n - 1);
      var q, p := Shr(v, n), Pow2(n - 1);
      assert q * (2 * p) == 2 * (q * p);
    }
  }

  lemma QuotientUnique(d: nat, q: int, r: nat, q': int, r': nat)
    requires r < d && r' < d && q * d + r == q' * d + r'
    ensures q == q' && r == r'
  {
    if q < q' {
      MulMono(q + 1, q', d);
      MulSucc(q, d);
    } else if q' < q {
      MulMono(q' + 1, q, d);
      MulSucc(q', d);
    }
  }

  /** Quotient and remainder by a power of two are the shift and the low bits. */
  lemma ShrUnique(v: int, n: nat, q: int, r: nat)
    requires r < Pow2(n) && v == q * Pow2(n) + r
    ensures Shr(v, n) == q && Low(v, n) == r
  {
    ShrLow(v, n);
    QuotientUnique(Pow2(n), q, r, Shr(v, n), Low(v, n));
  }

  lemma {:induction false} ShrShr(v: int, m: nat, n: nat)
    ensures Shr(v, m + n) == Shr(Shr(v, m), n)
    decreases m
  {
    if m > 0 {
      ShrShr(v / 2, m - 1, n);
    }
  }

  /** Every digit fits in `width` bits. */
  predicate Fits(digits: seq<nat>, width: nat) {
    forall i :: 0 <= i < |digits| ==> digits[i] < Pow2(width)
  }

  /** The number that a big-endian numeral denotes. */
  function Val(digits: seq<nat>, width: nat): nat {
    if digits == [] then 0
    else Val(digits[..|digits| - 1], width) * Pow2(width) + digits[|digits| - 1]
  }

  /** The `count` low-order digits of `v`, most significant first. */
  function Digits(v: nat, width: nat, count: nat): (ds: seq<nat>)
    ensures |ds| == count
    ensures Fits(ds, width)
    decreases count
  {
    if count == 0 then [] else Digits(Shr(v, width), width, count - 1) + [Low(v, width)]
  }

  lemma ValSnoc(ds: seq<nat>, d: nat, width: nat)
    ensures Val(ds + [d], width) == Val(ds, width) * Pow2(width) + d
  {
    assert (ds + [d])[..|ds|] == ds;
  }

  lemma {:induction false} ValBound(ds: seq<nat>, width: nat)
    requires Fits(ds, width)
    ensures Val(ds, width) < Pow2(width * |ds|)
  {
    if ds == [] {
    } else {
      var k := |ds| - 1;
      var v := Val(ds[..k], width);
      ValBound(ds[..k], width);
      assert width * |ds| == width * k + width;
      Pow2Add(width * k, width);
      MulMono(v + 1, Pow2(width * k), Pow2(width));
      MulSucc(v, Pow2(width));
    }
  }

  /** Reading back the digits of a number that fits gives the number. */
  lemma {:induction false} ValOfDigits(v: nat, width: nat, count: nat)
    requires v < Pow2(width * count)
    ensures Val(Digits(v, width, count), width) == v
    decreases count
  {
    if count == 0 {
    } else {
      assert width * count == width * (count - 1) + width;
      Pow2Add(width * (count - 1), width);
      ShrLow(v, width);
      if Shr(v, width) >= Pow2(width * (count - 1)) {
        MulMono(Pow2(width * (count - 1)), Shr(v, width), Pow2(width));
      }
      ValOfDigits(Shr(v, width), width, count - 1);
      ValSnoc(Digits(Shr(v, width), width, count - 1), Low(v, width), width);
    }
  }

  /** A numeral of fitting digits is recovered from its value and its length. */
  lemma {:induction false} DigitsOfVal(ds: seq<nat>, width: nat)
    requires Fits(ds, width)
    ensures Digits(Val(ds, width), width, |ds|) == ds
  {
    if ds == [] {
    } else {
      var k := |ds| - 1;
      ShrUnique(Val(ds, width), width, Val(ds[..k], width), ds[k]);
      DigitsOfVal(ds[..k], width);
      assert ds == ds[..k] + [ds[k]];
    }
  }
}
