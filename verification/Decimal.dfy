/**
  * Decimal text of integers: what `toString`, `BigInt`, `padStart`, `padEnd` and the
  * zero-trimming patterns of amounts.ts do to strings of digits.
  */
module Decimal {
  import opened Wrappers

  function Pow10(n: nat): (p: nat)
    ensures p > 0
  {
    if n == 0 then 1 else 10 * Pow10(n - 1)
  }

  predicate IsDigit(c: char) { '0' <= c <= '9' }

  predicate IsDigits(s: string) {
    forall i :: 0 <= i < |s| ==> IsDigit(s[i])
  }

  function DigitChar(n: nat): char
    requires n < 10
  {
    ('0' as int + n) as char
  }

  function DigitOf(c: char): (d: nat)
    requires IsDigit(c)
    ensures d < 10
  {
    c as int - '0' as int
  }

  /** The number that a string of digits denotes; 0 for the empty string. */
  function Value(s: string): nat
    requires IsDigits(s)
  {
    if s == [] then 0 else 10 * Value(s[..|s| - 1]) + DigitOf(s[|s| - 1])
  }

  /** The `k` low-order decimal digits of `n`. */
  function Fixed(n: nat, k: nat): (s: string)
    ensures |s| == k && IsDigits(s)
  {
    if k == 0 then "" else Fixed(n / 10, k - 1) + [DigitChar(n % 10)]
  }

  /** `toString` of a natural number. */
  function PrintNat(n: nat): (s: string)
    ensures |s| > 0 && IsDigits(s)
  {
    if n < 10 then [DigitChar(n)] else PrintNat(n / 10) + [DigitChar(n % 10)]
  }

  function Print(n: int): string {
    if n < 0 then "-" + PrintNat(-n) else PrintNat(n)
  }

  /** `BigInt` of decimal text; None is its thrown error. */
  function Parse(s: string): Option<int> {
    if s != [] && s[0] == '-' then
      if |s| > 1 && IsDigits(s[1..]) then Some(0 - Value(s[1..])) else None
    else if s != [] && IsDigits(s) then Some(Value(s) as int)
    else None
  }

  function Zeros(k: nat): (s: string)
    ensures |s| == k && IsDigits(s)
  {
    seq(k, _ => '0')
  }

  function PadStart(s: string, k: nat): string { if |s| >= k then s else Zeros(k - |s|) + s }

  function PadEnd(s: string, k: nat): (t: string)
    ensures IsDigits(s) ==> IsDigits(t)
  {
    if |s| >= k then s else s + Zeros(k - |s|)
  }

  /** Without its trailing zeros. */
  function TrimEndZeros(s: string): (t: string)
    ensures t <= s
    ensures t == [] || t[|t| - 1] != '0'
  {
    if s != [] && s[|s| - 1] == '0' then TrimEndZeros(s[..|s| - 1]) else s
  }

  /** Without its leading zeros, but with at least one digit. */
  function TrimStartZeros(s: string): string {
    if |s| > 1 && s[0] == '0' then TrimStartZeros(s[1..]) else s
  }

  lemma ValueSnoc(s: string, c: char)
    requires IsDigits(s) && IsDigit(c)
    ensures IsDigits(s + [c]) && Value(s + [c]) == 10 * Value(s) + DigitOf(c)
  {
    assert (s + [c])[..|s|] == s;
  }

  lemma {:induction false} ValueConcat(s: string, t: string)
    requires IsDigits(s) && IsDigits(t)
    ensures IsDigits(s + t) && Value(s + t) == Value(s) * Pow10(|t|) + Value(t)
  {
    if t == [] {
      assert s + t == s;
    } else {
      var k := |t| - 1;
      ValueConcat(s, t[..k]);
      ValueSnoc(s + t[..k], t[k]);
      assert s + t == s + t[..k] + [t[k]];
      ConcatStep(Value(s), Pow10(k), Value(t[..k]), DigitOf(t[k]));
    }
  }

  lemma ConcatStep(v: nat, p: nat, w: nat, d: nat)
    ensures 10 * (v * p + w) + d == v * (10 * p) + (10 * w + d)
  {
  }

  lemma {:induction false} ValueBound(s: string)
    requires IsDigits(s)
    ensures Value(s) < Pow10(|s|)
  {
    if s != [] {
      ValueBound(s[..|s| - 1]);
    }
  }

  lemma {:induction false} ValueOfZeros(k: nat)
    ensures Value(Zeros(k)) == 0
  {
    if k > 0 {
      ValueOfZeros(k - 1);
      assert Zeros(k)[..k - 1] == Zeros(k - 1);
    }
  }

  lemma {:induction false} ValueOfFixed(n: nat, k: nat)
    requires n < Pow10(k)
    ensures Value(Fixed(n, k)) == n
  {
    if k > 0 {
      ValueOfFixed(n / 10, k - 1);
      ValueSnoc(Fixed(n / 10, k - 1), DigitChar(n % 10));
    }
  }

  lemma {:induction false} FixedOfValue(s: string)
    requires IsDigits(s)
    ensures Fixed(Value(s), |s|) == s
  {
    if s != [] {
      var k := |s| - 1;
      FixedOfValue(s[..k]);
      assert Value(s) / 10 == Value(s[..k]) && Value(s) % 10 == DigitOf(s[k]);
      assert s == s[..k] + [s[k]];
    }
  }

  lemma {:induction false} ValueOfPrint(n: nat)
    ensures Value(PrintNat(n)) == n
  {
    if n < 10 {
      ValueSnoc("", DigitChar(n));
      assert "" + [DigitChar(n)] == [DigitChar(n)];
    } else {
      ValueOfPrint(n / 10);
      ValueSnoc(PrintNat(n / 10), DigitChar(n % 10));
    }
  }

  lemma ParseDigits(s: string)
    requires s != [] && IsDigits(s)
    ensures Parse(s) == Some(Value(s) as int)
    ensures Parse("-" + s) == Some(0 - Value(s))
  {
    hide Value;
    assert IsDigit(s[0]);
    assert ("-" + s)[1..] == s;
  }

  /** Reading back what was printed, of either sign. */
  lemma ParseOfPrint(n: int)
    ensures Parse(Print(n)) == Some(n)
  {
    hide Value, Parse, PrintNat;
    var m := if n < 0 then -n else n;
    ValueOfPrint(m);
    ParseDigits(PrintNat(m));
  }

  lemma PrintInjective(m: int, n: int)
    requires Print(m) == Print(n)
    ensures m == n
  {
    ParseOfPrint(m);
    ParseOfPrint(n);
  }

  lemma {:induction false} PrintHead(n: nat)
    ensures PrintNat(n)[0] == '0' ==> n == 0
    ensures n > 0 ==> PrintNat(n)[0] != '0'
  {
    if n >= 10 {
      PrintHead(n / 10);
    }
  }

  /** Padding printed text to a width it fits is writing that many digits. */
  lemma {:induction false} PadStartIsFixed(n: nat, k: nat)
    requires n < Pow10(k) && k > 0
    ensures |PrintNat(n)| <= k && PadStart(PrintNat(n), k) == Fixed(n, k)
  {
    if k == 1 {
      assert Fixed(n / 10, 0) == "";
      assert Pow10(1) == 10 * Pow10(0);
    } else if n < 10 {
      PadStartIsFixed(0, k - 1);
      assert Fixed(n / 10, k - 1) == PadStart(PrintNat(0), k - 1);
      assert Zeros(k - 2) + ['0'] == Zeros(k - 1);
    } else {
      PadStartIsFixed(n / 10, k - 1);
      var s := PrintNat(n / 10);
      assert Zeros(k - 1 - |s|) + s + [DigitChar(n % 10)] == Zeros(k - (|s| + 1)) + (s + [DigitChar(n % 10)]);
    }
  }

  lemma PadOneMore(t: string, k: nat)
    requires |t| <= k
    ensures PadEnd(t, k + 1) == PadEnd(t, k) + ['0']
  {
    assert Zeros(k + 1 - |t|) == Zeros(k - |t|) + ['0'];
    assert t + Zeros(k + 1 - |t|) == (t + Zeros(k - |t|)) + ['0'];
    if |t| == k { assert t + Zeros(0) == t; }
  }

  lemma {:induction false} PadAfterTrim(s: string)
    requires IsDigits(s)
    ensures PadEnd(TrimEndZeros(s), |s|) == s
  {
    hide PadEnd, Zeros;
    if s != [] && s[|s| - 1] == '0' {
      var k := |s| - 1;
      PadAfterTrim(s[..k]);
      PadOneMore(TrimEndZeros(s[..k]), k);
      assert s == s[..k] + ['0'];
    } else {
      PadFull(s);
    }
  }

  lemma PadFull(s: string)
    ensures PadEnd(s, |s|) == s
  {
  }

  lemma PadLength(s: string, k: nat)
    requires |s| <= k
    ensures |PadEnd(s, k)| == k
  {
  }

  lemma {:induction false} TrimAfterPad(s: string, k: nat)
    requires |s| <= k
    ensures TrimEndZeros(PadEnd(s, k)) == TrimEndZeros(s)
    decreases k
  {
    hide PadEnd, Zeros;
    if |s| < k {
      TrimAfterPad(s, k - 1);
      PadOneMore(s, k - 1);
      PadLength(s, k - 1);
      assert (PadEnd(s, k - 1) + ['0'])[..k - 1] == PadEnd(s, k - 1);
    } else {
      PadFull(s);
    }
  }

  lemma {:induction false} ValueOfPadded(s: string, k: nat)
    requires IsDigits(s) && |s| <= k
    ensures IsDigits(PadEnd(s, k)) && |PadEnd(s, k)| == k && Value(PadEnd(s, k)) == Value(s) * Pow10(k - |s|)
  {
    if |s| < k {
      ValueConcat(s, Zeros(k - |s|));
      ValueOfZeros(k - |s|);
    } else {
      assert Value(s) * Pow10(0) == Value(s);
    }
  }

  /** Printing the value of digits is dropping their leading zeros. */
  lemma {:induction false} PrintOfValue(s: string)
    requires IsDigits(s) && s != []
    ensures PrintNat(Value(s)) == TrimStartZeros(s)
    decreases |s|
  {
    if |s| > 1 && s[0] == '0' {
      LeadingZero(s);
      PrintOfValue(s[1..]);
    } else {
      PrintOfCanonical(s);
    }
  }

  lemma LeadingZero(s: string)
    requires IsDigits(s) && s != [] && s[0] == '0'
    ensures Value(s) == Value(s[1..])
  {
    ValueConcat(s[..1], s[1..]);
    assert s == s[..1] + s[1..];
    ValueOfZeros(1);
    assert s[..1] == Zeros(1);
  }

  lemma {:induction false} PrintOfCanonical(s: string)
    requires IsDigits(s) && s != [] && (|s| == 1 || s[0] != '0')
    ensures PrintNat(Value(s)) == s
  {
    var k := |s| - 1;
    assert s == s[..k] + [s[k]];
    if k == 0 {
      assert s[..0] == "";
    } else {
      PrintOfCanonical(s[..k]);
      Positive(s[..k]);
      assert Value(s) / 10 == Value(s[..k]) && Value(s) % 10 == DigitOf(s[k]);
    }
  }

  lemma {:induction false} Positive(s: string)
    requires IsDigits(s) && s != [] && s[0] != '0'
    ensures Value(s) > 0
  {
    var k := |s| - 1;
    if k > 0 {
      Positive(s[..k]);
    }
  }
}
