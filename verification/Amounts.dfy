/**
  * Exact decimal amounts: the parsers and the printer of amounts.ts.
  */
module Amounts {
  import opened Wrappers
  import opened Decimal
  import Ascii

  const GRAIN_PER_PRL: nat := 100_000_000
  const PRL_DECIMALS: nat := 8
  const MAX_GRAIN: nat := 21_000_000_000 * GRAIN_PER_PRL

  datatype AmountError = InvalidAmount | TooManyDecimals | Negative | ExceedsSupply

  datatype Unit = MegaPrl | KiloPrl | Prl | MilliPrl | MicroPrl | Grain

  function UnitInGrain(unit: Unit): nat {
    match unit
    case MegaPrl => GRAIN_PER_PRL * 1_000_000
    case KiloPrl => GRAIN_PER_PRL * 1_000
    case Prl => GRAIN_PER_PRL
    case MilliPrl => GRAIN_PER_PRL / 1_000
    case MicroPrl => GRAIN_PER_PRL / 1_000_000
    case Grain => 1
  }

  /** The groups of `^(-?)(\\d+)(?:\\.(\\d+))?$`; a missing fraction is empty. */
  datatype Groups = Groups(negative: bool, whole: string, frac: string)

  predicate ValidGroups(g: Groups) {
    IsDigits(g.whole) && IsDigits(g.frac) && g.whole != []
  }

  /** The length of the leading run of digits. */
  function DigitRun(s: string): (k: nat)
    ensures k <= |s| && IsDigits(s[..k])
    ensures k < |s| ==> !IsDigit(s[k])
  {
    if s == [] || !IsDigit(s[0]) then 0
    else
      var k := DigitRun(s[1..]);
      assert s[..k + 1] == [s[0]] + s[1..][..k];
      k + 1
  }

  function MatchUnsigned(negative: bool, s: string): (r: Option<Groups>)
    ensures r.Some? ==> ValidGroups(r.value)
  {
    var k := DigitRun(s);
    if k == 0 then None
    else if k == |s| then Some(Groups(negative, s, ""))
    else
      var frac := s[k + 1..];
      if s[k] == '.' && frac != [] && IsDigits(frac) then Some(Groups(negative, s[..k], frac)) else None
  }

  function MatchDecimal(s: string): (r: Option<Groups>)
    ensures r.Some? ==> ValidGroups(r.value)
  {
    if s != [] && s[0] == '-' then MatchUnsigned(true, s[1..]) else MatchUnsigned(false, s)
  }

  /** `assertValidGrain`. */
  function CheckGrain(grain: int): Result<int, AmountError> {
    if grain < 0 then Err(Negative) else if grain > MAX_GRAIN then Err(ExceedsSupply) else Ok(grain)
  }

  function CheckSigned(negative: bool, magnitude: nat): Result<int, AmountError> {
    CheckGrain(if negative then 0 - magnitude else magnitude)
  }

  function PrlToGrain(prl: string): Result<int, AmountError> {
    match MatchDecimal(Ascii.Trim(prl))
    case None => Err(InvalidAmount)
    case Some(g) =>
      if |g.frac| > PRL_DECIMALS then Err(TooManyDecimals)
      else
        var fracPadded := PadEnd(g.frac, PRL_DECIMALS);
        CheckSigned(g.negative, Value(g.whole) * GRAIN_PER_PRL + Value(fracPadded))
  }

  function GrainToPrl(grain: int, trimTrailingZeros: bool): string {
    var abs := if grain < 0 then -grain else grain;
    var fixed := PadStart(PrintNat(abs % GRAIN_PER_PRL), PRL_DECIMALS);
    var fracStr := if trimTrailingZeros then TrimEndZeros(fixed) else fixed;
    var whole := PrintNat(abs / GRAIN_PER_PRL);
    var body := if |fracStr| > 0 then whole + "." + fracStr else whole;
    if grain < 0 then "-" + body else body
  }

  /** How many times ten divides into `v`, as the loop of `decimalsForUnit` counts. */
  function Decimals(v: nat): nat {
    if v > 1 then 1 + Decimals(v / 10) else 0
  }

  method DecimalsForUnit(unitInGrain: nat) returns (n: nat)
    ensures n == Decimals(unitInGrain)
  {
    n := 0;
    var v := unitInGrain;
    while v > 1
      invariant n + Decimals(v) == Decimals(unitInGrain)
    {
      v := v / 10;
      n := n + 1;
    }
  }

  /** On powers of ten the loop computes the base-10 logarithm. */
  lemma {:induction false} DecimalsOfPower(k: nat)
    ensures Decimals(Pow10(k)) == k
  {
    if k > 0 {
      DecimalsOfPower(k - 1);
      assert Pow10(k) / 10 == Pow10(k - 1);
    }
  }

  /** Every unit of the ladder is a power of ten. */
  function UnitExponent(unit: Unit): nat {
    match unit case MegaPrl => 14 case KiloPrl => 11 case Prl => 8 case MilliPrl => 5 case MicroPrl => 2 case Grain => 0
  }

  lemma UnitIsPower(unit: Unit)
    ensures UnitInGrain(unit) == Pow10(UnitExponent(unit))
    ensures Decimals(UnitInGrain(unit)) == UnitExponent(unit)
  {
    SmallPowers();
    DecimalsOfPower(UnitExponent(unit));
  }

  lemma SmallPowers()
    ensures Pow10(0) == 1 && Pow10(2) == 100 && Pow10(5) == 100_000 && Pow10(8) == 100_000_000
    ensures Pow10(11) == 100_000_000_000 && Pow10(14) == 100_000_000_000_000
  {
    assert Pow10(5) == 100_000;
    assert Pow10(8) == 100_000_000;
    assert Pow10(11) == 100_000_000_000;
  }

  function UnitToGrain(value: string, unit: Unit): Result<int, AmountError> {
    if unit == Prl then PrlToGrain(value)
    else
      match MatchDecimal(Ascii.Trim(value))
      case None => Err(InvalidAmount)
      case Some(g) =>
        var factor := UnitInGrain(unit);
        var unitDecimals := Decimals(factor);
        if |g.frac| > unitDecimals then Err(TooManyDecimals)
        else CheckSigned(g.negative, Scaled(g, factor, unitDecimals))
  }

  function Scaled(g: Groups, factor: nat, unitDecimals: nat): nat
    requires ValidGroups(g)
  {
    Value(g.whole) * factor + ScaledFraction(PadEnd(g.frac, unitDecimals), factor, unitDecimals)
  }

  /** `BigInt(fracPadded) * (factor / 10n ** unitDecimals)`, or zero for no digits. */
  function ScaledFraction(fracPadded: string, factor: nat, unitDecimals: nat): nat
    requires IsDigits(fracPadded)
  {
    if fracPadded == [] then 0 else Value(fracPadded) * Quotient(factor, Pow10(unitDecimals))
  }

  function Quotient(a: nat, b: nat): nat
    requires b > 0
  {
    a / b
  }

  // ---------------------------------------------------------------- exactness

  /** `grain` is exactly the decimal number of `g` times ten to the `exponent`. */
  predicate Exact(g: Groups, exponent: nat, grain: int)
    requires ValidGroups(g)
  {
    var magnitude := if g.negative then -grain else grain;
    IsDigits(g.whole + g.frac) && magnitude * Pow10(|g.frac|) == Value(g.whole + g.frac) * Pow10(exponent)
  }

  lemma ExactScaling(g: Groups, exponent: nat)
    requires ValidGroups(g) && |g.frac| <= exponent
    ensures IsDigits(g.whole + g.frac)
    ensures (Value(g.whole) * Pow10(exponent) + Value(g.frac) * Pow10(exponent - |g.frac|)) * Pow10(|g.frac|)
            == Value(g.whole + g.frac) * Pow10(exponent)
  {
    var k := |g.frac|;
    ValueConcat(g.whole, g.frac);
    Pow10Add(exponent - k, k);
    ExactArithmetic(Value(g.whole), Value(g.frac), Pow10(exponent - k), Pow10(k));
  }

  lemma ExactArithmetic(w: nat, f: nat, p: nat, q: nat)
    ensures (w * (p * q) + f * p) * q == (w * q + f) * (p * q)
  {
    assert (w * q + f) * (p * q) == w * q * (p * q) + f * (p * q);
    assert (w * (p * q) + f * p) * q == w * (p * q) * q + f * p * q;
    assert w * q * (p * q) == w * (p * q) * q;
    assert f * (p * q) == f * p * q;
  }

  lemma {:induction false} Pow10Add(m: nat, n: nat)
    ensures Pow10(m + n) == Pow10(m) * Pow10(n)
  {
    if n == 0 {
      assert Pow10(m) * Pow10(0) == Pow10(m);
    } else {
      Pow10Add(m, n - 1);
      assert Pow10(m + n) == 10 * Pow10(m + (n - 1));
      assert Pow10(m) * (10 * Pow10(n - 1)) == 10 * (Pow10(m) * Pow10(n - 1));
    }
  }

  /** The magnitude both parsers compute, in the smallest unit. */
  function Magnitude(g: Groups, exponent: nat): nat
    requires ValidGroups(g) && |g.frac| <= exponent
  {
    Value(g.whole) * Pow10(exponent) + Value(g.frac) * Pow10(exponent - |g.frac|)
  }

  /** The common reading of both parsers: one number, one exponent, one range check. */
  function Reading(value: string, exponent: nat): Result<int, AmountError> {
    match MatchDecimal(Ascii.Trim(value))
    case None => Err(InvalidAmount)
    case Some(g) =>
      if |g.frac| > exponent then Err(TooManyDecimals)
      else CheckSigned(g.negative, Magnitude(g, exponent))
  }

  lemma PrlReading(value: string)
    ensures PrlToGrain(value) == Reading(value, PRL_DECIMALS)
  {
    SmallPowers();
    hide Value, Pow10, MatchDecimal, Ascii.Trim, PadEnd;
    match MatchDecimal(Ascii.Trim(value)) {
      case None =>
      case Some(g) =>
        if |g.frac| <= PRL_DECIMALS { ValueOfPadded(g.frac, PRL_DECIMALS); }
    }
  }

  lemma PaddedScale(frac: string, e: nat)
    requires IsDigits(frac) && |frac| <= e
    ensures ScaledFraction(PadEnd(frac, e), Pow10(e), e) == Value(frac) * Pow10(e - |frac|)
  {
    ValueOfPadded(frac, e);
    if e == 0 {
      assert frac == "";
    }
  }

  lemma UnitReading(value: string, unit: Unit)
    ensures UnitToGrain(value, unit) == Reading(value, UnitExponent(unit))
  {
    hide Value, Pow10, MatchDecimal, Ascii.Trim, PadEnd, Decimals, UnitExponent, UnitInGrain, PrlToGrain, ScaledFraction;
    UnitIsPower(unit);
    PrlExponent();
    if unit == Prl {
      PrlReading(value);
    } else {
      match MatchDecimal(Ascii.Trim(value)) {
        case None =>
        case Some(g) =>
          if |g.frac| <= UnitExponent(unit) { PaddedScale(g.frac, UnitExponent(unit)); }
      }
    }
  }

  lemma PrlExponent()
    ensures UnitExponent(Prl) == PRL_DECIMALS
  {
  }

  /** A parsed amount is the exact rational value of its text times the unit. */
  lemma UnitToGrainExact(value: string, unit: Unit)
    requires UnitToGrain(value, unit).Ok?
    ensures var g := MatchDecimal(Ascii.Trim(value));
            g.Some? && Exact(g.value, UnitExponent(unit), UnitToGrain(value, unit).value)
    ensures 0 <= UnitToGrain(value, unit).value <= MAX_GRAIN
  {
    hide Value, Pow10, MatchDecimal, Ascii.Trim, UnitExponent, UnitToGrain;
    UnitReading(value, unit);
    ExactScaling(MatchDecimal(Ascii.Trim(value)).value, UnitExponent(unit));
  }

  // ---------------------------------------------------------------- round trips

  lemma MatchPrinted(whole: string, frac: string, dotted: bool)
    requires IsDigits(whole) && whole != [] && IsDigits(frac) && (frac != [] <==> dotted)
    ensures
      var s := if dotted then whole + "." + frac else whole;
      MatchDecimal(s) == Some(Groups(false, whole, frac)) && Ascii.Trim(s) == s
  {
    hide Ascii.Trim, DigitRun;
    if dotted {
      MatchDotted(whole, frac);
    } else {
      MatchWhole(whole);
    }
  }

  lemma MatchWhole(s: string)
    requires IsDigits(s) && s != []
    ensures MatchDecimal(s) == Some(Groups(false, s, "")) && Ascii.Trim(s) == s
  {
    hide Ascii.Trim, DigitRun;
    assert IsDigit(s[0]) && IsDigit(s[|s| - 1]);
    Ascii.TrimKeeps(s);
    assert s[..|s|] == s;
    RunOfDigits(s, |s|);
  }

  lemma MatchDotted(whole: string, frac: string)
    requires IsDigits(whole) && whole != [] && IsDigits(frac) && frac != []
    ensures var s := whole + "." + frac;
            MatchDecimal(s) == Some(Groups(false, whole, frac)) && Ascii.Trim(s) == s
  {
    hide Ascii.Trim, DigitRun;
    var s := whole + "." + frac;
    assert IsDigit(s[0]) && IsDigit(s[|s| - 1]);
    Ascii.TrimKeeps(s);
    assert s[..|whole|] == whole && s[|whole| + 1..] == frac;
    RunOfDigits(s, |whole|);
  }

  lemma {:induction false} RunOfDigits(s: string, k: nat)
    requires k <= |s| && IsDigits(s[..k]) && (k == |s| || !IsDigit(s[k]))
    ensures DigitRun(s) == k
  {
    if k > 0 {
      assert s[0] == s[..k][0];
      assert s[1..][..k - 1] == s[..k][1..];
      RunOfDigits(s[1..], k - 1);
    }
  }

  lemma PrintedParts(grain: nat, trim: bool)
    ensures
      var frac := if trim then TrimEndZeros(Fixed(grain % GRAIN_PER_PRL, 8)) else Fixed(grain % GRAIN_PER_PRL, 8);
      GrainToPrl(grain, trim) ==
        if frac != [] then PrintNat(grain / GRAIN_PER_PRL) + "." + frac else PrintNat(grain / GRAIN_PER_PRL)
  {
    SmallPowers();
    PadStartIsFixed(grain % GRAIN_PER_PRL, 8);
  }

  lemma DividedGrain(grain: nat)
    ensures grain / GRAIN_PER_PRL * GRAIN_PER_PRL + grain % GRAIN_PER_PRL == grain && grain % GRAIN_PER_PRL < GRAIN_PER_PRL
  {
  }

  /** The printed text of a whole and a fraction matches, and its groups have their values. */
  lemma PrintedGroups(w: nat, f: nat, trim: bool)
    requires f < GRAIN_PER_PRL
    ensures
      var fixed := Fixed(f, 8);
      var frac := if trim then TrimEndZeros(fixed) else fixed;
      var text := if frac != [] then PrintNat(w) + "." + frac else PrintNat(w);
      && IsDigits(frac) && |frac| <= 8 && PadEnd(frac, 8) == fixed
      && MatchDecimal(Ascii.Trim(text)) == Some(Groups(false, PrintNat(w), frac))
      && Value(fixed) == f && Value(PrintNat(w)) == w
  {
    hide MatchDecimal, Ascii.Trim, Value, PrintNat, Fixed, TrimEndZeros, PadEnd, Pow10, IsDigits;
    var fixed := Fixed(f, 8);
    var frac := if trim then TrimEndZeros(fixed) else fixed;
    SmallPowers();
    TrimmedDigits(fixed);
    MatchPrinted(PrintNat(w), frac, frac != []);
    PadAfterTrim(fixed);
    PadFull(fixed);
    ValueOfFixed(f, 8);
    ValueOfPrint(w);
  }

  /** Printing then parsing returns the amount, with trailing zeros trimmed or not. */
  lemma ParseOfPrinted(grain: nat, trim: bool)
    requires grain <= MAX_GRAIN
    ensures PrlToGrain(GrainToPrl(grain, trim)) == Ok(grain)
  {
    hide PrlToGrain, GrainToPrl, MatchDecimal, Ascii.Trim, Value, PrintNat, Fixed, TrimEndZeros, PadEnd, IsDigits;
    var w, f := grain / GRAIN_PER_PRL, grain % GRAIN_PER_PRL;
    DividedGrain(grain);
    PrintedGroups(w, f, trim);
    PrintedParts(grain, trim);
    var fixed := Fixed(f, 8);
    AcceptsGroups(GrainToPrl(grain, trim), PrintNat(w), if trim then TrimEndZeros(fixed) else fixed, fixed);
  }

  lemma AcceptsGroups(text: string, whole: string, frac: string, padded: string)
    requires IsDigits(whole) && whole != [] && IsDigits(frac) && |frac| <= 8
    requires MatchDecimal(Ascii.Trim(text)) == Some(Groups(false, whole, frac))
    requires PadEnd(frac, 8) == padded && IsDigits(padded)
    requires Value(whole) * GRAIN_PER_PRL + Value(padded) <= MAX_GRAIN
    ensures PrlToGrain(text) == Ok(Value(whole) * GRAIN_PER_PRL + Value(padded))
  {
    hide Value, PadEnd, MatchDecimal, Ascii.Trim;
  }

  lemma TrimmedDigits(s: string)
    requires IsDigits(s)
    ensures IsDigits(TrimEndZeros(s)) && |TrimEndZeros(s)| <= |s|
  {
    var t := TrimEndZeros(s);
    assert forall i :: 0 <= i < |t| ==> t[i] == s[i];
  }

  /** The plain form of an amount: no superfluous zeros. */
  function Canonical(g: Groups): string {
    var frac := TrimEndZeros(g.frac);
    TrimStartZeros(g.whole) + if frac != [] then "." + frac else ""
  }

  /** Parsing then printing puts an accepted text into its canonical form. */
  lemma PrintOfParsed(prl: string)
    requires PrlToGrain(prl).Ok?
    ensures MatchDecimal(Ascii.Trim(prl)).Some?
    ensures GrainToPrl(PrlToGrain(prl).value, true) == Canonical(MatchDecimal(Ascii.Trim(prl)).value)
  {
    hide PrlToGrain, GrainToPrl, MatchDecimal, Ascii.Trim, Value, PrintNat, Fixed, TrimEndZeros, TrimStartZeros, PadEnd, IsDigits;
    AcceptedParts(prl);
    PrintedParts(PrlToGrain(prl).value, true);
    PaddedParts(MatchDecimal(Ascii.Trim(prl)).value);
  }

  /** The padded fraction is a fraction of a unit, and printing its digits trims what was padded. */
  lemma PaddedParts(g: Groups)
    requires ValidGroups(g) && |g.frac| <= 8
    ensures
      var padded := PadEnd(g.frac, 8);
      && IsDigits(padded) && Value(padded) < GRAIN_PER_PRL
      && TrimEndZeros(Fixed(Value(padded), 8)) == TrimEndZeros(g.frac)
      && PrintNat(Value(g.whole)) == TrimStartZeros(g.whole)
  {
    hide Value, PrintNat, Fixed, TrimEndZeros, TrimStartZeros, PadEnd, Pow10, IsDigits;
    var padded := PadEnd(g.frac, 8);
    SmallPowers();
    ValueOfPadded(g.frac, 8);
    ValueBound(padded);
    FixedOfValue(padded);
    TrimAfterPad(g.frac, 8);
    PrintOfValue(g.whole);
  }

  lemma AcceptedParts(prl: string)
    requires PrlToGrain(prl).Ok?
    ensures
      MatchDecimal(Ascii.Trim(prl)).Some?
      && var g := MatchDecimal(Ascii.Trim(prl)).value;
      var grain := PrlToGrain(prl).value;
      IsDigits(PadEnd(g.frac, 8)) && grain >= 0 && |g.frac| <= 8
      && (Value(PadEnd(g.frac, 8)) < GRAIN_PER_PRL ==>
            grain / GRAIN_PER_PRL == Value(g.whole) && grain % GRAIN_PER_PRL == Value(PadEnd(g.frac, 8)))
  {
    ValueOfPadded(MatchDecimal(Ascii.Trim(prl)).value.frac, 8);
  }
}
