/**
  * The shift-and-tap register is polynomial division: one step of the decoder's loop is a
  * multiplication by x modulo the generator of BIP-173, plus the word.
  */
module Division {
  import opened Numerals
  import opened Ascii
  import opened Bech32m
  import opened Checksum
  import Bip350

  /** The six coefficients side by side, as the register holds them. */
  function Pack(p: Bip350.Poly): bv32 {
    Append(Append(Append(Append(Append(p.c5, p.c4), p.c3), p.c2), p.c1), p.c0)
  }

  lemma TimesZero(b: bv32)
    ensures Bip350.Times(0, b) == 0
  {
  }

  lemma PackZero()
    ensures Pack(Bip350.Poly(0, 0, 0, 0, 0, 0)) == 0
  {
  }

  lemma NoTopBit(i: nat)
    requires i < 5
    ensures !TopBit(0, i)
  {
  }

  lemma ZeroTaps()
    ensures Tapped(0, 0, 5) == Pack(Bip350.Carry(0))
  {
    hide TopBit, Pack, Bip350.Times, Xor;
    NoTopBit(0);
    NoTopBit(1);
    NoTopBit(2);
    NoTopBit(3);
    NoTopBit(4);
    PackZero();
    TimesZero(29);
    TimesZero(22);
    TimesZero(20);
    TimesZero(21);
    TimesZero(18);
  }

  lemma LowTaps(t: bv32)
    requires 1 <= t < 16
    ensures Tapped(0, t, 5) == Pack(Bip350.Carry(t))
  {
  }

  lemma HighTaps(t: bv32)
    requires 16 <= t < 32
    ensures Tapped(0, t, 5) == Pack(Bip350.Carry(t))
  {
  }

  /** The five conditional taps are the multiple of the generator that the top word calls for. */
  lemma TapsAreCarry(t: bv32)
    requires t < 32
    ensures Tapped(0, t, 5) == Pack(Bip350.Carry(t))
  {
    hide Tapped, Pack, Bip350.Carry;
    if t == 0 { ZeroTaps(); } else if t < 16 { LowTaps(t); } else { HighTaps(t); }
  }

  lemma AppendPlus(d: bv32, e: bv32, v: bv32, w: bv32)
    ensures Append(Xor(d, e), Bip350.Sum(v, w)) == Xor(Append(d, v), Append(e, w))
  {
  }

  lemma SumIsXor(a: bv32, b: bv32)
    ensures Bip350.Sum(a, b) == Xor(a, b)
  {
  }

  lemma PackPlus(p: Bip350.Poly, q: Bip350.Poly)
    ensures Pack(Bip350.Plus(p, q)) == Xor(Pack(p), Pack(q))
  {
    hide Append, Xor, Bip350.Sum;
    SumIsXor(p.c5, q.c5);
    var p4, q4 := Append(p.c5, p.c4), Append(q.c5, q.c4);
    var p3, q3 := Append(p4, p.c3), Append(q4, q.c3);
    var p2, q2 := Append(p3, p.c2), Append(q3, q.c2);
    AppendPlus(p.c5, q.c5, p.c4, q.c4);
    AppendPlus(p4, q4, p.c3, q.c3);
    AppendPlus(p3, q3, p.c2, q.c2);
    AppendPlus(p2, q2, p.c1, q.c1);
    AppendPlus(Append(p2, p.c1), Append(q2, q.c1), p.c0, q.c0);
  }

  lemma PackParts(p: Bip350.Poly, v: bv32)
    requires Bip350.Reduced(p)
    ensures Top(Pack(p)) == p.c5
    ensures Base(Pack(p), v) == Pack(Bip350.Poly(p.c4, p.c3, p.c2, p.c1, p.c0, v))
  {
  }

  lemma XorSwapped(a: bv32, b: bv32)
    ensures Xor(a, b) == Xor(b, a)
  {
  }

  /** One step of the register. */
  lemma StepIsTimesX(p: Bip350.Poly, v: bv32)
    requires Bip350.Reduced(p) && v < 32
    ensures Step(Pack(p), v) == Pack(Bip350.TimesX(p, v))
  {
    hide Step, Tapped, Base, Top, Xor, Pack, Bip350.Carry, Bip350.Plus;
    var shifted := Bip350.Poly(p.c4, p.c3, p.c2, p.c1, p.c0, v);
    PackParts(p, v);
    StepTaps(Pack(p), v);
    TapsAreCarry(p.c5);
    PackPlus(shifted, Bip350.Carry(p.c5));
    XorSwapped(Pack(shifted), Pack(Bip350.Carry(p.c5)));
  }

  /** The register after any words is their remainder. */
  lemma {:induction false} PolymodIsRemainder(words: seq<word>)
    ensures Polymod(words) == Pack(Bip350.Remainder(words))
  {
    hide Step, Pack, Bip350.TimesX;
    if words == [] {
      PackOne();
    } else {
      var k := |words| - 1;
      PolymodIsRemainder(words[..k]);
      StepIsTimesX(Bip350.Remainder(words[..k]), Bip350.Coefficient(words[k]));
    }
  }

  lemma PackOne()
    ensures Pack(Bip350.Poly(0, 0, 0, 0, 0, 1)) == 1
  {
  }

  lemma ConstantPacked()
    ensures Pack(Bip350.BECH32M) == BECH32M_CONST
  {
  }

  lemma PrefixExpansion(hrp: Text)
    ensures HrpExpand(hrp) == Bip350.Expanded(hrp)
  {
  }
}
