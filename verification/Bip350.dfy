/**
  * The encoder of BIP-173 and BIP-350, from the standard's own terms: GF(32) is the field of
  * polynomials over GF(2) modulo x^5 + x^3 + 1, and the checksum is the remainder of the
  * message modulo a polynomial of degree six over that field. Nothing here is shared with
  * the hand-written decoder.
  */
module Bip350 {
  import opened Numerals
  import opened Ascii

  // ---------------------------------------------------------------- the field

  function Sum(a: bv32, b: bv32): bv32 { a ^ b }

  /** Times x, reduced by x^5 + x^3 + 1. */
  function Double(a: bv32): bv32 {
    if a & 16 == 0 then a << 1 else (a << 1) ^ 41
  }

  /** The product of two field elements, kept in the low five bits. */
  function Times(a: bv32, b: bv32): bv32 {
    (if b & 1 == 0 then 0 else a)
    ^ (if b & 2 == 0 then 0 else Double(a))
    ^ (if b & 4 == 0 then 0 else Double(Double(a)))
    ^ (if b & 8 == 0 then 0 else Double(Double(Double(a))))
    ^ (if b & 16 == 0 then 0 else Double(Double(Double(Double(a)))))
  }

  // ---------------------------------------------------------------- the remainder

  /** A polynomial of degree at most five, highest coefficient first. */
  datatype Poly = Poly(c5: bv32, c4: bv32, c3: bv32, c2: bv32, c1: bv32, c0: bv32)

  predicate Reduced(p: Poly) {
    p.c5 < 32 && p.c4 < 32 && p.c3 < 32 && p.c2 < 32 && p.c1 < 32 && p.c0 < 32
  }

  function Plus(p: Poly, q: Poly): Poly {
    Poly(Sum(p.c5, q.c5), Sum(p.c4, q.c4), Sum(p.c3, q.c3), Sum(p.c2, q.c2), Sum(p.c1, q.c1), Sum(p.c0, q.c0))
  }

  /** `t` times x^6 modulo the generator x^6 + 29x^5 + 22x^4 + 20x^3 + 21x^2 + 29x + 18. */
  function Carry(t: bv32): Poly {
    Poly(Times(t, 29), Times(t, 22), Times(t, 20), Times(t, 21), Times(t, 29), Times(t, 18))
  }

  /** `p` times x plus `v`, modulo the generator. */
  function TimesX(p: Poly, v: bv32): Poly {
    Plus(Poly(p.c4, p.c3, p.c2, p.c1, p.c0, v), Carry(p.c5))
  }

  function Coefficient(w: word): (b: bv32)
    ensures b < 32
  {
    CoefficientSmall(w);
    w as bv32
  }

  lemma CoefficientSmall(w: word)
    ensures w as bv32 < 32
  {
  }

  lemma TimesSmall(a: bv32, b: bv32)
    requires a < 32
    ensures Times(a, b) < 32
  {
  }

  lemma TimesXReduced(p: Poly, v: bv32)
    requires Reduced(p) && v < 32
    ensures Reduced(TimesX(p, v))
  {
    hide Times;
    TimesSmall(p.c5, 29);
    TimesSmall(p.c5, 22);
    TimesSmall(p.c5, 20);
    TimesSmall(p.c5, 21);
    TimesSmall(p.c5, 18);
  }

  /** The words as coefficients after a leading 1, modulo the generator. */
  function Remainder(words: seq<word>): (p: Poly)
    ensures Reduced(p)
  {
    if words == [] then Poly(0, 0, 0, 0, 0, 1)
    else
      var p := Remainder(words[..|words| - 1]);
      var v := Coefficient(words[|words| - 1]);
      TimesXReduced(p, v);
      TimesX(p, v)
  }

  // ---------------------------------------------------------------- the encoder

  /** The high bits of each character, a zero, the low five bits of each character. */
  function Expanded(hrp: Text): seq<word> {
    seq(2 * |hrp| + 1, k requires 0 <= k < 2 * |hrp| + 1 =>
      if k < |hrp| then hrp[k] as int / 32 else if k == |hrp| then 0 else hrp[k - |hrp| - 1] as int % 32)
  }

  /** The six words of the constant of BIP-350. */
  const BECH32M: Poly := Poly(21, 28, 16, 12, 5, 3)

  function WordOfBits(b: bv32): word
    requires b < 32
  {
    b as nat
  }

  function Checksum(hrp: Text, data: seq<word>): (ws: seq<word>)
    ensures |ws| == 6
  {
    var r := Remainder(Expanded(hrp) + data + [0, 0, 0, 0, 0, 0]);
    PlusReduced(r, BECH32M);
    var c := Plus(r, BECH32M);
    [WordOfBits(c.c5), WordOfBits(c.c4), WordOfBits(c.c3), WordOfBits(c.c2), WordOfBits(c.c1), WordOfBits(c.c0)]
  }

  lemma PlusReduced(p: Poly, q: Poly)
    requires Reduced(p) && Reduced(q)
    ensures Reduced(Plus(p, q))
  {
  }

  /** The character of a word: four rows of eight. */
  function Symbol(w: word): ascii {
    SymbolPlain(w);
    Rows(w)
  }

  function Rows(w: word): char {
    if w < 8 then "qpzry9x8"[w]
    else if w < 16 then "gf2tvdw0"[w - 8]
    else if w < 24 then "s3jn54kh"[w - 16]
    else "ce6mua7l"[w - 24]
  }

  lemma SymbolPlain(w: word)
    ensures Rows(w) < 128 as char
  {
  }

  function Symbols(words: seq<word>): (t: Text)
    ensures |t| == |words|
  {
    seq(|words|, k requires 0 <= k < |words| => Symbol(words[k]))
  }

  /** The encoding of a prefix and data words. */
  function EncodeRaw(hrp: Text, data: seq<word>): Text {
    hrp + ['1'] + Symbols(data + Checksum(hrp, data))
  }
}
