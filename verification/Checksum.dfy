/**
  * What the checksum register can tell apart: six words determine it from any state, and
  * every later step keeps distinct states distinct.
  */
module Checksum {
  import opened Numerals
  import opened Bech32m

  const LIMIT: bv32 := 0x4000_0000

  function Zeros(n: nat): seq<word> { seq(n, _ => 0) }

  /** At most six words written side by side, five bits each. */
  function Cat(words: seq<word>): bv32 {
    if words == [] then 0
    else Append(Cat(words[..|words| - 1]), Bits(words[|words| - 1]))
  }

  function Append(d: bv32, v: bv32): bv32 { Xor(d << 5, v) }

  /** `d` fits in `n` words. */
  predicate Narrow(d: bv32, n: nat)
    requires n <= 6
  {
    d < (if n == 0 then 1 else if n == 1 then 0x20 else if n == 2 then 0x400 else if n == 3 then 0x8000
         else if n == 4 then 0x10_0000 else if n == 5 then 0x200_0000 else LIMIT)
  }

  lemma BitsSmall(v: word)
    ensures Bits(v) < 32
    ensures Bits(0) == 0
    ensures Bits(v) as nat == v
  {
  }

  lemma AppendNarrow(d: bv32, v: bv32, n: nat)
    requires n < 6 && Narrow(d, n) && v < 32
    ensures Narrow(Append(d, v), n + 1)
  {
  }

  lemma AppendInjective(d: bv32, v: bv32, d': bv32, v': bv32)
    requires Narrow(d, 5) && Narrow(d', 5) && v < 32 && v' < 32
    requires Append(d, v) == Append(d', v')
    ensures d == d' && v == v'
  {
  }

  lemma NarrowWiden(d: bv32, n: nat)
    requires n < 6 && Narrow(d, n)
    ensures Narrow(d, 5)
  {
  }

  lemma {:induction false} CatNarrow(words: seq<word>)
    requires |words| <= 6
    ensures Narrow(Cat(words), |words|)
  {
    hide Narrow, Append, Bits;
    var k := |words| - 1;
    if words == [] {
      ZeroNarrow();
    } else {
      CatNarrow(words[..k]);
      BitsSmall(words[k]);
      AppendNarrow(Cat(words[..k]), Bits(words[k]), k);
    }
  }

  lemma ZeroNarrow()
    ensures Narrow(0, 0)
  {
  }

  lemma {:induction false} CatInjective(us: seq<word>, vs: seq<word>)
    requires |us| == |vs| <= 6 && Cat(us) == Cat(vs)
    ensures us == vs
  {
    hide Narrow, Append, Bits;
    if us == [] {
    } else {
      var k := |us| - 1;
      CatNarrow(us[..k]);
      CatNarrow(vs[..k]);
      NarrowWiden(Cat(us[..k]), k);
      NarrowWiden(Cat(vs[..k]), k);
      BitsSmall(us[k]);
      BitsSmall(vs[k]);
      AppendInjective(Cat(us[..k]), Bits(us[k]), Cat(vs[..k]), Bits(vs[k]));
      CatInjective(us[..k], vs[..k]);
      assert us == us[..k] + [us[k]] && vs == vs[..k] + [vs[k]];
    }
  }

  lemma BaseLeft(x: bv32, d: bv32, v: bv32)
    ensures Base(Xor(x, d), v) == (((x ^ d) & 0x1ffffff) << 5) ^ v
  {
  }

  lemma BaseRight(x: bv32, d: bv32, v: bv32)
    ensures Xor(Base(x, 0), Append(d, v)) == (((x & 0x1ffffff) << 5) ^ 0) ^ ((d << 5) ^ v)
  {
  }

  lemma TopKept(x: bv32, d: bv32)
    requires Narrow(d, 5)
    ensures Top(Xor(x, d)) == Top(x)
  {
  }

  lemma BaseShift(x: bv32, d: bv32, v: bv32)
    requires Narrow(d, 5)
    ensures Base(Xor(x, d), v) == Xor(Base(x, 0), Append(d, v))
  {
    hide Base, Append, Xor;
    BaseLeft(x, d, v);
    BaseRight(x, d, v);
  }

  /** A difference that has not reached the top bits is shifted along untouched. */
  lemma StepShift(x: bv32, d: bv32, v: bv32)
    requires Narrow(d, 5)
    ensures Step(Xor(x, d), v) == Xor(Step(x, 0), Append(d, v))
  {
    hide Base, Append, Xor, Narrow, Top, Tapped;
    BaseShift(x, d, v);
    TopKept(x, d);
    TappedXor(Base(x, 0), Base(Xor(x, d), v), Append(d, v), Top(x));
  }

  /** Up to six words change the register exactly by their own bits. */
  lemma {:induction false} FeedCat(chk: bv32, words: seq<word>)
    requires |words| <= 6
    ensures Feed(chk, words) == Xor(Feed(chk, Zeros(|words|)), Cat(words))
  {
    hide Append, Xor, Narrow, Step, Bits;
    if words == [] {
      XorZero(chk);
    } else {
      var k := |words| - 1;
      FeedCat(chk, words[..k]);
      CatNarrow(words[..k]);
      NarrowWiden(Cat(words[..k]), k);
      StepShift(Feed(chk, Zeros(k)), Cat(words[..k]), Bits(words[k]));
      assert Zeros(|words|)[..k] == Zeros(k);
      BitsSmall(0);
    }
  }

  lemma XorZero(x: bv32)
    ensures Xor(x, 0) == x
  {
  }

  /** Distinct short words lead to distinct registers. */
  lemma FeedShortInjective(chk: bv32, us: seq<word>, vs: seq<word>)
    requires |us| == |vs| <= 6 && Feed(chk, us) == Feed(chk, vs)
    ensures us == vs
  {
    FeedCat(chk, us);
    FeedCat(chk, vs);
    CatInjective(us, vs);
  }

  lemma BaseNarrow(chk: bv32, v: bv32)
    requires v < LIMIT
    ensures Base(chk, v) < LIMIT
  {
  }

  lemma TapNarrow(chk: bv32, top: bv32, i: nat)
    requires i < 5 && chk < LIMIT
    ensures Tap(chk, top, i) < LIMIT
  {
    hide TopBit;
  }

  lemma StepNarrow(chk: bv32, v: bv32)
    requires v < LIMIT
    ensures Step(chk, v) < LIMIT
  {
    hide Tap, Top, Base;
    BaseNarrow(chk, v);
    var c0, top := Base(chk, v), Top(chk);
    TapNarrow(c0, top, 0);
    var c1 := Tap(c0, top, 0);
    TapNarrow(c1, top, 1);
    var c2 := Tap(c1, top, 1);
    TapNarrow(c2, top, 2);
    var c3 := Tap(c2, top, 2);
    TapNarrow(c3, top, 3);
    TapNarrow(Tap(c3, top, 3), top, 4);
  }

  lemma FeedNarrow(chk: bv32, values: seq<word>)
    requires chk < LIMIT
    ensures Feed(chk, values) < LIMIT
  {
    hide Step, Bits;
    if values != [] {
      BitsSmall(values[|values| - 1]);
      StepNarrow(Feed(chk, values[..|values| - 1]), Bits(values[|values| - 1]));
    }
  }

  lemma LowBits(a: bv32, b: bv32, v: bv32, m: bv32, n: bv32)
    requires Xor(m, Base(a, v)) == Xor(n, Base(b, v))
    ensures m & 31 == n & 31
  {
  }

  lemma HighBits(a: bv32, b: bv32, v: bv32, m: bv32)
    requires a < LIMIT && b < LIMIT && Top(a) == Top(b)
    requires Xor(m, Base(a, v)) == Xor(m, Base(b, v))
    ensures a == b
  {
  }

  lemma TopNarrow(a: bv32)
    requires a < LIMIT
    ensures Top(a) < 32
  {
  }

  lemma StepTaps(chk: bv32, v: bv32)
    ensures Step(chk, v) == Xor(Tapped(0, Top(chk), 5), Base(chk, v))
  {
    hide Tapped, Top, Base;
    XorFromZero(Base(chk, v));
    TappedXor(0, Base(chk, v), Base(chk, v), Top(chk));
  }

  lemma XorFromZero(x: bv32)
    ensures Xor(0, x) == x
  {
  }

  /** Reading the same word keeps distinct registers distinct. */
  lemma StepInjective(a: bv32, b: bv32, v: bv32)
    requires a < LIMIT && b < LIMIT && Step(a, v) == Step(b, v)
    ensures a == b
  {
    hide Tapped, Top, Base, Xor, Step;
    StepTaps(a, v);
    StepTaps(b, v);
    LowBits(a, b, v, Tapped(0, Top(a), 5), Tapped(0, Top(b), 5));
    TopNarrow(a);
    TopNarrow(b);
    TapsDistinct(Top(a), Top(b));
    HighBits(a, b, v, Tapped(0, Top(a), 5));
  }

  lemma {:induction false} FeedInjective(a: bv32, b: bv32, values: seq<word>)
    requires a < LIMIT && b < LIMIT && Feed(a, values) == Feed(b, values)
    ensures a == b
  {
    hide Step, Bits;
    if values == [] {
    } else {
      var k := |values| - 1;
      FeedNarrow(a, values[..k]);
      FeedNarrow(b, values[..k]);
      StepInjective(Feed(a, values[..k]), Feed(b, values[..k]), Bits(values[k]));
      FeedInjective(a, b, values[..k]);
    }
  }

  lemma {:induction false} FeedConcat(chk: bv32, us: seq<word>, vs: seq<word>)
    ensures Feed(chk, us + vs) == Feed(Feed(chk, us), vs)
  {
    hide Step, Bits;
    if vs == [] {
      assert us + vs == us;
    } else {
      var k := |vs| - 1;
      FeedConcat(chk, us, vs[..k]);
      assert (us + vs)[..|us + vs| - 1] == us + vs[..k];
    }
  }

  /**
    * Burst detection: two word sequences that differ only inside six consecutive positions,
    * and do differ, never have the same checksum.
    */
  lemma BurstDetected(before: seq<word>, us: seq<word>, vs: seq<word>, after: seq<word>)
    requires |us| == |vs| <= 6 && us != vs
    ensures Polymod(before + us + after) != Polymod(before + vs + after)
  {
    hide Step, Bits;
    var start := Feed(1, before);
    FeedConcat(1, before + us, after);
    FeedConcat(1, before, us);
    FeedConcat(1, before + vs, after);
    FeedConcat(1, before, vs);
    FeedNarrow(1, before + us);
    FeedNarrow(1, before + vs);
    if Polymod(before + us + after) == Polymod(before + vs + after) {
      FeedInjective(Feed(start, us), Feed(start, vs), after);
      FeedShortInjective(start, us, vs);
    }
  }
}
