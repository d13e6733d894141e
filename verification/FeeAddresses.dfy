/**
  * The pinned fee addresses of fee.ts, decoded character by character: each block of eight
  * characters is five bytes of the program and one stretch of the checksum register.
  */
module FeeAddresses {
  import opened Wrappers
  import opened Numerals
  import opened Ascii
  import opened Hex
  import opened Bech32m
  import opened Checksum
  import opened SegwitCodec
  import opened AddressValidation
  import Bip350
  import Division
  import Preview

  /** Text, its words, the bytes they hold, and the register before and after. */
  predicate Block(text: string, ws: seq<word>, bs: bytes, from: bv32, to: bv32) {
    && CharsOf(ws) == text && Feed(from, ws) == to
    && 5 * |ws| == 8 * |bs| && Val(ws, 5) == Val(bs, 8)
  }

  lemma {:induction false} ValConcat(xs: seq<nat>, ys: seq<nat>, width: nat)
    ensures Val(xs + ys, width) == Val(xs, width) * Pow2(width * |ys|) + Val(ys, width)
  {
    if ys == [] {
      assert xs + ys == xs && width * 0 == 0;
      PowerZero();
    } else {
      ValConcat(xs, ys[..|ys| - 1], width);
      ConcatStep(xs, ys, width);
    }
  }

  lemma ConcatStep(xs: seq<nat>, ys: seq<nat>, width: nat)
    requires ys != []
    requires var init := ys[..|ys| - 1]; Val(xs + init, width) == Val(xs, width) * Pow2(width * |init|) + Val(init, width)
    ensures Val(xs + ys, width) == Val(xs, width) * Pow2(width * |ys|) + Val(ys, width)
  {
    hide Pow2, Val;
    var k := |ys| - 1;
    ValSnoc(xs + ys[..k], ys[k], width);
    ValSnoc(ys[..k], ys[k], width);
    assert xs + ys == xs + ys[..k] + [ys[k]] && ys == ys[..k] + [ys[k]];
    assert width * |ys| == width * k + width;
    Pow2Add(width * k, width);
    Distribute(Val(xs, width), Pow2(width * k), Val(ys[..k], width), Pow2(width));
  }

  lemma PowerZero()
    ensures Pow2(0) == 1
  {
  }

  lemma Distribute(v: nat, p: nat, w: nat, q: nat)
    ensures (v * p + w) * q == v * (p * q) + w * q
  {
  }

  lemma Join(t: string, xs: seq<word>, bs: bytes, t': string, ys: seq<word>, bs': bytes, from: bv32, mid: bv32, to: bv32)
    requires Block(t, xs, bs, from, mid) && Block(t', ys, bs', mid, to)
    ensures Block(t + t', xs + ys, bs + bs', from, to)
  {
    hide Feed, Val, Pow2, CharOf;
    FeedConcat(from, xs, ys);
    ValConcat(xs, ys, 5);
    ValConcat(bs, bs', 8);
    assert CharsOf(xs + ys) == CharsOf(xs) + CharsOf(ys);
  }

  lemma FeedOne(chk: bv32, v: word)
    ensures Feed(chk, [v]) == Step(chk, Bits(v))
  {
    hide Step, Bits;
    assert [v][..0] == [];
  }

  lemma FeedTwo(chk: bv32, a: word, b: word)
    ensures Feed(chk, [a, b]) == Step(Step(chk, Bits(a)), Bits(b))
  {
    hide Step, Bits, Feed;
    FeedConcat(chk, [a], [b]);
    assert [a] + [b] == [a, b];
    FeedOne(chk, a);
    FeedOne(Feed(chk, [a]), b);
  }

  lemma FeedFour(chk: bv32, a: word, b: word, c: word, d: word)
    ensures Feed(chk, [a, b, c, d]) == Step(Step(Step(Step(chk, Bits(a)), Bits(b)), Bits(c)), Bits(d))
  {
    hide Step, Bits, Feed;
    FeedConcat(chk, [a, b], [c, d]);
    assert [a, b] + [c, d] == [a, b, c, d];
    FeedTwo(chk, a, b);
    FeedTwo(Feed(chk, [a, b]), c, d);
  }

  /** The step as one expression over the bits of the register. */
  function Flat(chk: bv32, v: bv32): bv32 {
    var c0 := Xor((chk & 0x1ffffff) << 5, v);
    var c1 := if chk & 0x2000000 != 0 then Xor(c0, 0x3b6a57b2) else c0;
    var c2 := if chk & 0x4000000 != 0 then Xor(c1, 0x26508e6d) else c1;
    var c3 := if chk & 0x8000000 != 0 then Xor(c2, 0x1ea119fa) else c2;
    var c4 := if chk & 0x10000000 != 0 then Xor(c3, 0x3d4233dd) else c3;
    if chk & 0x20000000 != 0 then Xor(c4, 0x2a1462b3) else c4
  }

  lemma TopBits(chk: bv32)
    requires chk < LIMIT
    ensures TopBit(Top(chk), 0) == (chk & 0x2000000 != 0) && TopBit(Top(chk), 1) == (chk & 0x4000000 != 0)
    ensures TopBit(Top(chk), 2) == (chk & 0x8000000 != 0) && TopBit(Top(chk), 3) == (chk & 0x10000000 != 0)
    ensures TopBit(Top(chk), 4) == (chk & 0x20000000 != 0)
  {
  }

  lemma StepIsFlat(chk: bv32, v: bv32)
    requires chk < LIMIT
    ensures Step(chk, v) == Flat(chk, v)
  {
    hide TopBit, Top, Xor;
    TopBits(chk);
  }

  /** Four steps of the register, state by state. */
  lemma Four(r: bv32, a: word, s: bv32, b: word, t: bv32, c: word, u: bv32, d: word, v: bv32)
    requires r < LIMIT && s < LIMIT && t < LIMIT && u < LIMIT
    requires Flat(r, Bits(a)) == s && Flat(s, Bits(b)) == t && Flat(t, Bits(c)) == u && Flat(u, Bits(d)) == v
    ensures Feed(r, [a, b, c, d]) == v
  {
    hide Step, Bits, Flat;
    FeedFour(r, a, b, c, d);
    StepIsFlat(r, Bits(a));
    StepIsFlat(s, Bits(b));
    StepIsFlat(t, Bits(c));
    StepIsFlat(u, Bits(d));
  }

  lemma Two(r: bv32, a: word, s: bv32, b: word, t: bv32)
    requires r < LIMIT && s < LIMIT && Flat(r, Bits(a)) == s && Flat(s, Bits(b)) == t
    ensures Feed(r, [a, b]) == t
  {
    hide Step, Bits, Flat;
    FeedTwo(r, a, b);
    StepIsFlat(r, Bits(a));
    StepIsFlat(s, Bits(b));
  }

  lemma ValTwo(a: nat, b: nat, width: nat)
    ensures Val([a, b], width) == a * Pow2(width) + b
  {
    hide Pow2;
    ValSnoc([], a, width);
    ValSnoc([a], b, width);
    assert [] + [a] == [a] && [a] + [b] == [a, b];
    assert Val([], width) == 0 && 0 * Pow2(width) == 0;
  }

  lemma SmallPowers()
    ensures Pow2(4) == 16 && Pow2(5) == 32 && Pow2(8) == 256 && Pow2(10) == 1024 && Pow2(16) == 65536 && Pow2(20) == 1048576
  {
    assert Pow2(2) == 4;
    Pow2Add(2, 2);
    Pow2Add(4, 1);
    Pow2Add(4, 4);
    Pow2Add(5, 5);
    Pow2Add(8, 8);
    Pow2Add(10, 10);
  }

  lemma ValFour(a: nat, b: nat, c: nat, d: nat)
    ensures Val([a, b, c, d], 5) == ((a * 32 + b) * 32 + c) * 32 + d
    ensures Val([a, b, c, d], 8) == ((a * 256 + b) * 256 + c) * 256 + d
  {
    hide Val, Pow2;
    SmallPowers();
    ValTwo(a, b, 5);
    ValTwo(c, d, 5);
    ValTwo(a, b, 8);
    ValTwo(c, d, 8);
    ValConcat([a, b], [c, d], 5);
    ValConcat([a, b], [c, d], 8);
    assert [a, b] + [c, d] == [a, b, c, d];
  }

  /** Eight words hold five bytes. */
  lemma ValEight(a: nat, b: nat, c: nat, d: nat, e: nat, f: nat, g: nat, h: nat, p: nat, q: nat, r: nat, s: nat, t: nat)
    requires (((a * 32 + b) * 32 + c) * 32 + d) * 1048576 + ((e * 32 + f) * 32 + g) * 32 + h
             == (((p * 256 + q) * 256 + r) * 256 + s) * 256 + t
    ensures Val([a, b, c, d] + [e, f, g, h], 5) == Val([p, q, r, s, t], 8)
  {
    hide Val, Pow2;
    SmallPowers();
    ValFour(a, b, c, d);
    ValFour(e, f, g, h);
    ValConcat([a, b, c, d], [e, f, g, h], 5);
    ValFour(p, q, r, s);
    ValSnoc([p, q, r, s], t, 8);
    assert [p, q, r, s, t] == [p, q, r, s] + [t];
  }

  /** The last four words hold two bytes and four zero bits. */
  lemma ValTail(a: nat, b: nat, c: nat, d: nat, p: nat, q: nat)
    requires ((a * 32 + b) * 32 + c) * 32 + d == (p * 256 + q) * 16
    ensures Val([a, b, c, d], 5) == Val([p, q], 8) * 16
  {
    hide Val, Pow2;
    SmallPowers();
    ValFour(a, b, c, d);
    ValTwo(p, q, 8);
  }

  /** A block from its two halves. */
  lemma Halves(text: string, xs: seq<word>, ys: seq<word>, bs: bytes, from: bv32, mid: bv32, to: bv32)
    requires |xs| == |ys| == 4 && |bs| == 5 && Val(xs + ys, 5) == Val(bs, 8)
    requires Feed(from, xs) == mid && Feed(mid, ys) == to && CharsOf(xs + ys) == text
    ensures Block(text, xs + ys, bs, from, to)
  {
    hide Feed, Val, CharOf;
    FeedConcat(from, xs, ys);
  }

  lemma WholeValue(ws: seq<word>, bs: bytes, tail: seq<word>, tailBytes: bytes)
    requires |tail| == 4 && |tailBytes| == 2
    requires Val(ws, 5) == Val(bs, 8) && Val(tail, 5) == Val(tailBytes, 8) * 16
    ensures Val(ws + tail, 5) == Val(bs + tailBytes, 8) * 16
  {
    hide Val, Pow2;
    SmallPowers();
    ValConcat(ws, tail, 5);
    ValConcat(bs, tailBytes, 8);
  }

  lemma WordsOfProgram(ws: seq<word>, program: bytes)
    requires |ws| == 52 && |program| == 32 && Val(ws, 5) == Val(program, 8) * 16
    ensures BytesToWords(program) == ws
  {
    hide Val, Pow2, Digits;
    SmallPowers();
    WordCount(52, 32, 4);
    WordsFit(ws);
    DigitsOfVal(ws, 5);
  }

  /** Words that bring the register from the prefix to the constant. */
  lemma SumFound(hrp: Text, start: bv32, mid: bv32, ws: seq<word>, tail: seq<word>, sum: seq<word>)
    requires Polymod(Bip350.Expanded(hrp) + [1]) == start && Feed(start, ws) == mid
    requires |sum| == 6 && Feed(mid, tail + sum) == BECH32M_CONST
    ensures ChecksumOf(hrp, [1] + (ws + tail)) == sum
  {
    hide Feed, ChecksumOf, HrpExpand, Bip350.Expanded;
    Division.PrefixExpansion(hrp);
    var head := HrpExpand(hrp) + [1];
    FeedConcat(1, head, ws);
    FeedConcat(1, head + ws, tail + sum);
    assert head + ws + (tail + sum) == HrpExpand(hrp) + ([1] + (ws + tail) + sum);
    ChecksumUnique(hrp, [1] + (ws + tail), sum);
  }

  lemma Spelled(ws: seq<word>, tail: seq<word>, sum: seq<word>)
    ensures CharsOf([1] + (ws + tail) + sum) == ['p'] + CharsOf(ws) + CharsOf(tail) + CharsOf(sum)
  {
    assert CharOf(1) == 'p';
    hide CharOf;
    assert CharsOf([1]) == ['p'];
  }

  /** A prefix, 30 bytes in a block, two more bytes, and six words that complete the checksum. */
  lemma Assembled(hrp: Text, text: string, ws: seq<word>, bs: bytes, start: bv32, mid: bv32,
                  tail: seq<word>, tailBytes: bytes, sum: seq<word>)
    requires Polymod(Bip350.Expanded(hrp) + [1]) == start && Block(text, ws, bs, start, mid)
    requires |ws| == 48 && |tail| == 4 && |tailBytes| == 2 && |sum| == 6
    requires Val(tail, 5) == Val(tailBytes, 8) * 16 && Feed(mid, tail + sum) == BECH32M_CONST
    ensures EncodeSegwit(hrp, 1, bs + tailBytes) == hrp + ['1'] + (['p'] + text + CharsOf(tail) + CharsOf(sum))
  {
    hide Feed, Val, Polymod, CharsOf, BytesToWords, EncodeRaw, ChecksumOf, Bip350.Expanded;
    WholeValue(ws, bs, tail, tailBytes);
    WordsOfProgram(ws + tail, bs + tailBytes);
    SumFound(hrp, start, mid, ws, tail, sum);
    EncodedText(hrp, [1] + (ws + tail));
    Spelled(ws, tail, sum);
  }

  lemma Regrouped(a: string, b: string, c: string, d: string, e: string, f: string, g: string)
    ensures a + b + c + d + e + f + g == a + (b + c + d + e + f + g)
  {
    assert a + b + c == a + (b + c);
    assert a + (b + c) + d == a + (b + c + d);
    assert a + (b + c + d) + e == a + (b + c + d + e);
    assert a + (b + c + d + e) + f == a + (b + c + d + e + f);
    assert a + (b + c + d + e + f) + g == a + (b + c + d + e + f + g);
  }


  lemma Rest(p: string, q: string, t: string, u: string, v: string)
    ensures p + q + t + u + v == p + (q + t + u + v)
  {
    assert p + q + t == p + (q + t);
    assert p + (q + t) + u == p + (q + t + u);
    assert p + (q + t + u) + v == p + (q + t + u + v);
  }

  // ---------------------------------------------------------------- mainnet

  lemma MainnetStart()
    ensures Polymod(Bip350.Expanded("prl") + [1]) == 0x3dfe_d0cc
  {
    hide Feed, Flat;
    assert Bip350.Expanded("prl") + [1] == [3, 3, 3, 0] + [16, 18, 12, 1];
    MainnetPrefix();
    FeedConcat(1, [3, 3, 3, 0], [16, 18, 12, 1]);
  }

  lemma MainnetPrefix()
    ensures Feed(1, [3, 3, 3, 0]) == 0x0011_8c60 && Feed(0x0011_8c60, [16, 18, 12, 1]) == 0x3dfe_d0cc
  {
    hide Feed;
    Four(0x0000_0001, 3, 0x0000_0023, 3, 0x0000_0463, 3, 0x0000_8c63, 0, 0x0011_8c60);
    Four(0x0011_8c60, 16, 0x0231_8c10, 18, 0x3d5b_d5a0, 12, 0x04dd_72f5, 1, 0x3dfe_d0cc);
  }

  lemma MainnetOne()
    ensures Block("l0c9aqvm", [31, 15, 24, 5] + [29, 0, 12, 27], [0xfb, 0xf0, 0x5e, 0x81, 0x9b], 0x3dfe_d0cc, 0x141e_55d6)
  {
    hide Feed, Val, CharsOf;
    MainnetOneText();
    Four(0x3dfe_d0cc, 31, 0x107d_df66, 15, 0x32f9_df12, 24, 0x3307_e484, 5, 0x0cc0_9659);
    Four(0x0cc0_9659, 29, 0x20e3_5caa, 0, 0x367f_f7f3, 12, 0x0592_76dd, 27, 0x141e_55d6);
    ValEight(31, 15, 24, 5, 29, 0, 12, 27, 0xfb, 0xf0, 0x5e, 0x81, 0x9b);
    Halves("l0c9aqvm", [31, 15, 24, 5], [29, 0, 12, 27], [0xfb, 0xf0, 0x5e, 0x81, 0x9b], 0x3dfe_d0cc, 0x0cc0_9659, 0x141e_55d6);
  }

  lemma MainnetOneText()
    ensures CharsOf([31, 15, 24, 5] + [29, 0, 12, 27]) == "l0c9aqvm"
  {
  }

  lemma MainnetTwo()
    ensures Block("vhm4ml8n", [12, 23, 27, 21] + [27, 31, 7, 19], [0x65, 0xf7, 0x5d, 0xfc, 0xf3], 0x141e_55d6, 0x1ad0_cc6e)
  {
    hide Feed, Val, CharsOf;
    MainnetTwoText();
    Four(0x141e_55d6, 12, 0x18d8_077c, 23, 0x38e3_c5b0, 27, 0x158f_fe8f, 21, 0x2aed_6c45);
    Four(0x2aed_6c45, 27, 0x1272_a440, 31, 0x087c_ec70, 7, 0x113c_97fd, 19, 0x1ad0_cc6e);
    ValEight(12, 23, 27, 21, 27, 31, 7, 19, 0x65, 0xf7, 0x5d, 0xfc, 0xf3);
    Halves("vhm4ml8n", [12, 23, 27, 21], [27, 31, 7, 19], [0x65, 0xf7, 0x5d, 0xfc, 0xf3], 0x141e_55d6, 0x2aed_6c45, 0x1ad0_cc6e);
  }

  lemma MainnetTwoText()
    ensures CharsOf([12, 23, 27, 21] + [27, 31, 7, 19]) == "vhm4ml8n"
  {
  }

  lemma MainnetThree()
    ensures Block("rc7s0cez", [3, 24, 30, 16] + [15, 24, 25, 2], [0x1e, 0x3d, 0x07, 0xe3, 0x22], 0x1ad0_cc6e, 0x15c6_0da5)
  {
    hide Feed, Val, CharsOf;
    MainnetThreeText();
    Four(0x1ad0_cc6e, 3, 0x0290_f056, 24, 0x2974_5d6a, 30, 0x1a3e_d617, 16, 0x1f53_bf65);
    Four(0x1f53_bf65, 15, 0x14ae_1f57, 24, 0x0ed1_5748, 25, 0x19b1_293c, 2, 0x15c6_0da5);
    ValEight(3, 24, 30, 16, 15, 24, 25, 2, 0x1e, 0x3d, 0x07, 0xe3, 0x22);
    Halves("rc7s0cez", [3, 24, 30, 16], [15, 24, 25, 2], [0x1e, 0x3d, 0x07, 0xe3, 0x22], 0x1ad0_cc6e, 0x1f53_bf65, 0x15c6_0da5);
  }

  lemma MainnetThreeText()
    ensures CharsOf([3, 24, 30, 16] + [15, 24, 25, 2]) == "rc7s0cez"
  {
  }

  lemma MainnetFour()
    ensures Block("rgx3el67", [3, 8, 6, 17] + [25, 31, 26, 30], [0x1a, 0x0d, 0x1c, 0xff, 0x5e], 0x15c6_0da5, 0x2c2c_77e7)
  {
    hide Feed, Val, CharsOf;
    MainnetFourText();
    Four(0x15c6_0da5, 3, 0x23d3_0913, 8, 0x2b1f_1769, 6, 0x2c3d_c1dd, 17, 0x155d_ce95);
    Four(0x155d_ce95, 25, 0x30ab_6f09, 31, 0x023b_b051, 26, 0x3c1c_5d88, 30, 0x2c2c_77e7);
    ValEight(3, 8, 6, 17, 25, 31, 26, 30, 0x1a, 0x0d, 0x1c, 0xff, 0x5e);
    Halves("rgx3el67", [3, 8, 6, 17], [25, 31, 26, 30], [0x1a, 0x0d, 0x1c, 0xff, 0x5e], 0x15c6_0da5, 0x155d_ce95, 0x2c2c_77e7);
  }

  lemma MainnetFourText()
    ensures CharsOf([3, 8, 6, 17] + [25, 31, 26, 30]) == "rgx3el67"
  {
  }

  lemma MainnetFive()
    ensures Block("nwxeywpj", [19, 14, 6, 25] + [4, 14, 1, 18], [0x9b, 0x8d, 0x92, 0x38, 0x32], 0x2c2c_77e7, 0x33c0_866c)
  {
    hide Feed, Val, CharsOf;
    MainnetFiveText();
    Four(0x2c2c_77e7, 19, 0x176b_09d7, 14, 0x0d19_d0ec, 6, 0x1bcb_8a11, 25, 0x21f8_3fac);
    Four(0x21f8_3fac, 4, 0x1513_9737, 14, 0x3960_5b5e, 1, 0x25fc_2355, 18, 0x33c0_866c);
    ValEight(19, 14, 6, 25, 4, 14, 1, 18, 0x9b, 0x8d, 0x92, 0x38, 0x32);
    Halves("nwxeywpj", [19, 14, 6, 25], [4, 14, 1, 18], [0x9b, 0x8d, 0x92, 0x38, 0x32], 0x2c2c_77e7, 0x21f8_3fac, 0x33c0_866c);
  }

  lemma MainnetFiveText()
    ensures CharsOf([19, 14, 6, 25] + [4, 14, 1, 18]) == "nwxeywpj"
  {
  }

  lemma MainnetSix()
    ensures Block("cwl6a696", [24, 14, 31, 26] + [29, 26, 5, 26], [0xc3, 0xbf, 0xae, 0xe8, 0xba], 0x33c0_866c, 0x00c9_d2fe)
  {
    hide Feed, Val, CharsOf;
    MainnetSixText();
    Four(0x33c0_866c, 24, 0x142c_cb44, 14, 0x1e8b_d53e, 31, 0x2fa3_5427, 26, 0x1de5_266c);
    Four(0x1de5_266c, 29, 0x3917_69d7, 26, 0x2b1a_726e, 5, 0x2c91_613e, 26, 0x00c9_d2fe);
    ValEight(24, 14, 31, 26, 29, 26, 5, 26, 0xc3, 0xbf, 0xae, 0xe8, 0xba);
    Halves("cwl6a696", [24, 14, 31, 26], [29, 26, 5, 26], [0xc3, 0xbf, 0xae, 0xe8, 0xba], 0x33c0_866c, 0x1de5_266c, 0x00c9_d2fe);
  }

  lemma MainnetSixText()
    ensures CharsOf([24, 14, 31, 26] + [29, 26, 5, 26]) == "cwl6a696"
  {
  }

  lemma MainnetTail()
    ensures CharsOf([23, 1, 26, 16]) == "hp6s" && CharsOf([20, 1, 7, 18] + [23, 9]) == "5p8jhf"
  {
  }

  lemma MainnetSum()
    ensures Feed(0x00c9_d2fe, [23, 1, 26, 16] + ([20, 1, 7, 18] + [23, 9])) == BECH32M_CONST
  {
    hide Feed;
    Four(0x00c9_d2fe, 23, 0x193a_5fd7, 1, 0x04a8_d0c6, 26, 0x334a_96b7, 16, 0x056e_d02c);
    Four(0x056e_d02c, 20, 0x0b8a_8bf9, 1, 0x149a_3169, 7, 0x0854_9097, 18, 0x1433_0b08);
    Two(0x1433_0b08, 23, 0x1d73_dca7, 9, 0x2bc8_30a3);
    FeedConcat(0x056e_d02c, [20, 1, 7, 18], [23, 9]);
    FeedConcat(0x00c9_d2fe, [23, 1, 26, 16], [20, 1, 7, 18] + [23, 9]);
  }

  const MAINNET_PROGRAM: bytes :=
    [0xfb, 0xf0, 0x5e, 0x81, 0x9b]
    + [0x65, 0xf7, 0x5d, 0xfc, 0xf3]
    + [0x1e, 0x3d, 0x07, 0xe3, 0x22]
    + [0x1a, 0x0d, 0x1c, 0xff, 0x5e]
    + [0x9b, 0x8d, 0x92, 0x38, 0x32]
    + [0xc3, 0xbf, 0xae, 0xe8, 0xba]
    + [0xb8, 0x75]

  function MainnetText(): string { "l0c9aqvm" + "vhm4ml8n" + "rc7s0cez" + "rgx3el67" + "nwxeywpj" + "cwl6a696" }

  function MainnetWords(): seq<word> {
    [31, 15, 24, 5] + [29, 0, 12, 27]
    + ([12, 23, 27, 21] + [27, 31, 7, 19])
    + ([3, 24, 30, 16] + [15, 24, 25, 2])
    + ([3, 8, 6, 17] + [25, 31, 26, 30])
    + ([19, 14, 6, 25] + [4, 14, 1, 18])
    + ([24, 14, 31, 26] + [29, 26, 5, 26])
  }

  function MainnetBytes(): bytes {
    [0xfb, 0xf0, 0x5e, 0x81, 0x9b]
    + [0x65, 0xf7, 0x5d, 0xfc, 0xf3]
    + [0x1e, 0x3d, 0x07, 0xe3, 0x22]
    + [0x1a, 0x0d, 0x1c, 0xff, 0x5e]
    + [0x9b, 0x8d, 0x92, 0x38, 0x32]
    + [0xc3, 0xbf, 0xae, 0xe8, 0xba]
  }

  lemma MainnetJoined()
    ensures Block(MainnetText(), MainnetWords(), MainnetBytes(), 0x3dfe_d0cc, 0x00c9_d2fe)
  {
    hide Block;
    var t, ws, bs := "l0c9aqvm", [31, 15, 24, 5] + [29, 0, 12, 27], [0xfb, 0xf0, 0x5e, 0x81, 0x9b];
    MainnetOne();
    MainnetTwo();
    Join(t, ws, bs, "vhm4ml8n", [12, 23, 27, 21] + [27, 31, 7, 19], [0x65, 0xf7, 0x5d, 0xfc, 0xf3], 0x3dfe_d0cc, 0x141e_55d6, 0x1ad0_cc6e);
    t, ws, bs := t + "vhm4ml8n", ws + ([12, 23, 27, 21] + [27, 31, 7, 19]), bs + [0x65, 0xf7, 0x5d, 0xfc, 0xf3];
    MainnetThree();
    Join(t, ws, bs, "rc7s0cez", [3, 24, 30, 16] + [15, 24, 25, 2], [0x1e, 0x3d, 0x07, 0xe3, 0x22], 0x3dfe_d0cc, 0x1ad0_cc6e, 0x15c6_0da5);
    t, ws, bs := t + "rc7s0cez", ws + ([3, 24, 30, 16] + [15, 24, 25, 2]), bs + [0x1e, 0x3d, 0x07, 0xe3, 0x22];
    MainnetFour();
    Join(t, ws, bs, "rgx3el67", [3, 8, 6, 17] + [25, 31, 26, 30], [0x1a, 0x0d, 0x1c, 0xff, 0x5e], 0x3dfe_d0cc, 0x15c6_0da5, 0x2c2c_77e7);
    t, ws, bs := t + "rgx3el67", ws + ([3, 8, 6, 17] + [25, 31, 26, 30]), bs + [0x1a, 0x0d, 0x1c, 0xff, 0x5e];
    MainnetFive();
    Join(t, ws, bs, "nwxeywpj", [19, 14, 6, 25] + [4, 14, 1, 18], [0x9b, 0x8d, 0x92, 0x38, 0x32], 0x3dfe_d0cc, 0x2c2c_77e7, 0x33c0_866c);
    t, ws, bs := t + "nwxeywpj", ws + ([19, 14, 6, 25] + [4, 14, 1, 18]), bs + [0x9b, 0x8d, 0x92, 0x38, 0x32];
    MainnetSix();
    Join(t, ws, bs, "cwl6a696", [24, 14, 31, 26] + [29, 26, 5, 26], [0xc3, 0xbf, 0xae, 0xe8, 0xba], 0x3dfe_d0cc, 0x33c0_866c, 0x00c9_d2fe);
  }

  lemma MainnetShape()
    ensures |MainnetWords()| == 48 && |MainnetBytes()| == 30 && MAINNET_PROGRAM == MainnetBytes() + [0xb8, 0x75]
  {
  }

  lemma MainnetEncoded()
    ensures EncodeSegwit("prl", 1, MAINNET_PROGRAM) == "prl" + ['1'] + (['p'] + MainnetText() + "hp6s" + "5p8jhf")
  {
    hide Block, CharsOf, Feed, Val, Polymod, EncodeSegwit, MainnetText, MainnetWords, MainnetBytes, MAINNET_PROGRAM, Bip350.Expanded;
    MainnetShape();
    MainnetStart();
    MainnetJoined();
    MainnetTail();
    MainnetSum();
    ValTail(23, 1, 26, 16, 0xb8, 0x75);
    Assembled("prl", MainnetText(), MainnetWords(), MainnetBytes(),
              0x3dfe_d0cc, 0x00c9_d2fe, [23, 1, 26, 16], [0xb8, 0x75], [20, 1, 7, 18] + [23, 9]);
  }

  lemma MainnetLiteral()
    ensures Preview.FeeAddress(Mainnet) == Some("prl" + ['1'] + (['p'] + MainnetText() + "hp6s" + "5p8jhf"))
  {
    Regrouped("prl1p", "l0c9aqvm", "vhm4ml8n", "rc7s0cez", "rgx3el67", "nwxeywpj", "cwl6a696");
    assert "prl1p" == "prl" + ['1'] + ['p'];
    Rest("prl" + ['1'], ['p'], MainnetText(), "hp6s", "5p8jhf");
  }

  lemma MainnetLength()
    ensures |MAINNET_PROGRAM| == 32
  {
  }

  /** The pinned mainnet address is valid, and pays this program. */
  lemma MainnetAddress()
    ensures Preview.FeeAddress(Mainnet) == Some(EncodeSegwit("prl", 1, MAINNET_PROGRAM))
    ensures ValidateAddress(Preview.FeeAddress(Mainnet).value, Mainnet) == Valid(Segwit("prl", 1, MAINNET_PROGRAM))
  {
    hide EncodeSegwit, ValidateAddress, MainnetText, Preview.FeeAddress, Trim, MAINNET_PROGRAM;
    MainnetLength();
    MainnetEncoded();
    MainnetLiteral();
    TaprootValid(Mainnet, MAINNET_PROGRAM);
  }

  // ---------------------------------------------------------------- regtest

  lemma RegtestStart()
    ensures Polymod(Bip350.Expanded("rprl") + [1]) == 0x0fcd_48a3
  {
    hide Feed, Flat;
    assert Bip350.Expanded("rprl") + [1] == [3, 3, 3, 3] + [0, 18, 16, 18] + [12, 1];
    RegtestPrefix();
    FeedConcat(1, [3, 3, 3, 3], [0, 18, 16, 18]);
    FeedConcat(1, [3, 3, 3, 3] + [0, 18, 16, 18], [12, 1]);
  }

  lemma RegtestPrefix()
    ensures Feed(1, [3, 3, 3, 3]) == 0x0011_8c63 && Feed(0x0011_8c63, [0, 18, 16, 18]) == 0x3dc6_d35f
    ensures Feed(0x3dc6_d35f, [12, 1]) == 0x0fcd_48a3
  {
    hide Feed;
    Four(0x0000_0001, 3, 0x0000_0023, 3, 0x0000_0463, 3, 0x0000_8c63, 3, 0x0011_8c63);
    Four(0x0011_8c63, 0, 0x0231_8c60, 18, 0x3d5b_dba0, 16, 0x04dc_b2e9, 18, 0x3dc6_d35f);
    Two(0x3dc6_d35f, 12, 0x177d_ad15, 1, 0x0fcd_48a3);
  }

  lemma RegtestOne()
    ensures Block("w53jtgez", [14, 20, 17, 18] + [11, 8, 25, 2], [0x75, 0x23, 0x25, 0xa3, 0x22], 0x0fcd_48a3, 0x29c0_d3b1)
  {
    hide Feed, Val, CharsOf;
    RegtestOneText();
    Four(0x0fcd_48a3, 14, 0x3a32_d44b, 20, 0x34c7_9652, 17, 0x29f4_1552, 18, 0x0a37_d11b);
    Four(0x0a37_d11b, 11, 0x2331_6d23, 8, 0x3753_9169, 25, 0x201e_a588, 2, 0x29c0_d3b1);
    ValEight(14, 20, 17, 18, 11, 8, 25, 2, 0x75, 0x23, 0x25, 0xa3, 0x22);
    Halves("w53jtgez", [14, 20, 17, 18], [11, 8, 25, 2], [0x75, 0x23, 0x25, 0xa3, 0x22], 0x0fcd_48a3, 0x0a37_d11b, 0x29c0_d3b1);
  }

  lemma RegtestOneText()
    ensures CharsOf([14, 20, 17, 18] + [11, 8, 25, 2]) == "w53jtgez"
  {
  }

  lemma RegtestTwo()
    ensures Block("0wf69n06", [15, 14, 9, 26] + [5, 19, 15, 26], [0x7b, 0x93, 0xa2, 0xcd, 0xfa], 0x29c0_d3b1, 0x2b2a_17d4)
  {
    hide Feed, Val, CharsOf;
    RegtestTwoText();
    Four(0x29c0_d3b1, 15, 0x0caf_0d66, 14, 0x2d10_3b59, 9, 0x30e2_9e0d, 26, 0x0b05_90d4);
    Four(0x0b05_90d4, 5, 0x0579_54cd, 19, 0x097a_17de, 15, 0x31e3_e235, 26, 0x2b2a_17d4);
    ValEight(15, 14, 9, 26, 5, 19, 15, 26, 0x7b, 0x93, 0xa2, 0xcd, 0xfa);
    Halves("0wf69n06", [15, 14, 9, 26], [5, 19, 15, 26], [0x7b, 0x93, 0xa2, 0xcd, 0xfa], 0x29c0_d3b1, 0x0b05_90d4, 0x2b2a_17d4);
  }

  lemma RegtestTwoText()
    ensures CharsOf([15, 14, 9, 26] + [5, 19, 15, 26]) == "0wf69n06"
  {
  }

  lemma RegtestThree()
    ensures Block("fchp0ctk", [9, 24, 23, 1] + [15, 24, 11, 22], [0x4e, 0x2e, 0x17, 0xe1, 0x76], 0x2b2a_17d4, 0x3bf1_e807)
  {
    hide Feed, Val, CharsOf;
    RegtestThreeText();
    Four(0x2b2a_17d4, 9, 0x2a9d_d672, 24, 0x1c65_e2a3, 23, 0x090f_f03d, 1, 0x3f5f_1e5b);
    Four(0x3f5f_1e5b, 15, 0x3f2e_5a24, 24, 0x3106_d5d3, 11, 0x378c_eb05, 22, 0x3bf1_e807);
    ValEight(9, 24, 23, 1, 15, 24, 11, 22, 0x4e, 0x2e, 0x17, 0xe1, 0x76);
    Halves("fchp0ctk", [9, 24, 23, 1], [15, 24, 11, 22], [0x4e, 0x2e, 0x17, 0xe1, 0x76], 0x2b2a_17d4, 0x3f5f_1e5b, 0x3bf1_e807);
  }

  lemma RegtestThreeText()
    ensures CharsOf([9, 24, 23, 1] + [15, 24, 11, 22]) == "fchp0ctk"
  {
  }

  lemma RegtestFour()
    ensures Block("48620zds", [21, 7, 26, 10] + [15, 2, 13, 16], [0xa9, 0xf4, 0xa7, 0x89, 0xb0], 0x3bf1_e807, 0x1e3b_df83)
  {
    hide Feed, Val, CharsOf;
    RegtestFourText();
    Four(0x3bf1_e807, 21, 0x0ca0_1fd3, 7, 0x2cf2_6df0, 26, 0x0ca8_4b3e, 10, 0x2df8_f05d);
    Four(0x2df8_f05d, 15, 0x2dfb_fe8b, 2, 0x2d9a_2446, 13, 0x21a1_7de9, 16, 0x1e3b_df83);
    ValEight(21, 7, 26, 10, 15, 2, 13, 16, 0xa9, 0xf4, 0xa7, 0x89, 0xb0);
    Halves("48620zds", [21, 7, 26, 10], [15, 2, 13, 16], [0xa9, 0xf4, 0xa7, 0x89, 0xb0], 0x3bf1_e807, 0x2df8_f05d, 0x1e3b_df83);
  }

  lemma RegtestFourText()
    ensures CharsOf([21, 7, 26, 10] + [15, 2, 13, 16]) == "48620zds"
  {
  }

  lemma RegtestFive()
    ensures Block("cnrj8heh", [24, 19, 3, 18] + [7, 23, 25, 23], [0xc4, 0xc7, 0x23, 0xdf, 0x37], 0x1e3b_df83, 0x29c8_0d67)
  {
    hide Feed, Val, CharsOf;
    RegtestFiveText();
    Four(0x1e3b_df83, 24, 0x39a2_0380, 19, 0x3db7_3887, 3, 0x1940_d61a, 18, 0x0bf9_e975);
    Four(0x0bf9_e975, 7, 0x1af6_60ef, 23, 0x0645_6062, 25, 0x1596_d586, 23, 0x29c8_0d67);
    ValEight(24, 19, 3, 18, 7, 23, 25, 23, 0xc4, 0xc7, 0x23, 0xdf, 0x37);
    Halves("cnrj8heh", [24, 19, 3, 18], [7, 23, 25, 23], [0xc4, 0xc7, 0x23, 0xdf, 0x37], 0x1e3b_df83, 0x0bf9_e975, 0x29c8_0d67);
  }

  lemma RegtestFiveText()
    ensures CharsOf([24, 19, 3, 18] + [7, 23, 25, 23]) == "cnrj8heh"
  {
  }

  lemma RegtestSix()
    ensures Block("86wykp9m", [7, 26, 14, 4] + [22, 1, 5, 27], [0x3e, 0x9c, 0x4b, 0x04, 0xbb], 0x29c8_0d67, 0x1e6e_f42b)
  {
    hide Feed, Val, CharsOf;
    RegtestSixText();
    Four(0x29c8_0d67, 7, 0x0db4_d7ae, 26, 0x0e6b_624d, 14, 0x0ef7_898b, 4, 0x1d6a_f141);
    Four(0x1d6a_f141, 22, 0x28ed_8c7c, 1, 0x2904_f4c8, 5, 0x142b_e24c, 27, 0x1e6e_f42b);
    ValEight(7, 26, 14, 4, 22, 1, 5, 27, 0x3e, 0x9c, 0x4b, 0x04, 0xbb);
    Halves("86wykp9m", [7, 26, 14, 4], [22, 1, 5, 27], [0x3e, 0x9c, 0x4b, 0x04, 0xbb], 0x29c8_0d67, 0x1d6a_f141, 0x1e6e_f42b);
  }

  lemma RegtestSixText()
    ensures CharsOf([7, 26, 14, 4] + [22, 1, 5, 27]) == "86wykp9m"
  {
  }

  lemma RegtestTail()
    ensures CharsOf([12, 10, 15, 0]) == "v20q" && CharsOf([13, 24, 28, 15] + [11, 7]) == "dcu0t8"
  {
  }

  lemma RegtestSum()
    ensures Feed(0x1e6e_f42b, [12, 10, 15, 0] + ([13, 24, 28, 15] + [11, 7])) == BECH32M_CONST
  {
    hide Feed;
    Four(0x1e6e_f42b, 12, 0x3307_7694, 10, 0x0cd2_d456, 15, 0x22ab_1d58, 0, 0x041d_9e01);
    Four(0x041d_9e01, 13, 0x25e3_4e40, 24, 0x302d_24c6, 28, 0x12f2_c9b2, 15, 0x1871_5220);
    Two(0x1871_5220, 11, 0x2dc9_6e2c, 7, 0x2bc8_30a3);
    FeedConcat(0x041d_9e01, [13, 24, 28, 15], [11, 7]);
    FeedConcat(0x1e6e_f42b, [12, 10, 15, 0], [13, 24, 28, 15] + [11, 7]);
  }

  const REGTEST_PROGRAM: bytes :=
    [0x75, 0x23, 0x25, 0xa3, 0x22]
    + [0x7b, 0x93, 0xa2, 0xcd, 0xfa]
    + [0x4e, 0x2e, 0x17, 0xe1, 0x76]
    + [0xa9, 0xf4, 0xa7, 0x89, 0xb0]
    + [0xc4, 0xc7, 0x23, 0xdf, 0x37]
    + [0x3e, 0x9c, 0x4b, 0x04, 0xbb]
    + [0x62, 0x9e]

  function RegtestText(): string { "w53jtgez" + "0wf69n06" + "fchp0ctk" + "48620zds" + "cnrj8heh" + "86wykp9m" }

  function RegtestWords(): seq<word> {
    [14, 20, 17, 18] + [11, 8, 25, 2]
    + ([15, 14, 9, 26] + [5, 19, 15, 26])
    + ([9, 24, 23, 1] + [15, 24, 11, 22])
    + ([21, 7, 26, 10] + [15, 2, 13, 16])
    + ([24, 19, 3, 18] + [7, 23, 25, 23])
    + ([7, 26, 14, 4] + [22, 1, 5, 27])
  }

  function RegtestBytes(): bytes {
    [0x75, 0x23, 0x25, 0xa3, 0x22]
    + [0x7b, 0x93, 0xa2, 0xcd, 0xfa]
    + [0x4e, 0x2e, 0x17, 0xe1, 0x76]
    + [0xa9, 0xf4, 0xa7, 0x89, 0xb0]
    + [0xc4, 0xc7, 0x23, 0xdf, 0x37]
    + [0x3e, 0x9c, 0x4b, 0x04, 0xbb]
  }

  lemma RegtestJoined()
    ensures Block(RegtestText(), RegtestWords(), RegtestBytes(), 0x0fcd_48a3, 0x1e6e_f42b)
  {
    hide Block;
    var t, ws, bs := "w53jtgez", [14, 20, 17, 18] + [11, 8, 25, 2], [0x75, 0x23, 0x25, 0xa3, 0x22];
    RegtestOne();
    RegtestTwo();
    Join(t, ws, bs, "0wf69n06", [15, 14, 9, 26] + [5, 19, 15, 26], [0x7b, 0x93, 0xa2, 0xcd, 0xfa], 0x0fcd_48a3, 0x29c0_d3b1, 0x2b2a_17d4);
    t, ws, bs := t + "0wf69n06", ws + ([15, 14, 9, 26] + [5, 19, 15, 26]), bs + [0x7b, 0x93, 0xa2, 0xcd, 0xfa];
    RegtestThree();
    Join(t, ws, bs, "fchp0ctk", [9, 24, 23, 1] + [15, 24, 11, 22], [0x4e, 0x2e, 0x17, 0xe1, 0x76], 0x0fcd_48a3, 0x2b2a_17d4, 0x3bf1_e807);
    t, ws, bs := t + "fchp0ctk", ws + ([9, 24, 23, 1] + [15, 24, 11, 22]), bs + [0x4e, 0x2e, 0x17, 0xe1, 0x76];
    RegtestFour();
    Join(t, ws, bs, "48620zds", [21, 7, 26, 10] + [15, 2, 13, 16], [0xa9, 0xf4, 0xa7, 0x89, 0xb0], 0x0fcd_48a3, 0x3bf1_e807, 0x1e3b_df83);
    t, ws, bs := t + "48620zds", ws + ([21, 7, 26, 10] + [15, 2, 13, 16]), bs + [0xa9, 0xf4, 0xa7, 0x89, 0xb0];
    RegtestFive();
    Join(t, ws, bs, "cnrj8heh", [24, 19, 3, 18] + [7, 23, 25, 23], [0xc4, 0xc7, 0x23, 0xdf, 0x37], 0x0fcd_48a3, 0x1e3b_df83, 0x29c8_0d67);
    t, ws, bs := t + "cnrj8heh", ws + ([24, 19, 3, 18] + [7, 23, 25, 23]), bs + [0xc4, 0xc7, 0x23, 0xdf, 0x37];
    RegtestSix();
    Join(t, ws, bs, "86wykp9m", [7, 26, 14, 4] + [22, 1, 5, 27], [0x3e, 0x9c, 0x4b, 0x04, 0xbb], 0x0fcd_48a3, 0x29c8_0d67, 0x1e6e_f42b);
  }

  lemma RegtestShape()
    ensures |RegtestWords()| == 48 && |RegtestBytes()| == 30 && REGTEST_PROGRAM == RegtestBytes() + [0x62, 0x9e]
  {
  }

  lemma RegtestEncoded()
    ensures EncodeSegwit("rprl", 1, REGTEST_PROGRAM) == "rprl" + ['1'] + (['p'] + RegtestText() + "v20q" + "dcu0t8")
  {
    hide Block, CharsOf, Feed, Val, Polymod, EncodeSegwit, RegtestText, RegtestWords, RegtestBytes, REGTEST_PROGRAM, Bip350.Expanded;
    RegtestShape();
    RegtestStart();
    RegtestJoined();
    RegtestTail();
    RegtestSum();
    ValTail(12, 10, 15, 0, 0x62, 0x9e);
    Assembled("rprl", RegtestText(), RegtestWords(), RegtestBytes(),
              0x0fcd_48a3, 0x1e6e_f42b, [12, 10, 15, 0], [0x62, 0x9e], [13, 24, 28, 15] + [11, 7]);
  }

  lemma RegtestLiteral()
    ensures Preview.FeeAddress(Regtest) == Some("rprl" + ['1'] + (['p'] + RegtestText() + "v20q" + "dcu0t8"))
  {
    Regrouped("rprl1p", "w53jtgez", "0wf69n06", "fchp0ctk", "48620zds", "cnrj8heh", "86wykp9m");
    assert "rprl1p" == "rprl" + ['1'] + ['p'];
    Rest("rprl" + ['1'], ['p'], RegtestText(), "v20q", "dcu0t8");
  }

  lemma RegtestLength()
    ensures |REGTEST_PROGRAM| == 32
  {
  }

  /** The pinned regtest address is valid, and pays this program. */
  lemma RegtestAddress()
    ensures Preview.FeeAddress(Regtest) == Some(EncodeSegwit("rprl", 1, REGTEST_PROGRAM))
    ensures ValidateAddress(Preview.FeeAddress(Regtest).value, Regtest) == Valid(Segwit("rprl", 1, REGTEST_PROGRAM))
  {
    hide EncodeSegwit, ValidateAddress, RegtestText, Preview.FeeAddress, Trim, REGTEST_PROGRAM;
    RegtestLength();
    RegtestEncoded();
    RegtestLiteral();
    TaprootValid(Regtest, REGTEST_PROGRAM);
  }
}
