/**
  * The bech32m decoder of bech32m.ts (BIP-173, BIP-350): checksum register, prefix
  * expansion, character parse and witness parse, as pure functions and as the loops
  * that compute them.
  */
module Bech32m {
  import opened Wrappers
  import opened Numerals
  import opened Ascii
  import Hex
  import Regroup

  const CHARSET: string := "qpzry9x8gf2tvdw0s3jn54khce6mua7l"
  const BECH32M_CONST: bv32 := 0x2bc830a3

  /** The exclusive or of the register, named so that proofs can treat it as a symbol. */
  function Xor(a: bv32, b: bv32): bv32 { a ^ b }

  function Bits(v: word): bv32 { v as bv32 }

  /** The generator that bit `i` of the register's top five bits switches in. */
  function Generator(i: nat): bv32
    requires i < 5
  {
    if i == 0 then 0x3b6a57b2
    else if i == 1 then 0x26508e6d
    else if i == 2 then 0x1ea119fa
    else if i == 3 then 0x3d4233dd
    else 0x2a1462b3
  }

  predicate TopBit(top: bv32, i: nat)
    requires i < 5
  {
    (top >> i) & 1 != 0
  }

  /** One conditional update of the inner loop. */
  function Tap(chk: bv32, top: bv32, i: nat): bv32
    requires i < 5
  {
    if TopBit(top, i) then Xor(chk, Generator(i)) else chk
  }

  /** The first `n` conditional updates of the inner loop. */
  function Tapped(chk: bv32, top: bv32, n: nat): bv32
    requires n <= 5
  {
    if n == 0 then chk
    else if n == 1 then Tap(chk, top, 0)
    else if n == 2 then Tap(Tap(chk, top, 0), top, 1)
    else if n == 3 then Tap(Tap(Tap(chk, top, 0), top, 1), top, 2)
    else if n == 4 then Tap(Tap(Tap(Tap(chk, top, 0), top, 1), top, 2), top, 3)
    else Tap(Tap(Tap(Tap(Tap(chk, top, 0), top, 1), top, 2), top, 3), top, 4)
  }

  function Top(chk: bv32): bv32 { chk >> 25 }

  function Base(chk: bv32, v: bv32): bv32 { Xor((chk & 0x1ffffff) << 5, v) }

  /** One step of the checksum register. */
  function Step(chk: bv32, v: bv32): bv32 {
    Tapped(Base(chk, v), Top(chk), 5)
  }

  /** The register after reading `values`, starting from `chk`. */
  function Feed(chk: bv32, values: seq<word>): bv32 {
    if values == [] then chk
    else Step(Feed(chk, values[..|values| - 1]), Bits(values[|values| - 1]))
  }

  function Polymod(values: seq<word>): bv32 { Feed(1, values) }

  method ComputePolymod(values: seq<word>) returns (chk: bv32)
    ensures chk == Polymod(values)
  {
    chk := 1;
    for k := 0 to |values|
      invariant chk == Feed(1, values[..k])
    {
      hide Tap, Tapped, Generator, Xor, Bits, TopBit, Top;
      var v := values[k];
      var top := Top(chk);
      ghost var base := Base(chk, Bits(v));
      ghost var next := Step(chk, Bits(v));
      chk := Xor((chk & 0x1ffffff) << 5, Bits(v));
      for i := 0 to 5
        invariant chk == Tapped(base, top, i)
      {
        TappedNext(base, top, i, chk);
        if TopBit(top, i) {
          chk := Xor(chk, Generator(i));
        }
      }
      assert values[..k + 1][..k] == values[..k];
    }
    assert values[..|values|] == values;
  }

  lemma TappedNext(base: bv32, top: bv32, n: nat, chk: bv32)
    requires n < 5 && chk == Tapped(base, top, n)
    ensures Tapped(base, top, n + 1) == if TopBit(top, n) then Xor(chk, Generator(n)) else chk
  {
    TapIs(chk, top, n);
  }

  lemma TapIs(chk: bv32, top: bv32, n: nat)
    requires n < 5
    ensures Tap(chk, top, n) == if TopBit(top, n) then Xor(chk, Generator(n)) else chk
  {
    hide Generator;
  }

  lemma TapXor(chk: bv32, chk': bv32, e: bv32, top: bv32, i: nat)
    requires i < 5 && chk' == Xor(chk, e)
    ensures Tap(chk', top, i) == Xor(Tap(chk, top, i), e)
  {
    hide Generator, Xor;
    XorSwap(chk, e, Generator(i));
  }

  lemma XorNested(a: bv32, b: bv32, c: bv32)
    ensures Xor(Xor(a, b), c) == a ^ b ^ c
  {
  }

  lemma XorSwap(a: bv32, e: bv32, g: bv32)
    ensures Xor(Xor(a, e), g) == Xor(Xor(a, g), e)
  {
    hide Xor;
    XorNested(a, e, g);
    XorNested(a, g, e);
  }

  lemma TappedXor(chk: bv32, chk': bv32, e: bv32, top: bv32)
    requires chk' == Xor(chk, e)
    ensures Tapped(chk', top, 5) == Xor(Tapped(chk, top, 5), e)
  {
    hide Tap, Xor;
    TapXor(chk, chk', e, top, 0);
    var c1, d1 := Tap(chk, top, 0), Tap(chk', top, 0);
    TapXor(c1, d1, e, top, 1);
    var c2, d2 := Tap(c1, top, 1), Tap(d1, top, 1);
    TapXor(c2, d2, e, top, 2);
    var c3, d3 := Tap(c2, top, 2), Tap(d2, top, 2);
    TapXor(c3, d3, e, top, 3);
    TapXor(Tap(c3, top, 3), Tap(d3, top, 3), e, top, 4);
  }

  lemma TapsDistinct(s: bv32, t: bv32)
    requires s < 32 && t < 32 && Tapped(0, s, 5) & 31 == Tapped(0, t, 5) & 31
    ensures s == t
  {
  }

  // ---------------------------------------------------------------- decoder

  datatype Raw = Raw(hrp: Text, words: seq<word>)

  datatype Segwit = Segwit(hrp: Text, witnessVersion: nat, program: Hex.bytes)
  {
    function ProgramHex(): string { Hex.ToHex(program) }
  }

  function HighHalf(s: Text): seq<word> {
    seq(|s|, i requires 0 <= i < |s| => s[i] as int / 32)
  }

  function LowHalf(s: Text): seq<word> {
    seq(|s|, i requires 0 <= i < |s| => s[i] as int % 32)
  }

  function HrpExpand(hrp: Text): seq<word> {
    HighHalf(hrp) + [0] + LowHalf(hrp)
  }

  method ComputeHrpExpand(hrp: Text) returns (out: seq<word>)
    ensures out == HrpExpand(hrp)
  {
    out := [];
    for i := 0 to |hrp|
      invariant out == HighHalf(hrp)[..i]
    {
      out := out + [hrp[i] as int / 32];
    }
    out := out + [0];
    for i := 0 to |hrp|
      invariant out == HighHalf(hrp) + [0] + LowHalf(hrp)[..i]
    {
      out := out + [hrp[i] as int % 32];
    }
  }

  /** The first index of `c` in `s`, or -1. */
  function IndexOf(s: string, c: char): (k: int)
    ensures -1 <= k < |s|
    ensures k >= 0 ==> s[k] == c && c !in s[..k]
    ensures k < 0 ==> c !in s
  {
    if s == [] then -1
    else if s[0] == c then 0
    else var k := IndexOf(s[1..], c); if k < 0 then -1 else k + 1
  }

  /** The last index of `c` in `s`, or -1. */
  function LastIndexOf(s: string, c: char): (k: int)
    ensures -1 <= k < |s|
    ensures k >= 0 ==> s[k] == c && c !in s[k + 1..]
    ensures k < 0 ==> c !in s
  {
    if s == [] then -1
    else if s[|s| - 1] == c then |s| - 1
    else LastIndexOf(s[..|s| - 1], c)
  }

  lemma LastIndexUnique(s: string, c: char, k: nat)
    requires k < |s| && s[k] == c && c !in s[k + 1..]
    ensures LastIndexOf(s, c) == k
  {
  }

  predicate InCharset(s: string) {
    forall i :: 0 <= i < |s| ==> s[i] in CHARSET
  }

  function WordOf(c: char): word
    requires c in CHARSET
  {
    IndexOf(CHARSET, c)
  }

  function WordsOf(s: string): (ws: seq<word>)
    requires InCharset(s)
    ensures |ws| == |s|
  {
    seq(|s|, i requires 0 <= i < |s| => WordOf(s[i]))
  }

  /** Decode a bech32m string and verify its checksum; None is the code's null. */
  function DecodeRaw(addr: Text): Option<Raw> {
    if !SingleCase(addr) then None else
    var lower := Lower(addr);
    if |lower| < 8 || |lower| > 90 then None else
    var sep := LastIndexOf(lower, '1');
    if sep < 1 || sep + 7 > |lower| then None else
    var hrp, dataPart := lower[..sep], lower[sep + 1..];
    if !InCharset(dataPart) then None else
    var data := WordsOf(dataPart);
    if Polymod(HrpExpand(hrp) + data) != BECH32M_CONST then None
    else Some(Raw(hrp, data[..|data| - 6]))
  }

  lemma CharsetSize()
    ensures |CHARSET| == 32
  {
  }

  /** The character loop of `decodeRaw`. */
  method ParseWords(dataPart: string) returns (r: Option<seq<word>>)
    ensures r == if InCharset(dataPart) then Some(WordsOf(dataPart)) else None
  {
    hide CHARSET, IndexOf;
    CharsetSize();
    var data: seq<word> := [];
    for k := 0 to |dataPart|
      invariant InCharset(dataPart[..k]) && data == WordsOf(dataPart[..k])
    {
      var idx := IndexOf(CHARSET, dataPart[k]);
      if idx == -1 {
        return None;
      }
      data := data + [idx];
    }
    assert dataPart[..|dataPart|] == dataPart;
    r := Some(data);
  }

  method ComputeDecodeRaw(addr: Text) returns (r: Option<Raw>)
    ensures r == DecodeRaw(addr)
  {
    hide Feed, HrpExpand, WordsOf, InCharset, LastIndexOf;
    if addr != Lower(addr) && addr != Upper(addr) {
      return None;
    }
    var lower := Lower(addr);
    if |lower| < 8 || |lower| > 90 {
      return None;
    }
    var sep := LastIndexOf(lower, '1');
    if sep < 1 || sep + 7 > |lower| {
      return None;
    }
    var hrp, dataPart := lower[..sep], lower[sep + 1..];
    var data := ParseWords(dataPart);
    if data.None? {
      return None;
    }
    var expanded := ComputeHrpExpand(hrp);
    var chk := ComputePolymod(expanded + data.value);
    if chk != BECH32M_CONST {
      return None;
    }
    r := Some(Raw(hrp, data.value[..|data.value| - 6]));
  }

  /** `convertBits(words, 5, 8, false)`: whole bytes, fewer than five spare zero bits. */
  function WordsToBytes(words: seq<word>): Option<Hex.bytes> {
    var n, rest := |words| * 5 / 8, |words| * 5 % 8;
    var value := Val(words, 5);
    if rest >= 5 || Low(value, rest) != 0 then None
    else Some(Digits(Shr(value, rest), 8, n))
  }

  /** A segwit address: witness version and program; None is the code's null. */
  function DecodeSegwit(addr: Text): Option<Segwit> {
    match DecodeRaw(addr)
    case None => None
    case Some(Raw(hrp, words)) =>
      if words == [] then None
      else if words[0] < 1 || words[0] > 16 then None
      else match WordsToBytes(words[1..])
        case None => None
        case Some(program) =>
          if |program| < 2 || |program| > 40 then None
          else Some(Segwit(hrp, words[0], program))
  }

  method ComputeDecodeSegwit(addr: Text) returns (r: Option<Segwit>)
    ensures r == DecodeSegwit(addr)
  {
    hide DecodeRaw, WordsToBytes, Regroup.Regrouped;
    var raw := ComputeDecodeRaw(addr);
    if raw.None? {
      return None;
    }
    var Raw(hrp, words) := raw.value;
    if |words| == 0 {
      return None;
    }
    var witnessVersion := words[0];
    if witnessVersion < 1 || witnessVersion > 16 {
      return None;
    }
    var rest := words[1..];
    var groups := Regroup.ConvertBits(rest, 5, 8, false, |rest| * 5 / 8, |rest| * 5 % 8);
    RegroupedWords(rest);
    if groups.None? {
      return None;
    }
    var program: Hex.bytes := groups.value;
    if |program| < 2 || |program| > 40 {
      return None;
    }
    r := Some(Segwit(hrp, witnessVersion, program));
  }

  lemma Powers()
    ensures Pow2(5) == 32 && Pow2(8) == 256
  {
  }

  lemma RegroupedWords(words: seq<word>)
    ensures Regroup.Regrouped(words, 5, 8, false, |words| * 5 / 8, |words| * 5 % 8) == WordsToBytes(words)
  {
    hide Val, Low, Shr, Digits, Pow2;
    Powers();
  }
}
