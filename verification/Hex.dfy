/**
  * Bytes and their hexadecimal text: `bytesToHex`, `hexToBytes` and `reverseBytes` of
  * serialize.ts, which transaction.ts and the signing adapter repeat.
  */
module Hex {
  import opened Wrappers

  type byte = b: nat | b < 256
  type bytes = seq<byte>

  function HexDigit(n: nat): char
    requires n < 16
  {
    if n < 10 then ('0' as int + n) as char else ('a' as int + n - 10) as char
  }

  /** The value of a hexadecimal digit in either case; -1 for any other character. */
  function DigitValue(c: char): (v: int)
    ensures -1 <= v < 16
  {
    if '0' <= c <= '9' then c as int - '0' as int
    else if 'a' <= c <= 'f' then c as int - 'a' as int + 10
    else if 'A' <= c <= 'F' then c as int - 'A' as int + 10
    else -1
  }

  predicate IsHex(s: string) {
    |s| % 2 == 0 && forall i :: 0 <= i < |s| ==> DigitValue(s[i]) >= 0
  }

  function HexOfByte(b: byte): string { [HexDigit(b / 16), HexDigit(b % 16)] }

  function ToHex(bs: bytes): (s: string)
    ensures |s| == 2 * |bs|
  {
    if bs == [] then "" else ToHex(bs[..|bs| - 1]) + HexOfByte(bs[|bs| - 1])
  }

  /** The byte written at digits `2 * i` and `2 * i + 1`. */
  function ByteAt(s: string, i: nat): byte
    requires IsHex(s) && 2 * i + 1 < |s|
  {
    16 * DigitValue(s[2 * i]) + DigitValue(s[2 * i + 1])
  }

  /** `hexToBytes`: None is its thrown error. */
  function FromHex(s: string): (r: Option<bytes>)
    ensures r.Some? <==> IsHex(s)
    ensures r.Some? ==> |s| == 2 * |r.value|
  {
    if !IsHex(s) then None
    else Some(seq(|s| / 2, i requires 0 <= i < |s| / 2 => ByteAt(s, i)))
  }

  /** Lower-case text of whole bytes: the form in which transaction ids are kept. */
  predicate IsLowerHex(s: string) {
    IsHex(s) && forall i :: 0 <= i < |s| ==> !('A' <= s[i] <= 'F')
  }

  lemma DigitRoundTrip(n: nat)
    requires n < 16
    ensures DigitValue(HexDigit(n)) == n
    ensures !('A' <= HexDigit(n) <= 'F')
  {
  }

  /** The sixteen digits, and their values in either case. */
  lemma DigitAlphabet(n: nat)
    requires n < 16
    ensures HexDigit(n) == "0123456789abcdef"[n]
    ensures DigitValue("0123456789abcdef"[n]) == DigitValue("0123456789ABCDEF"[n]) == n
  {
  }

  lemma {:induction false} ToHexDigits(bs: bytes, i: nat)
    requires i < |bs|
    ensures ToHex(bs)[2 * i] == HexDigit(bs[i] / 16) && ToHex(bs)[2 * i + 1] == HexDigit(bs[i] % 16)
  {
    var k := |bs| - 1;
    if i < k {
      ToHexDigits(bs[..k], i);
    }
  }

  lemma ToHexIsLowerHex(bs: bytes)
    ensures IsLowerHex(ToHex(bs))
  {
    forall j | 0 <= j < |ToHex(bs)|
      ensures DigitValue(ToHex(bs)[j]) >= 0 && !('A' <= ToHex(bs)[j] <= 'F')
    {
      var b := bs[j / 2];
      ToHexDigits(bs, j / 2);
      DigitRoundTrip(b / 16);
      DigitRoundTrip(b % 16);
    }
  }

  /** Parsing the text of any bytes gives those bytes back. */
  lemma FromToHex(bs: bytes)
    ensures FromHex(ToHex(bs)) == Some(bs)
  {
    ToHexIsLowerHex(bs);
    forall i | 0 <= i < |bs|
      ensures ByteAt(ToHex(bs), i) == bs[i]
    {
      ToHexDigits(bs, i);
      DigitRoundTrip(bs[i] / 16);
      DigitRoundTrip(bs[i] % 16);
    }
    assert FromHex(ToHex(bs)).value == bs;
  }

  lemma ToHexInjective(xs: bytes, ys: bytes)
    requires ToHex(xs) == ToHex(ys)
    ensures xs == ys
  {
    FromToHex(xs);
    FromToHex(ys);
  }

  /** Printing what was parsed from lower-case text gives the text back. */
  lemma ToFromHex(s: string)
    requires IsLowerHex(s)
    ensures ToHex(FromHex(s).value) == s
  {
    var bs := FromHex(s).value;
    forall j | 0 <= j < |s|
      ensures ToHex(bs)[j] == s[j]
    {
      DigitsAgree(s, bs, j / 2);
    }
  }

  lemma DigitsAgree(s: string, bs: bytes, i: nat)
    requires IsLowerHex(s) && FromHex(s) == Some(bs) && i < |bs|
    ensures ToHex(bs)[2 * i] == s[2 * i] && ToHex(bs)[2 * i + 1] == s[2 * i + 1]
  {
    hide ToHex, DigitValue, HexDigit;
    ToHexDigits(bs, i);
    assert bs[i] == ByteAt(s, i);
    LowerDigitText(s[2 * i]);
    LowerDigitText(s[2 * i + 1]);
  }

  lemma LowerDigitText(c: char)
    requires DigitValue(c) >= 0 && !('A' <= c <= 'F')
    ensures HexDigit(DigitValue(c)) == c
  {
  }

  function Reverse<T>(xs: seq<T>): (ys: seq<T>)
    ensures |ys| == |xs|
    ensures forall i :: 0 <= i < |xs| ==> ys[i] == xs[|xs| - 1 - i]
  {
    seq(|xs|, i requires 0 <= i < |xs| => xs[|xs| - 1 - i])
  }

  lemma ReverseTwice<T>(xs: seq<T>)
    ensures Reverse(Reverse(xs)) == xs
  {
    var ys := Reverse(xs);
    assert forall i :: 0 <= i < |xs| ==> Reverse(ys)[i] == ys[|xs| - 1 - i];
  }

  method BytesToHex(bs: bytes) returns (s: string)
    ensures s == ToHex(bs)
  {
    s := "";
    for i := 0 to |bs|
      invariant s == ToHex(bs[..i])
    {
      assert bs[..i + 1][..i] == bs[..i];
      s := s + HexOfByte(bs[i]);
    }
    assert bs[..|bs|] == bs;
  }

  method HexToBytes(hex: string) returns (r: Option<bytes>)
    ensures r == FromHex(hex)
  {
    if !IsHex(hex) {
      return None;
    }
    var out := new byte[|hex| / 2];
    for i := 0 to out.Length
      invariant forall j :: 0 <= j < i ==> out[j] == ByteAt(hex, j)
    {
      out[i] := ByteAt(hex, i);
    }
    assert out[..] == FromHex(hex).value;
    r := Some(out[..]);
  }

  method ReverseBytes(b: array<byte>) returns (out: array<byte>)
    ensures fresh(out) && out[..] == Reverse(b[..])
  {
    out := new byte[b.Length];
    for i := 0 to b.Length
      invariant forall j :: 0 <= j < i ==> out[j] == b[b.Length - 1 - j]
    {
      out[i] := b[b.Length - 1 - i];
    }
  }
}
