/**
  * `convertBits` of bech32m.ts: regrouping of bits through a 32-bit accumulator that
  * wraps around, proved equal to regrouping one unbounded number.
  */
module Regroup {
  import opened Wrappers
  import opened Numerals

  /** A JavaScript number holding a signed 32-bit integer. */
  type int32 = x: int | -0x8000_0000 <= x < 0x8000_0000

  const WORD_BITS: nat := 32

  /** The wrap-around of a 32-bit operator: the low 32 bits, read as a signed number. */
  function ToInt32(x: int): int {
    Signed(x, WORD_BITS)
  }

  function Signed(x: int, w: nat): int
  {
    var low := Low(x, w);
    if 2 * low < Pow2(w) then low else low - Pow2(w)
  }

  predicate AllFit(data: seq<int>, width: nat) {
    forall i :: 0 <= i < |data| ==> 0 <= data[i] < Pow2(width)
  }

  /** `len` bits make `count` whole groups of `width` bits and leave `rest` bits over. */
  predicate Splits(len: nat, width: nat, count: nat, rest: nat) {
    len == count * width + rest && rest < width
  }

  lemma SplitsUnique(len: nat, width: nat, n: nat, r: nat, n': nat, r': nat)
    requires Splits(len, width, n, r) && Splits(len, width, n', r')
    ensures n == n' && r == r'
  {
    QuotientUnique(width, n, r, n', r');
  }

  /**
    * What regrouping means: read all the input bits as one number; without padding its
    * last `rest` bits must be zero and fewer than an input group, and are dropped; with
    * padding they are completed by zeros.
    */
  function Regrouped(data: seq<int>, fromBits: nat, toBits: nat, pad: bool, count: nat, rest: nat)
    : Option<seq<nat>>
    requires rest < toBits
  {
    if !AllFit(data, fromBits) then None else
    var value := Val(data, fromBits);
    if pad then
      if rest == 0 then Some(Digits(value, toBits, count))
      else Some(Digits(value * Pow2(toBits - rest), toBits, count + 1))
    else if rest >= fromBits || Low(value, rest) != 0 then None
    else Some(Digits(Shr(value, rest), toBits, count))
  }

  lemma {:induction false} LowLow(v: int, m: nat, n: nat)
    requires n <= m
    ensures Low(Low(v, m), n) == Low(v, n)
    decreases n
  {
    if n > 0 {
      LowLow(v / 2, m - 1, n - 1);
    }
  }

  lemma {:induction false} LowShr(v: int, b: nat, t: nat)
    ensures Low(Shr(v, b), t) == Shr(Low(v, b + t), b)
    decreases b
  {
    if b > 0 {
      LowShr(v / 2, b - 1, t);
    }
  }

  lemma ShrZero(v: int)
    ensures Shr(v, 0) == v && Low(v, 0) == 0
  {
  }

  lemma LowOfSmall(v: nat, n: nat)
    requires v < Pow2(n)
    ensures Low(v, n) == v && Shr(v, n) == 0
  {
    ShrUnique(v, n, 0, v);
  }

  /** Shifting left and filling the freed bits. */
  lemma LowShl(x: int, f: nat, v: nat, n: nat)
    requires f <= n && v < Pow2(f)
    ensures Low(x * Pow2(f) + v, n) == Low(x, n - f) * Pow2(f) + v
  {
    hide Low, Shr, Pow2, Val;
    var m := n - f;
    Pow2Add(m, f);
    ShrLow(x, m);
    var q, r := Shr(x, m), Low(x, m);
    MulSplit(q, Pow2(m), r, Pow2(f));
    MulMono(r + 1, Pow2(m), Pow2(f));
    MulSucc(r, Pow2(f));
    ShrUnique(x * Pow2(f) + v, n, q, r * Pow2(f) + v);
  }

  lemma SignedLow(x: int, w: nat)
    ensures Low(Signed(x, w), w) == Low(x, w)
  {
    var low := Low(x, w);
    if 2 * low < Pow2(w) {
      LowOfSmall(low, w);
    } else {
      ShrUnique(low - Pow2(w), w, -1, low);
    }
  }

  /** The bits that the code extracts do not depend on what the wrap-around lost. */
  lemma ExtractAgrees(acc: int, value: int, shift: nat, width: nat, w: nat)
    requires Low(acc, w) == Low(value, w)
    requires shift + width <= w
    ensures Low(Shr(acc, shift), width) == Low(Shr(value, shift), width)
  {
    hide Low, Shr, Pow2, Val;
    LowShr(acc, shift, width);
    LowShr(value, shift, width);
    LowLow(acc, w, shift + width);
    LowLow(value, w, shift + width);
  }

  /** One accumulator step, wrapped and unbounded, keeps the low bits equal. */
  lemma PushAgrees(acc: int, value: int, f: nat, v: nat, w: nat)
    requires Low(acc, w) == Low(value, w) && f <= w && v < Pow2(f)
    ensures Low(Signed(acc * Pow2(f), w) + v, w) == Low(value * Pow2(f) + v, w)
  {
    hide Low, Shr, Pow2, Val;
    LowShl(acc, f, 0, w);
    LowShl(value, f, v, w);
    LowLow(acc, w, w - f);
    LowLow(value, w, w - f);
    var shifted, low := Signed(acc * Pow2(f), w), Low(value, w - f) * Pow2(f);
    SignedLow(acc * Pow2(f), w);
    assert acc * Pow2(f) + 0 == acc * Pow2(f);
    assert Low(shifted, w) == low;
    ShrLow(shifted, w);
    ShrUnique(shifted + v, w, Shr(shifted, w), low + v);
  }

  /** Emitting one more group extends the numeral by exactly the next bits. */
  lemma EmitGroup(value: nat, bits: nat, toBits: nat, out: seq<nat>)
    requires Val(out, toBits) == Shr(value, bits + toBits)
    ensures Val(out + [Low(Shr(value, bits), toBits)], toBits) == Shr(value, bits)
  {
    hide Low, Shr, Pow2, Val;
    ShrShr(value, bits, toBits);
    ShrLow(Shr(value, bits), toBits);
    ValSnoc(out, Low(Shr(value, bits), toBits), toBits);
  }

  lemma PushShifts(value: nat, f: nat, v: nat, bits: nat)
    requires v < Pow2(f)
    ensures Shr(value * Pow2(f) + v, bits + f) == Shr(value, bits)
  {
    hide Low, Shr, Pow2, Val;
    ShrUnique(value * Pow2(f) + v, f, value, v);
    ShrShr(value * Pow2(f) + v, f, bits);
  }

  lemma NotFit(data: seq<int>, width: nat, k: nat)
    requires k < |data| && (data[k] < 0 || Shr(data[k], width) != 0)
    ensures !AllFit(data, width)
  {
    if 0 <= data[k] < Pow2(width) {
      LowOfSmall(data[k], width);
    }
  }

  lemma DoesFit(v: int, width: nat)
    requires v >= 0 && Shr(v, width) == 0
    ensures v < Pow2(width)
  {
    ShrLow(v, width);
  }

  method ConvertBits(data: seq<int32>, fromBits: nat, toBits: nat, pad: bool, ghost count: nat, ghost rest: nat)
    returns (r: Option<seq<nat>>)
    requires 1 <= fromBits && 1 <= toBits && fromBits + toBits <= WORD_BITS
    requires Splits(|data| * fromBits, toBits, count, rest)
    ensures r == Regrouped(data, fromBits, toBits, pad, count, rest)
  {
    hide Low, Shr, Pow2, Val, Holds, Digits;
    var acc := 0;
    var bits: nat := 0;
    var out: seq<nat> := [];
    ghost var read: seq<nat> := [];
    HoldsAtStart(fromBits, toBits);
    for k := 0 to |data|
      invariant read == data[..k] && Fits(read, fromBits)
      invariant Holds(read, fromBits, toBits, acc, bits, out) && bits < toBits
    {
      var value := data[k];
      if value < 0 || Shr(value, fromBits) != 0 {
        NotFit(data, fromBits, k);
        return None;
      }
      DoesFit(value, fromBits);
      PushHolds(read, value, fromBits, toBits, acc, bits, out);
      read := read + [value];
      acc := ToInt32(acc * Pow2(fromBits)) + value;
      bits := bits + fromBits;
      while bits >= toBits
        invariant 0 <= bits < toBits + fromBits
        invariant Holds(read, fromBits, toBits, acc, bits, out)
      {
        EmitHolds(read, fromBits, toBits, acc, bits, out);
        bits := bits - toBits;
        out := out + [Low(Shr(acc, bits), toBits)];
      }
    }
    assert read == data;
    Finish(read, fromBits, toBits, acc, bits, out, count, rest);
    var last := Low(ToInt32(acc * Pow2(toBits - bits)), toBits);
    if pad {
      if bits > 0 { out := out + [last]; }
      r := Some(out);
    } else if bits >= fromBits || last != 0 {
      r := None;
    } else {
      r := Some(out);
    }
  }

  /**
    * The loops' invariant: the groups emitted so far spell the unbounded number without
    * its last `bits` bits, and the wrapped accumulator still has those bits right.
    */
  predicate Holds(read: seq<nat>, fromBits: nat, toBits: nat, acc: int, bits: nat, out: seq<nat>) {
    && |read| * fromBits == |out| * toBits + bits
    && Low(acc, WORD_BITS) == Low(Val(read, fromBits), WORD_BITS)
    && Fits(out, toBits)
    && Val(out, toBits) == Shr(Val(read, fromBits), bits)
  }

  lemma HoldsAtStart(fromBits: nat, toBits: nat)
    ensures Holds([], fromBits, toBits, 0, 0, [])
  {
  }

  lemma PushHolds(read: seq<nat>, value: nat, fromBits: nat, toBits: nat, acc: int, bits: nat, out: seq<nat>)
    requires Holds(read, fromBits, toBits, acc, bits, out)
    requires fromBits <= WORD_BITS && value < Pow2(fromBits)
    ensures Holds(read + [value], fromBits, toBits, ToInt32(acc * Pow2(fromBits)) + value, bits + fromBits, out)
  {
    hide Low, Shr, Pow2, Val;
    PushAgrees(acc, Val(read, fromBits), fromBits, value, WORD_BITS);
    PushShifts(Val(read, fromBits), fromBits, value, bits);
    ValSnoc(read, value, fromBits);
    MulSucc(|read|, fromBits);
  }

  lemma EmitHolds(read: seq<nat>, fromBits: nat, toBits: nat, acc: int, bits: nat, out: seq<nat>)
    requires Holds(read, fromBits, toBits, acc, bits, out)
    requires toBits <= bits <= WORD_BITS
    ensures Holds(read, fromBits, toBits, acc, bits - toBits, out + [Low(Shr(acc, bits - toBits), toBits)])
  {
    hide Low, Shr, Pow2, Val;
    var value := Val(read, fromBits);
    ExtractAgrees(acc, value, bits - toBits, toBits, WORD_BITS);
    EmitGroup(value, bits - toBits, toBits, out);
    MulSucc(|out|, toBits);
  }

  /** The last, partial group: what the code tests and pads is what the meaning asks for. */
  lemma Finish(data: seq<nat>, fromBits: nat, toBits: nat, acc: int, bits: nat, out: seq<nat>, count: nat, rest: nat)
    requires Holds(data, fromBits, toBits, acc, bits, out) && bits < toBits <= WORD_BITS
    requires Fits(data, fromBits)
    requires Splits(|data| * fromBits, toBits, count, rest)
    ensures
      var last := Low(ToInt32(acc * Pow2(toBits - bits)), toBits);
      && Regrouped(data, fromBits, toBits, true, count, rest) == Some(if bits > 0 then out + [last] else out)
      && Regrouped(data, fromBits, toBits, false, count, rest) ==
         (if bits >= fromBits || last != 0 then None else Some(out))
  {
    hide Low, Shr, Pow2, Val, Digits;
    var value := Val(data, fromBits);
    SplitsUnique(|data| * fromBits, toBits, |out|, bits, count, rest);
    LastGroup(acc, value, bits, toBits, WORD_BITS);
    DigitsOfVal(out, toBits);
    PaddedNumeral(value, bits, toBits, out);
    var last := Low(value, bits) * Pow2(toBits - bits);
    DigitsOfVal(out + [last], toBits);
    ShrZero(value);
    if Low(value, bits) > 0 {
      MulMono(1, Low(value, bits), Pow2(toBits - bits));
    }
  }

  lemma LastGroup(acc: int, value: nat, bits: nat, toBits: nat, w: nat)
    requires bits < toBits <= w && Low(acc, w) == Low(value, w)
    ensures Low(Signed(acc * Pow2(toBits - bits), w), toBits) == Low(value, bits) * Pow2(toBits - bits)
  {
    hide Low, Shr, Pow2, Val;
    var f := toBits - bits;
    SignedLow(acc * Pow2(f), w);
    LowLow(Signed(acc * Pow2(f), w), w, toBits);
    LowLow(acc * Pow2(f), w, toBits);
    LowShl(acc, f, 0, toBits);
    assert acc * Pow2(f) + 0 == acc * Pow2(f);
    LowLow(acc, w, bits);
    LowLow(value, w, bits);
  }

  lemma PaddedNumeral(value: nat, bits: nat, toBits: nat, out: seq<nat>)
    requires bits < toBits && Val(out, toBits) == Shr(value, bits)
    ensures Val(out + [Low(value, bits) * Pow2(toBits - bits)], toBits) == value * Pow2(toBits - bits)
    ensures Low(value, bits) * Pow2(toBits - bits) < Pow2(toBits)
  {
    hide Low, Shr, Pow2, Val;
    var f := toBits - bits;
    ShrLow(value, bits);
    Pow2Add(bits, f);
    var q, r := Shr(value, bits), Low(value, bits);
    MulSplit(q, Pow2(bits), r, Pow2(f));
    MulMono(r + 1, Pow2(bits), Pow2(f));
    MulSucc(r, Pow2(f));
    ValSnoc(out, r * Pow2(f), toBits);
  }
}
