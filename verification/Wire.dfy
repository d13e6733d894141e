/**
  * The wire format of serialize.ts as a specification: little-endian integers, compact
  * sizes, and the transaction layout of BIP-144.
  */
module Wire {
  import opened Wrappers
  import opened Hex

  datatype TxInput = TxInput(txid: string, vout: int, scriptSig: bytes, sequence: int, stack: seq<bytes>)
  datatype TxOutput = TxOutput(value: int, pkScript: bytes)
  datatype WireTx = WireTx(version: int, inputs: seq<TxInput>, outputs: seq<TxOutput>, locktime: int)

  const TWO_32: nat := 0x1_0000_0000
  const TWO_64: nat := 0x1_0000_0000_0000_0000

  /** `n` in `k` little-endian bytes; higher bits are dropped. */
  function LE(n: nat, k: nat): (bs: bytes)
    ensures |bs| == k
  {
    if k == 0 then [] else [n % 256] + LE(n / 256, k - 1)
  }

  lemma LEStep(n: nat, k: nat)
    requires k > 0
    ensures LE(n, k) == [n % 256] + LE(n / 256, k - 1)
  {
  }

  function FromLE(bs: bytes): nat {
    if bs == [] then 0 else bs[0] + 256 * FromLE(bs[1..])
  }

  /** The first number that `k` bytes cannot hold. */
  function Cap(k: nat): nat {
    if k == 0 then 1 else 256 * Cap(k - 1)
  }

  lemma Caps()
    ensures Cap(2) == 0x1_0000 && Cap(4) == TWO_32 && Cap(8) == TWO_64
  {
    assert Cap(4) == TWO_32;
  }

  lemma {:induction false} FromLEOfLE(n: nat, k: nat)
    requires n < Cap(k)
    ensures FromLE(LE(n, k)) == n
  {
    if k > 0 {
      FromLEOfLE(n / 256, k - 1);
      assert LE(n, k)[1..] == LE(n / 256, k - 1);
    }
  }

  lemma {:induction false} LEOfFromLE(bs: bytes)
    ensures FromLE(bs) < Cap(|bs|) && LE(FromLE(bs), |bs|) == bs
  {
    if bs != [] {
      LEOfFromLE(bs[1..]);
      assert FromLE(bs) / 256 == FromLE(bs[1..]) && FromLE(bs) % 256 == bs[0];
    }
  }

  lemma FourBytes(n: nat)
    ensures LE(n, 4) == [n % 256, n / 0x100 % 256, n / 0x1_0000 % 256, n / 0x100_0000 % 256]
  {
    hide LE;
    LEStep(n, 4);
    LEStep(n / 256, 3);
    LEStep(n / 256 / 256, 2);
    LEStep(n / 256 / 256 / 256, 1);
  }

  lemma TwoBytes(n: nat)
    ensures LE(n, 2) == LE(n, 4)[..2]
  {
    FourBytes(n);
    assert LE(n, 2) == [n % 256] + LE(n / 256, 1);
  }

  /** `>>> 0` and four bytes. */
  function Bytes4(n: int): (bs: bytes)
    ensures |bs| == 4
  {
    LE(n % TWO_32, 4)
  }

  /** `BigInt.asUintN(64, n)` and eight bytes. */
  function Bytes8(n: int): (bs: bytes)
    ensures |bs| == 8
  {
    LE(n % TWO_64, 8)
  }

  function VarInt(n: nat): bytes {
    if n < 0xfd then [n]
    else if n <= 0xffff then [0xfd] + LE(n, 2)
    else if n <= 0xffff_ffff then [0xfe] + LE(n, 4)
    else [0xff] + LE(n % TWO_64, 8)
  }

  function VarBytes(b: bytes): bytes { VarInt(|b|) + b }

  function Concat<T>(enc: T -> bytes, xs: seq<T>): bytes {
    if xs == [] then [] else enc(xs[0]) + Concat(enc, xs[1..])
  }

  lemma {:induction false} ConcatSnoc<T>(enc: T -> bytes, xs: seq<T>, x: T)
    ensures Concat(enc, xs + [x]) == Concat(enc, xs) + enc(x)
  {
    if xs == [] {
    } else {
      ConcatSnoc(enc, xs[1..], x);
      assert (xs + [x])[1..] == xs[1..] + [x];
    }
  }

  /** The transaction id in wire order: the display text's bytes reversed. */
  function Outpoint(txid: string, vout: int): bytes {
    match FromHex(txid)
    case None => []
    case Some(id) => Reverse(id) + Bytes4(vout)
  }

  function InputBytes(i: TxInput): bytes {
    Outpoint(i.txid, i.vout) + VarBytes(i.scriptSig) + Bytes4(i.sequence)
  }

  function OutputBytes(o: TxOutput): bytes {
    Bytes8(o.value) + VarBytes(o.pkScript)
  }

  function ItemBytes(item: bytes): bytes { VarBytes(item) }

  function WitnessBytes(stack: seq<bytes>): bytes {
    VarInt(|stack|) + Concat(ItemBytes, stack)
  }

  function InputWitness(i: TxInput): bytes { WitnessBytes(i.stack) }

  function InputsBytes(inputs: seq<TxInput>): bytes {
    VarInt(|inputs|) + Concat(InputBytes, inputs)
  }

  function OutputsBytes(outputs: seq<TxOutput>): bytes {
    VarInt(|outputs|) + Concat(OutputBytes, outputs)
  }

  predicate HasWitness(inputs: seq<TxInput>) {
    exists k :: 0 <= k < |inputs| && inputs[k].stack != []
  }

  predicate HexIds(inputs: seq<TxInput>) {
    forall k :: 0 <= k < |inputs| ==> IsHex(inputs[k].txid)
  }

  function TxBytes(tx: WireTx, includeWitness: bool): bytes {
    var segwit := includeWitness && HasWitness(tx.inputs);
    Bytes4(tx.version)
    + (if segwit then [0, 1] else [])
    + InputsBytes(tx.inputs)
    + OutputsBytes(tx.outputs)
    + (if segwit then Concat(InputWitness, tx.inputs) else [])
    + Bytes4(tx.locktime)
  }

  /** `serializeTx`: None is the error thrown on a transaction id that is not hexadecimal. */
  function SerializeTx(tx: WireTx, includeWitness: bool): Option<bytes> {
    if HexIds(tx.inputs) then Some(TxBytes(tx, includeWitness)) else None
  }

  /** `computeTxid` over an arbitrary double hash: it reads the stripped serialization only. */
  function ComputeTxid(doubleHash: bytes -> bytes, tx: WireTx): Option<string> {
    match SerializeTx(tx, false)
    case None => None
    case Some(stripped) => Some(ToHex(Reverse(doubleHash(stripped))))
  }

  // ---------------------------------------------------------------- range of the fields

  predicate InRange32(n: int) { 0 <= n < TWO_32 }

  predicate ValidOutput(o: TxOutput) {
    0 <= o.value < TWO_64 && |o.pkScript| < TWO_64
  }

  /** A stack whose counts fit the format. */
  predicate ValidStack(stack: seq<bytes>) {
    |stack| < TWO_64 && forall k :: 0 <= k < |stack| ==> |stack[k]| < TWO_64
  }

  predicate ValidInput(i: TxInput) {
    && |i.txid| == 64 && IsLowerHex(i.txid)
    && InRange32(i.vout) && InRange32(i.sequence)
    && |i.scriptSig| < TWO_64
    && ValidStack(i.stack)
  }

  /** Fields in range: the transactions the format can represent. */
  predicate ValidTx(tx: WireTx) {
    && InRange32(tx.version) && InRange32(tx.locktime)
    && |tx.inputs| < TWO_64 && |tx.outputs| < TWO_64
    && (forall k :: 0 <= k < |tx.inputs| ==> ValidInput(tx.inputs[k]))
    && (forall k :: 0 <= k < |tx.outputs| ==> ValidOutput(tx.outputs[k]))
  }
}
