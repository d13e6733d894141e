/**
  * The size and fee formulas of vsize.ts and fees.ts, measured against the bytes that the
  * serializer emits.
  */
module Sizes {
  import opened Hex
  import opened Wire

  const P2TR_SCRIPT_SIZE: nat := 34
  const MAX_GRAIN: nat := 21_000_000_000 * 100_000_000

  /** JavaScript bigint division, which truncates toward zero. */
  function TruncDiv(a: int, d: int): int
    requires d > 0
  {
    if a >= 0 then a / d else -(-a / d)
  }

  /** Bytes of a compact size: `varIntSize` and `varIntSerializeSize`. */
  function VarIntSize(n: nat): nat {
    if n < 0xfd then 1 else if n <= 0xffff then 3 else if n <= 0xffff_ffff then 5 else 9
  }

  // ---------------------------------------------------------------- vsize.ts

  function EstimateVsize(nIn: nat, nOut: nat): nat {
    var nonWitness := 4 + 4 + VarIntSize(nIn) + VarIntSize(nOut) + nIn * 41 + nOut * 43;
    var weight := nonWitness * 4 + (2 + nIn * 66);
    (weight + 3) / 4
  }

  function RelayFeeForVsize(vsize: nat, relayFeePerKb: int): int {
    var raw := TruncDiv(relayFeePerKb * vsize + 999, 1000);
    if raw < relayFeePerKb then relayFeePerKb else raw
  }

  // ---------------------------------------------------------------- fees.ts

  function OutputSize(scriptSize: nat): nat { 8 + VarIntSize(scriptSize) + scriptSize }

  function OutputSizes(scriptSizes: seq<nat>): nat {
    if scriptSizes == [] then 0
    else OutputSizes(scriptSizes[..|scriptSizes| - 1]) + OutputSize(scriptSizes[|scriptSizes| - 1])
  }

  function EstimateVirtualSize(numInputs: nat, outputScriptSizes: seq<nat>, addChangeOutput: bool): nat {
    var outputCount := |outputScriptSizes| + if addChangeOutput then 1 else 0;
    var changeOutputSize := if addChangeOutput then OutputSize(P2TR_SCRIPT_SIZE) else 0;
    var baseSize := 8 + VarIntSize(numInputs) + VarIntSize(outputCount) + numInputs * 41
                    + OutputSizes(outputScriptSizes) + changeOutputSize;
    var witnessWeight := if numInputs > 0 then 2 + VarIntSize(numInputs) + numInputs * 67 else 0;
    baseSize + (witnessWeight + 3) / 4
  }

  function FeeForSerializeSize(relayFeePerKb: int, size: nat): int {
    var fee := TruncDiv(relayFeePerKb * size, 1000);
    var floored := if fee == 0 && relayFeePerKb > 0 then relayFeePerKb else fee;
    if floored < 0 || floored > MAX_GRAIN then MAX_GRAIN else floored
  }

  function EstimateNetworkFee(numInputs: nat, outputScriptSizes: seq<nat>, addChangeOutput: bool, relayFeePerKb: int): int {
    FeeForSerializeSize(relayFeePerKb, EstimateVirtualSize(numInputs, outputScriptSizes, addChangeOutput))
  }

  // ---------------------------------------------------------------- real sizes

  /** BIP-141: stripped bytes count four, witness bytes one. */
  function Weight(tx: WireTx): nat { 3 * |TxBytes(tx, false)| + |TxBytes(tx, true)| }
  function Vsize(tx: WireTx): nat { (Weight(tx) + 3) / 4 }

  /** A signed key-path input: no script, one 64-byte witness item. */
  predicate KeyPathInput(i: TxInput) {
    IsHex(i.txid) && |i.txid| == 64 && i.scriptSig == [] && |i.stack| == 1 && |i.stack[0]| == 64
  }

  predicate KeyPathSigned(tx: WireTx) {
    && tx.inputs != []
    && (forall k :: 0 <= k < |tx.inputs| ==> KeyPathInput(tx.inputs[k]))
  }

  function ScriptSizes(outputs: seq<TxOutput>): (ss: seq<nat>)
    ensures |ss| == |outputs|
  {
    seq(|outputs|, k requires 0 <= k < |outputs| => |outputs[k].pkScript|)
  }

  predicate TaprootOutputs(outputs: seq<TxOutput>) {
    forall k :: 0 <= k < |outputs| ==> |outputs[k].pkScript| == P2TR_SCRIPT_SIZE
  }

  lemma VarIntLength(n: nat)
    ensures |VarInt(n)| == VarIntSize(n)
  {
  }

  lemma InputLength(i: TxInput)
    requires KeyPathInput(i)
    ensures |InputBytes(i)| == 41 && |InputWitness(i)| == 66
  {
    VarIntLength(0);
    VarIntLength(1);
    VarIntLength(64);
    var item := i.stack[0];
    assert i.stack == [item];
    assert i.stack[1..] == [];
    assert Concat(ItemBytes, i.stack) == ItemBytes(item) + Concat(ItemBytes, []);
    assert FromHex(i.txid).Some?;
  }

  lemma {:induction false} InputsLength(inputs: seq<TxInput>)
    requires forall k :: 0 <= k < |inputs| ==> KeyPathInput(inputs[k])
    ensures |Concat(InputBytes, inputs)| == 41 * |inputs| && |Concat(InputWitness, inputs)| == 66 * |inputs|
  {
    hide KeyPathInput, InputBytes, InputWitness;
    if inputs != [] {
      InputLength(inputs[0]);
      InputsLength(inputs[1..]);
    }
  }

  lemma {:induction false} OutputsLength(outputs: seq<TxOutput>)
    ensures |Concat(OutputBytes, outputs)| == OutputSizes(ScriptSizes(outputs))
  {
    if outputs == [] {
    } else {
      var k := |outputs| - 1;
      OutputsLength(outputs[..k]);
      ConcatSnoc(OutputBytes, outputs[..k], outputs[k]);
      assert outputs == outputs[..k] + [outputs[k]];
      assert ScriptSizes(outputs)[..k] == ScriptSizes(outputs[..k]);
      VarIntLength(|outputs[k].pkScript|);
    }
  }

  lemma {:induction false} TaprootSizes(sizes: seq<nat>)
    requires forall k :: 0 <= k < |sizes| ==> sizes[k] == P2TR_SCRIPT_SIZE
    ensures OutputSizes(sizes) == 43 * |sizes|
  {
    if sizes != [] {
      TaprootSizes(sizes[..|sizes| - 1]);
    }
  }

  /** The serialized sizes of a signed transaction. */
  lemma SignedSizes(tx: WireTx)
    requires KeyPathSigned(tx)
    ensures var n := |tx.inputs|;
            var base := 8 + VarIntSize(n) + VarIntSize(|tx.outputs|) + 41 * n + OutputSizes(ScriptSizes(tx.outputs));
            |TxBytes(tx, false)| == base && |TxBytes(tx, true)| == base + 2 + 66 * n
  {
    InputsLength(tx.inputs);
    OutputsLength(tx.outputs);
    VarIntLength(|tx.inputs|);
    VarIntLength(|tx.outputs|);
    assert KeyPathInput(tx.inputs[0]);
    assert HasWitness(tx.inputs);
  }

  /** The estimate for key-path spends to taproot outputs is the real virtual size. */
  lemma VsizeIsEstimate(tx: WireTx)
    requires KeyPathSigned(tx) && TaprootOutputs(tx.outputs)
    ensures Vsize(tx) == EstimateVsize(|tx.inputs|, |tx.outputs|)
  {
    SignedSizes(tx);
    TaprootSizes(ScriptSizes(tx.outputs));
  }

  /**
    * The selector's estimate is never below the real size, whatever the output scripts: it
    * is the size with one more witness byte for each input, and their count.
    */
  lemma VsizeBelowEstimate(tx: WireTx)
    requires KeyPathSigned(tx)
    ensures Vsize(tx) <= EstimateVirtualSize(|tx.inputs|, ScriptSizes(tx.outputs), false)
    ensures var witnesses := |TxBytes(tx, true)| - |TxBytes(tx, false)|;
            EstimateVirtualSize(|tx.inputs|, ScriptSizes(tx.outputs), false)
            == |TxBytes(tx, false)| + (witnesses + |tx.inputs| + VarIntSize(|tx.inputs|) + 3) / 4
  {
    SignedSizes(tx);
  }

  /** Asking for a change output is asking for one more taproot script. */
  lemma ChangeIsOneMoreOutput(numInputs: nat, sizes: seq<nat>)
    ensures EstimateVirtualSize(numInputs, sizes, true) == EstimateVirtualSize(numInputs, sizes + [P2TR_SCRIPT_SIZE], false)
  {
    assert (sizes + [P2TR_SCRIPT_SIZE])[..|sizes|] == sizes;
  }

  // ---------------------------------------------------------------- fees

  lemma MulLe(r: nat, a: nat, b: nat)
    requires a <= b
    ensures r * a <= r * b
  {
  }

  /** The least whole fee that is at least the rate and pays the rate for every thousand bytes. */
  predicate LeastFee(fee: int, rate: int, vsize: int) {
    fee >= rate && fee * 1000 >= rate * vsize && (fee == rate || (fee - 1) * 1000 < rate * vsize)
  }

  /** The relay fee is the least one that meets the rate. */
  lemma RelayFeeMeetsRate(vsize: nat, rate: nat)
    ensures LeastFee(RelayFeeForVsize(vsize, rate), rate, vsize)
  {
    var product := rate * vsize;
    assert product >= 0;
  }

  /** No lower fee would do. */
  lemma LeastFeeUnique(fee: int, other: int, rate: int, vsize: int)
    requires LeastFee(fee, rate, vsize) && other >= rate && other * 1000 >= rate * vsize
    ensures fee <= other
  {
  }

  lemma RelayFeeMonotone(v: nat, w: nat, rate: nat)
    requires v <= w
    ensures RelayFeeForVsize(v, rate) <= RelayFeeForVsize(w, rate)
  {
    MulLe(rate, v, w);
    var a, b := rate * v, rate * w;
    assert a <= b;
  }

  lemma EstimateVsizeMonotone(n: nat, m: nat, n': nat, m': nat)
    requires n <= n' && m <= m'
    ensures EstimateVsize(n, m) <= EstimateVsize(n', m')
  {
  }

  /**
    * The selector's fee: the rate for every thousand bytes rounded down, but the rate itself
    * where that is nothing, and never more than the supply.
    */
  lemma SelectorFeeRate(rate: nat, size: nat)
    ensures 1000 <= rate * size < (MAX_GRAIN + 1) * 1000 ==>
              var fee := FeeForSerializeSize(rate, size); fee * 1000 <= rate * size < (fee + 1) * 1000
    ensures rate * size < 1000 ==> FeeForSerializeSize(rate, size) == if rate <= MAX_GRAIN then rate else MAX_GRAIN
    ensures rate * size >= (MAX_GRAIN + 1) * 1000 ==> FeeForSerializeSize(rate, size) == MAX_GRAIN
  {
    var product := rate * size;
    assert product >= 0;
    FeeOfProduct(rate, size, product);
    hide FeeForSerializeSize;
  }

  /** From the default rate up, the selector's fee of a transaction grows with size too. */
  lemma SelectorFeeMonotone(rate: nat, v: nat, w: nat)
    requires rate >= 1000 && 1 <= v <= w
    ensures FeeForSerializeSize(rate, v) <= FeeForSerializeSize(rate, w)
  {
    MulLe(rate, v, w);
    var a, b := rate * v, rate * w;
    assert 0 <= a <= b;
    MulLe(rate, 1, v);
  }

  /**
    * Exactly when a larger size is charged less: only when the smaller fee was raised to the
    * rate because it rounded to zero, and the larger fee rounds to less than the rate.
    */
  lemma SelectorFeeDropsExactly(rate: int, v: nat, w: nat)
    requires v <= w
    ensures FeeForSerializeSize(rate, v) > FeeForSerializeSize(rate, w) <==>
            rate > 0 && rate * v < 1000 <= rate * w && rate * w / 1000 < rate && rate * w / 1000 < MAX_GRAIN
  {
    var a, b := rate * v, rate * w;
    if rate >= 0 {
      MulLe(rate, v, w);
      assert a >= 0;
    } else {
      MulLe(-rate, v, w);
      assert a == -(-rate * v) && b == -(-rate * w);
      assert -rate * v >= 0;
    }
    FeeOfProduct(rate, v, a);
    FeeOfProduct(rate, w, b);
  }

  lemma FeeOfProduct(rate: int, size: nat, product: int)
    requires product == rate * size
    ensures FeeForSerializeSize(rate, size) ==
            var fee := TruncDiv(product, 1000);
            var floored := if fee == 0 && rate > 0 then rate else fee;
            if floored < 0 || floored > MAX_GRAIN then MAX_GRAIN else floored
  {
  }
}
