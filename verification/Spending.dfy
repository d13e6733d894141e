/**
  * From the coins to the signed bytes: the preview, the message boundary, the pre-sign
  * pipeline and the signatures, end to end.
  */
module Spending {
  import opened Wrappers
  import opened Hex
  import opened Wire
  import opened Sizes
  import opened AddressValidation
  import opened Utxos
  import opened Preview
  import opened Builder
  import Selection
  import Sighash
  import WireParser
  import Signer
  import DraftWire

  function PrevValues(ss: seq<SigningInput>): (r: seq<int>)
    ensures |r| == |ss|
  {
    seq(|ss|, k requires 0 <= k < |ss| => ss[k].prevValue)
  }

  function PrevScripts(ss: seq<SigningInput>): (r: seq<bytes>)
    ensures |r| == |ss|
  {
    seq(|ss|, k requires 0 <= k < |ss| => ss[k].prevPkScript)
  }

  /** The worker's half: decode the message, run the pipeline, sign every input. */
  function SignMessage(sha: bytes -> Sighash.Digest, tagged: bytes -> Sighash.Digest,
                       sign: (nat, Sighash.Digest) -> Sighash.Signature, decode: Decoder, message: DraftWire.WireDraft): Option<WireTx>
  {
    match DraftWire.FromWire(message)
    case None => None
    case Some(d) =>
      match Signer.PreSign(decode, d, false, true)
      case Err(_) => None
      case Ok(built) =>
        match Sighash.SignTransaction(sha, tagged, sign, built.tx, PrevValues(built.signingInputs), PrevScripts(built.signingInputs))
        case Err(_) => None
        case Ok(signed) => Some(signed)
  }

  /** The values that the user approved spending. */
  function ApprovedValues(inputs: seq<Utxo>): (r: seq<int>)
    ensures |r| == |inputs|
  {
    seq(|inputs|, k requires 0 <= k < |inputs| => inputs[k].value)
  }

  function ApprovedScripts(inputs: seq<Utxo>): (r: seq<bytes>)
    requires forall k :: 0 <= k < |inputs| ==> IsHex(inputs[k].scriptPubKeyHex)
    ensures |r| == |inputs|
  {
    seq(|inputs|, k requires 0 <= k < |inputs| => FromHex(inputs[k].scriptPubKeyHex).value)
  }

  /**
    * Each input of the transaction spends the approved coin, and its one witness item is the
    * signature over the transaction's own hash at that input with every approved value and script.
    */
  predicate SpendsApproved(sha: bytes -> Sighash.Digest, tagged: bytes -> Sighash.Digest,
                           sign: (nat, Sighash.Digest) -> Sighash.Signature, signed: WireTx, inputs: seq<Utxo>)
  {
    && (forall k :: 0 <= k < |inputs| ==> IsHex(inputs[k].scriptPubKeyHex))
    && signed.version == 1 && signed.locktime == 0 && |signed.inputs| == |inputs|
    && forall k :: 0 <= k < |inputs| ==>
         var hash := Sighash.Sighash(sha, tagged, signed, k, ApprovedValues(inputs), ApprovedScripts(inputs));
         hash.Ok? && signed.inputs[k] == TxInput(inputs[k].txid, inputs[k].vout, [], 0xffff_ffff, [sign(k, hash.value)])
  }

  lemma SignedApproved(sha: bytes -> Sighash.Digest, tagged: bytes -> Sighash.Digest,
                       sign: (nat, Sighash.Digest) -> Sighash.Signature, decode: Decoder, d: TxDraft)
    requires Signer.PreSign(decode, d, false, true).Ok?
    requires var built := Signer.PreSign(decode, d, false, true).value;
             Sighash.SignTransaction(sha, tagged, sign, built.tx, PrevValues(built.signingInputs), PrevScripts(built.signingInputs)).Ok?
    ensures var built := Signer.PreSign(decode, d, false, true).value;
            var signed := Sighash.SignTransaction(sha, tagged, sign, built.tx, PrevValues(built.signingInputs),
                                                  PrevScripts(built.signingInputs)).value;
            SpendsApproved(sha, tagged, sign, signed, d.inputs)
  {
    hide Sighash.Sighash, Signer.AssertOutputsMatchDraft, Signer.AssertFeeMatchesDraft, Signer.Assemble, IsHex, FromHex,
      Sighash.SignTransaction;
    Signer.BuiltInputs(decode, d);
    var built := Signer.PreSign(decode, d, false, true).value;
    var values, scripts := PrevValues(built.signingInputs), PrevScripts(built.signingInputs);
    forall k | 0 <= k < |d.inputs| ensures IsHex(d.inputs[k].scriptPubKeyHex) { assert FromHex(d.inputs[k].scriptPubKeyHex).Some?; }
    assert values == ApprovedValues(d.inputs);
    assert scripts == ApprovedScripts(d.inputs);
    Sighash.SignedTransaction(sha, tagged, sign, built.tx, values, scripts, b => b);
    var signed := Sighash.SignTransaction(sha, tagged, sign, built.tx, values, scripts).value;
    forall k | 0 <= k < |d.inputs|
      ensures var hash := Sighash.Sighash(sha, tagged, signed, k, values, scripts);
              hash.Ok? && signed.inputs[k] == TxInput(d.inputs[k].txid, d.inputs[k].vout, [], 0xffff_ffff, [sign(k, hash.value)])
    {
      SameButStack(built.tx.inputs[k], signed.inputs[k]);
    }
  }

  lemma SameButStack(a: TxInput, b: TxInput)
    requires WireParser.Body(a) == WireParser.Body(b)
    ensures b == a.(stack := b.stack)
  {
  }

  /** Transaction ids as the network prints them. */
  predicate PlainId(u: Utxo) { IsHex(u.txid) && |u.txid| == 64 }

  predicate TaprootAddress(decode: Decoder, address: string) {
    decode(address).Some? && |decode(address).value| == P2TR_SCRIPT_SIZE
  }

  /** Signing fills in one 64-byte item for each of the built inputs. */
  lemma SignedInputs(sha: bytes -> Sighash.Digest, tagged: bytes -> Sighash.Digest,
                     sign: (nat, Sighash.Digest) -> Sighash.Signature, tx: WireTx, prevValues: seq<int>, prevScripts: seq<bytes>)
    requires tx.inputs != [] && |prevValues| == |prevScripts| == |tx.inputs|
    requires forall k :: 0 <= k < |tx.inputs| ==>
               IsHex(tx.inputs[k].txid) && |tx.inputs[k].txid| == 64 && tx.inputs[k].scriptSig == []
    ensures Sighash.SignTransaction(sha, tagged, sign, tx, prevValues, prevScripts).Ok?
    ensures var signed := Sighash.SignTransaction(sha, tagged, sign, tx, prevValues, prevScripts).value;
            KeyPathSigned(signed) && signed.outputs == tx.outputs && |signed.inputs| == |tx.inputs|
  {
    hide IsHex, Sighash.SigMsg;
    assert HexIds(tx.inputs);
    var signed := Sighash.SignTransaction(sha, tagged, sign, tx, prevValues, prevScripts).value;
    forall k | 0 <= k < |signed.inputs| ensures KeyPathInput(signed.inputs[k]) {
      var item := sign(k, Sighash.Sighash(sha, tagged, tx, k, prevValues, prevScripts).value);
      assert tx.inputs[k].scriptSig == [] && signed.inputs[k].stack == [item];
    }
  }

  /** What the pipeline hands to the signatures: one unsigned input for each approved one. */
  lemma BuiltForSigning(decode: Decoder, d: TxDraft)
    requires Signer.PreSign(decode, d, false, true).Ok?
    requires forall k :: 0 <= k < |d.inputs| ==> PlainId(d.inputs[k])
    ensures var built := Signer.PreSign(decode, d, false, true).value;
            && |built.tx.inputs| == |built.signingInputs| == |d.inputs| && built.tx.inputs != []
            && forall k :: 0 <= k < |built.tx.inputs| ==>
                 IsHex(built.tx.inputs[k].txid) && |built.tx.inputs[k].txid| == 64 && built.tx.inputs[k].scriptSig == []
  {
    hide Signer.AssertOutputsMatchDraft, Signer.AssertFeeMatchesDraft, Signer.Assemble, IsHex, FromHex;
    Signer.BuiltInputs(decode, d);
    var inputs := Signer.PreSign(decode, d, false, true).value.tx.inputs;
    forall k | 0 <= k < |inputs|
      ensures IsHex(inputs[k].txid) && |inputs[k].txid| == 64 && inputs[k].scriptSig == []
    {
      assert inputs[k] == InputOf(Signer.Selected(d.inputs)[k]) && PlainId(d.inputs[k]);
    }
  }

  lemma TaprootPaid(decode: Decoder, outputs: seq<TxOutput>, ps: seq<Payment>)
    requires Builder.Pays(decode, outputs, ps)
    requires forall k :: 0 <= k < |ps| ==> TaprootAddress(decode, ps[k].address)
    ensures TaprootOutputs(outputs)
  {
    forall k | 0 <= k < |outputs| ensures |outputs[k].pkScript| == P2TR_SCRIPT_SIZE {
      assert TaprootAddress(decode, ps[k].address);
    }
  }

  lemma PaymentCount(d: TxDraft)
    ensures |Signer.Payments(d)| == OutputCount(d)
  {
  }

  /** Any approvable draft to taproot addresses is signed, over the approved coins, into a transaction of the estimated size. */
  lemma ApprovedSigns(sha: bytes -> Sighash.Digest, tagged: bytes -> Sighash.Digest,
                      sign: (nat, Sighash.Digest) -> Sighash.Signature, decode: Decoder, d: TxDraft)
    requires Signer.Approvable(decode, d)
    requires forall k :: 0 <= k < |d.inputs| ==> PlainId(d.inputs[k])
    requires forall k :: 0 <= k < |Signer.Payments(d)| ==> TaprootAddress(decode, Signer.Payments(d)[k].address)
    ensures
      var signed := SignMessage(sha, tagged, sign, decode, DraftWire.ToWire(d));
      && signed.Some? && KeyPathSigned(signed.value)
      && SpendsApproved(sha, tagged, sign, signed.value, d.inputs)
      && Builder.Pays(decode, signed.value.outputs, Signer.Payments(d))
      && Selection.Total(Coin, d.inputs) == TotalOutputValue(signed.value.outputs) + d.minerFee
      && Vsize(signed.value) == EstimateVsize(|d.inputs|, OutputCount(d))
      && Vsize(signed.value) <= EstimateVirtualSize(|d.inputs|, ScriptSizes(signed.value.outputs), false)
  {
    hide Signer.Approvable, Signer.Payments, PlainId, TaprootAddress, DraftWire.ToWire, DraftWire.FromWire, Signer.PreSign,
      Sighash.SignTransaction, Vsize, EstimateVsize, EstimateVirtualSize, IsHex, TotalOutputValue, Selection.Total,
      KeyPathInput, OutputCount, ScriptSizes, SpendsApproved;
    DraftWire.WireRoundTrip(d);
    Signer.SignerAccepts(decode, d, false, true);
    BuiltForSigning(decode, d);
    var built := Signer.PreSign(decode, d, false, true).value;
    SignedInputs(sha, tagged, sign, built.tx, PrevValues(built.signingInputs), PrevScripts(built.signingInputs));
    SignedApproved(sha, tagged, sign, decode, d);
    var signed := SignMessage(sha, tagged, sign, decode, DraftWire.ToWire(d)).value;
    TaprootPaid(decode, signed.outputs, Signer.Payments(d));
    PaymentCount(d);
    VsizeIsEstimate(signed);
    VsizeBelowEstimate(signed);
  }

  /** The conditions on a payment's surroundings: plain ids, hexadecimal scripts, taproot addresses. */
  predicate Ordinary(decode: Decoder, network: Network, utxos: seq<Utxo>, recipient: Payment, changeAddress: string) {
    && recipient.value >= DUST_THRESHOLD
    && TaprootAddress(decode, recipient.address) && TaprootAddress(decode, changeAddress)
    && (FeeAddress(network).Some? ==> TaprootAddress(decode, FeeAddress(network).value))
    && (forall u :: u in utxos ==> PlainId(u) && IsHex(u.scriptPubKeyHex))
  }

  lemma OrdinaryDraft(decode: Decoder, network: Network, utxos: seq<Utxo>, recipient: Payment,
                      changeAddress: string, relayFeePerKb: Option<int>)
    requires BuildTxPreview(network, utxos, recipient, changeAddress, relayFeePerKb).Ok?
    requires Ordinary(decode, network, utxos, recipient, changeAddress)
    ensures var d := BuildTxPreview(network, utxos, recipient, changeAddress, relayFeePerKb).value.draft;
            && (forall k :: 0 <= k < |d.inputs| ==> PlainId(d.inputs[k]))
            && (forall k :: 0 <= k < |Signer.Payments(d)| ==> TaprootAddress(decode, Signer.Payments(d)[k].address))
  {
    hide BuildTxPreview, FeeAddress, IsHex, Selection.Total, TaprootAddress, PlainId, RequireNecklaceFee, Signer.Payments, ClampRelayRate;
    NoFeeNoPreview(network, utxos, recipient, changeAddress, relayFeePerKb);
    PreviewConserves(network, utxos, recipient, changeAddress, relayFeePerKb);
    FeeRequired(network);
    var d := BuildTxPreview(network, utxos, recipient, changeAddress, relayFeePerKb).value.draft;
    Signer.SumOfPayments(d, recipient, d.necklaceFee.value);
    forall k | 0 <= k < |d.inputs| ensures PlainId(d.inputs[k]) {
      assert d.inputs[k] in multiset(d.inputs);
      assert d.inputs[k] in multiset(utxos);
    }
  }

  /**
    * The approved preview, sent to the worker and signed there: it is always signed, over the
    * approved coins; the signed transaction pays the approved payments in order; its serialized
    * size is the estimate; and the fee it pays meets the clamped rate for that size. With change
    * it is the least fee that does; with change dropped, less than the dust floor above that of
    * 43 more bytes.
    */
  lemma PreviewSpends(sha: bytes -> Sighash.Digest, tagged: bytes -> Sighash.Digest,
                      sign: (nat, Sighash.Digest) -> Sighash.Signature, decode: Decoder,
                      network: Network, utxos: seq<Utxo>, recipient: Payment, changeAddress: string, relayFeePerKb: Option<int>)
    requires BuildTxPreview(network, utxos, recipient, changeAddress, relayFeePerKb).Ok?
    requires Ordinary(decode, network, utxos, recipient, changeAddress)
    ensures
      var p := BuildTxPreview(network, utxos, recipient, changeAddress, relayFeePerKb).value;
      var signed := SignMessage(sha, tagged, sign, decode, DraftWire.ToWire(p.draft));
      && signed.Some? && KeyPathSigned(signed.value)
      && SpendsApproved(sha, tagged, sign, signed.value, p.draft.inputs)
      && Builder.Pays(decode, signed.value.outputs, Signer.Payments(p.draft))
      && p.totalInput == TotalOutputValue(signed.value.outputs) + p.networkFee
      && Vsize(signed.value) == EstimateVsize(|p.draft.inputs|, OutputCount(p.draft))
      && Vsize(signed.value) <= EstimateVirtualSize(|p.draft.inputs|, ScriptSizes(signed.value.outputs), false)
      && p.networkFee * 1000 >= PreviewRate(relayFeePerKb) * Vsize(signed.value)
      && (!p.changeDropped ==> LeastFee(p.networkFee, PreviewRate(relayFeePerKb), Vsize(signed.value)))
      && (p.changeDropped ==> p.networkFee - 545 <= PreviewRate(relayFeePerKb)
                              || (p.networkFee - 546) * 1000 < PreviewRate(relayFeePerKb) * (Vsize(signed.value) + 43))
  {
    hide LeastFee;
    hide BuildTxPreview, FeeAddress, IsHex, Signer.Approvable, SignMessage, Signer.Payments, DraftWire.ToWire, Vsize,
      EstimateVsize, EstimateVirtualSize, Builder.Pays, KeyPathSigned, TotalOutputValue, Selection.Total, ClampRelayRate, OutputCount,
      ScriptSizes, RequireNecklaceFee, SpendsApproved;
    var d := BuildTxPreview(network, utxos, recipient, changeAddress, relayFeePerKb).value.draft;
    Signer.PreviewApprovable(decode, network, utxos, recipient, changeAddress, relayFeePerKb);
    PreviewConserves(network, utxos, recipient, changeAddress, relayFeePerKb);
    PreviewMeetsRate(network, utxos, recipient, changeAddress, relayFeePerKb);
    OrdinaryDraft(decode, network, utxos, recipient, changeAddress, relayFeePerKb);
    ApprovedSigns(sha, tagged, sign, decode, d);
  }
}
