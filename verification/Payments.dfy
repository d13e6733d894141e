/**
  * From validated addresses to the scripts that are paid: what the user typed, what the
  * wallet pinned, and the outputs of the signed transaction.
  */
module Payments {
  import opened Wrappers
  import opened Ascii
  import opened Hex
  import opened Wire
  import opened AddressValidation
  import opened Utxos
  import opened Preview
  import opened FeeAddresses
  import opened Spending
  import Bech32m
  import Builder
  import DraftWire
  import SegwitCodec
  import Selection
  import Sighash
  import Signer
  import Sizes

  /** The output script of a witness program: version opcode, length, program. */
  function WitnessScript(version: nat, program: bytes): bytes
    requires version <= 16 && |program| <= 40
  {
    [0x50 + version, |program|] + program
  }

  /**
    * What `decodeAddress` takes from its bech32m library: a string in one case that is the
    * standard's encoding of a 32-byte program, of version 1 or 2 and a known prefix, decodes
    * to that program's script.
    */
  ghost predicate Conforming(decode: Builder.Decoder) {
    forall address: Text, hrp: Text, version: nat, program: bytes
      {:trigger decode(address), SegwitCodec.EncodeSegwit(hrp, version, program)} ::
      1 <= version <= 2 && |program| == 32 && (hrp == "prl" || hrp == "tprl" || hrp == "rprl")
      && SingleCase(address) && Lower(address) == SegwitCodec.EncodeSegwit(hrp, version, program) ==>
        decode(address) == Some(WitnessScript(version, program))
  }

  /** `decodeAddress` with the wallet's own bech32m decoder in the library's place. */
  function OwnDecoder(address: string): Option<bytes> {
    if !forall k :: 0 <= k < |address| ==> address[k] < 128 as char then None
    else match Bech32m.DecodeSegwit(address)
      case None => None
      case Some(d) =>
        if 1 <= d.witnessVersion <= 2 && |d.program| == 32 && (d.hrp == "prl" || d.hrp == "tprl" || d.hrp == "rprl")
        then Some(WitnessScript(d.witnessVersion, d.program))
        else None
  }

  /** The wallet's own decoder would do: the two decoders pay the same scripts. */
  lemma OwnDecoderConforms()
    ensures Conforming(OwnDecoder)
  {
    hide Bech32m.DecodeSegwit, SegwitCodec.EncodeSegwit, SegwitCodec.Encodable, Lower, SingleCase;
    forall address: Text, hrp: Text, version: nat, program: bytes |
      1 <= version <= 2 && |program| == 32 && (hrp == "prl" || hrp == "tprl" || hrp == "rprl")
      && SingleCase(address) && Lower(address) == SegwitCodec.EncodeSegwit(hrp, version, program)
      ensures OwnDecoder(address) == Some(WitnessScript(version, program))
    {
      KnownEncodable(hrp, version, program);
      SegwitCodec.DecodeSegwitExactly(address, hrp, version, program);
    }
  }

  lemma KnownEncodable(hrp: Text, version: nat, program: bytes)
    requires 1 <= version <= 2 && |program| == 32 && (hrp == "prl" || hrp == "tprl" || hrp == "rprl")
    ensures SegwitCodec.Encodable(hrp, version, program)
  {
    hide SegwitCodec.EncodeRaw, SegwitCodec.BytesToWords, Lower;
    PrefixLower(hrp);
    SegwitCodec.EncodedLength(hrp, [version] + SegwitCodec.BytesToWords(program));
  }

  lemma PrefixLower(hrp: Text)
    requires hrp == "prl" || hrp == "tprl" || hrp == "rprl"
    ensures hrp == Lower(hrp) && 3 <= |hrp| <= 4
  {
  }

  /** Text as the user's field keeps it: ASCII, without space characters around it. */
  predicate Typed(address: string) {
    && (forall k :: 0 <= k < |address| ==> address[k] < 128 as char)
    && Trim(address) == address
  }

  predicate ValidOn(address: string, network: Network) {
    Typed(address) && ValidateAddress(address, network).Valid?
  }

  function ProgramOf(address: string, network: Network): (program: bytes)
    requires ValidOn(address, network)
    ensures |program| == 32
  {
    ValidShape(address, network);
    ValidateAddress(address, network).decoded.program
  }

  /** The output that pays an amount to a valid address. */
  function Paid(address: string, network: Network, value: int): TxOutput
    requires ValidOn(address, network)
  {
    TxOutput(value, WitnessScript(1, ProgramOf(address, network)))
  }

  lemma HrpKnown(network: Network)
    ensures HrpOf(network) == "prl" || HrpOf(network) == "tprl" || HrpOf(network) == "rprl"
  {
  }

  /** The decoder pays what the validator showed. */
  lemma ValidDecodes(decode: Builder.Decoder, address: string, network: Network)
    requires Conforming(decode) && ValidOn(address, network)
    ensures decode(address) == Some(WitnessScript(1, ProgramOf(address, network)))
  {
    hide ValidateAddress, Trim, Lower, SegwitCodec.EncodeSegwit, HrpOf, WitnessScript;
    ValidShape(address, network);
    ValidExactly(address, network, ProgramOf(address, network));
    HrpKnown(network);
  }

  // ---------------------------------------------------------------- the pinned fee address

  function FeeProgram(network: Network): Option<bytes> {
    match network
    case Mainnet => Some(MAINNET_PROGRAM)
    case Regtest => Some(REGTEST_PROGRAM)
    case _ => None
  }

  /** The pinned address of a network is valid there and holds the pinned program. */
  lemma FeeAddressValid(network: Network)
    requires FeeAddress(network).Some?
    ensures FeeProgram(network).Some? && ValidOn(FeeAddress(network).value, network)
    ensures ProgramOf(FeeAddress(network).value, network) == FeeProgram(network).value
  {
    NetworkPinned(network);
    hide ValidateAddress, Trim, SegwitCodec.EncodeSegwit, FeeAddress, MAINNET_PROGRAM, REGTEST_PROGRAM;
    if network == Mainnet {
      MainnetAddress();
      MainnetLength();
      TaprootValid(Mainnet, MAINNET_PROGRAM);
    } else {
      RegtestAddress();
      RegtestLength();
      TaprootValid(Regtest, REGTEST_PROGRAM);
    }
  }

  lemma NetworkPinned(network: Network)
    ensures FeeAddress(network).Some? <==> network == Mainnet || network == Regtest
    ensures HrpOf(Mainnet) == "prl" && HrpOf(Regtest) == "rprl"
  {
  }

  // ---------------------------------------------------------------- the signed outputs

  /** Coins as the network lists them. */
  predicate PlainCoins(utxos: seq<Utxo>) {
    forall u :: u in utxos ==> PlainId(u) && IsHex(u.scriptPubKeyHex)
  }

  lemma ValidIsTaproot(decode: Builder.Decoder, address: string, network: Network)
    requires Conforming(decode) && ValidOn(address, network)
    ensures TaprootAddress(decode, address)
  {
    hide ValidateAddress, Conforming, Typed;
    ValidDecodes(decode, address, network);
  }

  lemma ValidIsOrdinary(decode: Builder.Decoder, network: Network, utxos: seq<Utxo>, recipient: Payment, changeAddress: string)
    requires Conforming(decode) && PlainCoins(utxos) && recipient.value >= DUST_THRESHOLD
    requires ValidOn(recipient.address, network) && ValidOn(changeAddress, network)
    ensures Ordinary(decode, network, utxos, recipient, changeAddress)
  {
    hide ValidOn, Conforming, TaprootAddress, FeeAddress, PlainId, IsHex;
    ValidIsTaproot(decode, recipient.address, network);
    ValidIsTaproot(decode, changeAddress, network);
    if FeeAddress(network).Some? {
      FeeAddressValid(network);
      ValidIsTaproot(decode, FeeAddress(network).value, network);
    }
  }

  /** The outputs of an approved payment, in order: recipient, the pinned fee, the change if any. */
  function PaidOutputs(network: Network, recipient: Payment, changeAddress: string, change: int): seq<TxOutput>
    requires FeeProgram(network).Some? && |FeeProgram(network).value| == 32
    requires ValidOn(recipient.address, network) && ValidOn(changeAddress, network)
  {
    [Paid(recipient.address, network, recipient.value),
     TxOutput(FLAT_FEE_GRAIN, WitnessScript(1, FeeProgram(network).value))]
    + if change > 0 then [Paid(changeAddress, network, change)] else []
  }

  /**
    * End to end: previewed to a valid address and signed, the transaction's outputs are the
    * recipient's program, the pinned fee program and the change program, with their amounts.
    */
  lemma ValidatedSpend(sha: bytes -> Sighash.Digest, tagged: bytes -> Sighash.Digest,
                       sign: (nat, Sighash.Digest) -> Sighash.Signature, decode: Builder.Decoder,
                       network: Network, utxos: seq<Utxo>, recipient: Payment, changeAddress: string, relayFeePerKb: Option<int>)
    requires Conforming(decode) && PlainCoins(utxos) && recipient.value >= DUST_THRESHOLD
    requires ValidOn(recipient.address, network) && ValidOn(changeAddress, network)
    requires BuildTxPreview(network, utxos, recipient, changeAddress, relayFeePerKb).Ok?
    ensures FeeProgram(network).Some? && |FeeProgram(network).value| == 32
    ensures
      var p := BuildTxPreview(network, utxos, recipient, changeAddress, relayFeePerKb).value;
      var signed := SignMessage(sha, tagged, sign, decode, DraftWire.ToWire(p.draft));
      && signed.Some?
      && signed.value.outputs == PaidOutputs(network, recipient, changeAddress, p.change)
      && p.change == Selection.Total(Coin, p.draft.inputs) - recipient.value - FLAT_FEE_GRAIN - p.networkFee
  {
    hide Conforming, ValidOn, BuildTxPreview, FeeAddress, SignMessage, Signer.Payments, DraftWire.ToWire, Builder.Pays,
      Selection.Total, Sizes.Vsize, Sizes.EstimateVsize, Sizes.EstimateVirtualSize, PlainCoins, Ordinary;
    var p := BuildTxPreview(network, utxos, recipient, changeAddress, relayFeePerKb).value;
    NoFeeNoPreview(network, utxos, recipient, changeAddress, relayFeePerKb);
    FeeAddressValid(network);
    ValidIsOrdinary(decode, network, utxos, recipient, changeAddress);
    PreviewConserves(network, utxos, recipient, changeAddress, relayFeePerKb);
    PreviewSpends(sha, tagged, sign, decode, network, utxos, recipient, changeAddress, relayFeePerKb);
    Signer.SumOfPayments(p.draft, recipient, p.draft.necklaceFee.value);
    PaysPrograms(decode, network, SignMessage(sha, tagged, sign, decode, DraftWire.ToWire(p.draft)).value.outputs,
                 recipient, changeAddress, p.change);
  }

  lemma PaysPrograms(decode: Builder.Decoder, network: Network, outputs: seq<TxOutput>, recipient: Payment,
                     changeAddress: string, change: int)
    requires Conforming(decode) && FeeAddress(network).Some?
    requires FeeProgram(network).Some? && |FeeProgram(network).value| == 32
    requires ValidOn(recipient.address, network) && ValidOn(changeAddress, network)
    requires Builder.Pays(decode, outputs, [recipient, Payment(FeeAddress(network).value, FLAT_FEE_GRAIN)]
                                           + if change > 0 then [Payment(changeAddress, change)] else [])
    ensures outputs == PaidOutputs(network, recipient, changeAddress, change)
  {
    hide Conforming, ValidOn, FeeAddress, WitnessScript, FeeProgram;
    FeeAddressValid(network);
    var feeAddress := FeeAddress(network).value;
    ValidDecodes(decode, recipient.address, network);
    ValidDecodes(decode, feeAddress, network);
    ValidDecodes(decode, changeAddress, network);
    var ps := [recipient, Payment(feeAddress, FLAT_FEE_GRAIN)] + if change > 0 then [Payment(changeAddress, change)] else [];
    PaysEach(decode, outputs, ps, PaidOutputs(network, recipient, changeAddress, change));
  }

  lemma PaysEach(decode: Builder.Decoder, outputs: seq<TxOutput>, ps: seq<Payment>, wanted: seq<TxOutput>)
    requires Builder.Pays(decode, outputs, ps) && |wanted| == |ps|
    requires forall k :: 0 <= k < |ps| ==> decode(ps[k].address) == Some(wanted[k].pkScript) && ps[k].value == wanted[k].value
    ensures outputs == wanted
  {
    forall k | 0 <= k < |ps| ensures outputs[k] == wanted[k] {
      assert decode(ps[k].address) == Some(outputs[k].pkScript);
    }
  }
}
