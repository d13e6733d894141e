/**
  * `validateAddress` of validation.ts: which recipient strings the wallet will pay.
  */
module AddressValidation {
  import opened Wrappers
  import opened Ascii
  import opened Hex
  import opened Numerals
  import opened Bech32m
  import SegwitCodec

  datatype Network = Mainnet | Testnet | Testnet2 | Regtest | Simnet | Signet

  function HrpOf(network: Network): Text {
    match network
    case Mainnet => "prl"
    case Regtest => "rprl"
    case Simnet => "rprl"
    case _ => "tprl"
  }

  datatype AddressError = Empty | Malformed | WrongNetwork | UnsupportedWitnessVersion | BadProgramLength

  /** A verdict; whatever was decoded is reported even when a later rule failed. */
  datatype Verdict =
    | Valid(decoded: Segwit)
    | Invalid(error: AddressError, details: Option<Segwit>)

  function TrimText(s: Text): Text { Trim(s) }

  function ValidateAddress(address: Text, network: Network): Verdict {
    var trimmed := TrimText(address);
    if trimmed == [] then Invalid(Empty, None)
    else match DecodeSegwit(trimmed)
      case None => Invalid(Malformed, None)
      case Some(decoded) =>
        if decoded.hrp != HrpOf(network) then Invalid(WrongNetwork, Some(decoded))
        else if |decoded.program| != 32 then Invalid(BadProgramLength, Some(decoded))
        else if decoded.witnessVersion != 1 then Invalid(UnsupportedWitnessVersion, Some(decoded))
        else Valid(decoded)
  }

  lemma HrpPlain(network: Network)
    ensures HrpOf(network) != [] && Lower(HrpOf(network)) == HrpOf(network) && |HrpOf(network)| <= 4
  {
    assert forall i :: 0 <= i < |HrpOf(network)| ==> LowerChar(HrpOf(network)[i]) == HrpOf(network)[i];
  }

  /** The addresses the wallet pays: 32-byte version-1 programs of the network. */
  lemma TaprootEncodable(network: Network, program: bytes)
    requires |program| == 32
    ensures SegwitCodec.Encodable(HrpOf(network), 1, program)
  {
    HrpPlain(network);
    SegwitCodec.EncodedLength(HrpOf(network), [1] + SegwitCodec.BytesToWords(program));
  }

  lemma VerdictIsDecoding(address: Text, network: Network, program: bytes)
    ensures ValidateAddress(address, network) == Valid(Segwit(HrpOf(network), 1, program)) <==>
            |program| == 32 && TrimText(address) != []
            && DecodeSegwit(TrimText(address)) == Some(Segwit(HrpOf(network), 1, program))
  {
    hide DecodeSegwit, Trim;
  }

  /**
    * An address is valid, with this program, exactly when its trimmed text is in one case and
    * is the encoding of the 32-byte program as witness version 1 under the network's prefix.
    */
  lemma ValidExactly(address: Text, network: Network, program: bytes)
    ensures ValidateAddress(address, network) == Valid(Segwit(HrpOf(network), 1, program)) <==>
            |program| == 32 && SingleCase(TrimText(address))
            && Lower(TrimText(address)) == SegwitCodec.EncodeSegwit(HrpOf(network), 1, program)
  {
    var trimmed := TrimText(address);
    VerdictIsDecoding(address, network, program);
    SegwitCodec.DecodeSegwitExactly(trimmed, HrpOf(network), 1, program);
    if |program| == 32 {
      TaprootEncodable(network, program);
    }
    assert trimmed == [] ==> Lower(trimmed) == [];
  }

  /** Every verdict of validity is of that form. */
  lemma ValidShape(address: Text, network: Network)
    requires ValidateAddress(address, network).Valid?
    ensures var d := ValidateAddress(address, network).decoded;
            d == Segwit(HrpOf(network), 1, d.program) && |d.program| == 32
            && FromHex(d.ProgramHex()) == Some(d.program)
  {
    hide DecodeSegwit, Trim, FromHex;
    var d := ValidateAddress(address, network).decoded;
    FromToHex(d.program);
  }

  /** The same program on two networks with different prefixes: only one accepts the string. */
  lemma NetworksDisjoint(address: Text, a: Network, b: Network)
    requires ValidateAddress(address, a).Valid? && HrpOf(a) != HrpOf(b)
    ensures ValidateAddress(address, b) == Invalid(WrongNetwork, Some(ValidateAddress(address, a).decoded))
  {
    hide DecodeSegwit, Trim;
  }

  lemma EncodedEnds(hrp: Text, data: seq<word>)
    requires hrp != []
    ensures var t := SegwitCodec.EncodeRaw(hrp, data); |t| > |hrp| && t[0] == hrp[0] && t[|t| - 1] in CHARSET
  {
    hide SegwitCodec.EncodeRaw, SegwitCodec.ChecksumOf, SegwitCodec.CharOf, CHARSET;
    SegwitCodec.EncodedText(hrp, data);
    var ws := data + SegwitCodec.ChecksumOf(hrp, data);
    SegwitCodec.WordOfChar(ws[|ws| - 1]);
  }

  lemma CharsetNotSpace(c: char)
    requires c in CHARSET
    ensures !IsSpace(c)
  {
  }

  lemma HrpStart(network: Network)
    ensures HrpOf(network) != [] && !IsSpace(HrpOf(network)[0])
  {
  }

  /** The encoding of a 32-byte program is a valid address of its network. */
  lemma TaprootValid(network: Network, program: bytes)
    requires |program| == 32
    ensures ValidateAddress(SegwitCodec.EncodeSegwit(HrpOf(network), 1, program), network)
            == Valid(Segwit(HrpOf(network), 1, program))
    ensures Trim(SegwitCodec.EncodeSegwit(HrpOf(network), 1, program)) == SegwitCodec.EncodeSegwit(HrpOf(network), 1, program)
  {
    hide SegwitCodec.EncodeRaw, SegwitCodec.BytesToWords, ValidateAddress, Trim, Lower, CHARSET, IsSpace, HrpOf;
    HrpStart(network);
    var data := [1] + SegwitCodec.BytesToWords(program);
    var address := SegwitCodec.EncodeRaw(HrpOf(network), data);
    HrpPlain(network);
    EncodedEnds(HrpOf(network), data);
    CharsetNotSpace(address[|address| - 1]);
    TrimKeeps(address);
    SegwitCodec.EncodedIsLower(HrpOf(network), data);
    ValidExactly(address, network, program);
  }

  /** What is reported for any encoding: the first of prefix, length and version that is wrong. */
  lemma EncodedVerdict(hrp: Text, version: word, program: bytes, network: Network)
    requires SegwitCodec.Encodable(hrp, version, program) && !IsSpace(hrp[0])
    ensures var decoded := Segwit(hrp, version, program);
            ValidateAddress(SegwitCodec.EncodeSegwit(hrp, version, program), network) ==
              if hrp != HrpOf(network) then Invalid(WrongNetwork, Some(decoded))
              else if |program| != 32 then Invalid(BadProgramLength, Some(decoded))
              else if version != 1 then Invalid(UnsupportedWitnessVersion, Some(decoded))
              else Valid(decoded)
  {
    hide SegwitCodec.EncodeRaw, SegwitCodec.BytesToWords, DecodeSegwit, Trim, Lower, CHARSET, IsSpace, HrpOf;
    var data := [version] + SegwitCodec.BytesToWords(program);
    var address := SegwitCodec.EncodeRaw(hrp, data);
    EncodedEnds(hrp, data);
    CharsetNotSpace(address[|address| - 1]);
    TrimKeeps(address);
    SegwitCodec.DecodeEncode(hrp, version, program);
  }

  /** The text of a valid address: 63 or 64 characters that start with the network's prefix. */
  lemma ValidText(address: Text, network: Network)
    requires ValidateAddress(address, network).Valid?
    ensures
      var t := Lower(TrimText(address));
      match network
      case Mainnet => |t| == 63 && "prl1" <= t
      case Regtest => |t| == 64 && "rprl1" <= t
      case Simnet => |t| == 64 && "rprl1" <= t
      case Testnet => |t| == 64 && "tprl1" <= t
      case Testnet2 => |t| == 64 && "tprl1" <= t
      case Signet => |t| == 64 && "tprl1" <= t
  {
    HrpLiteral(network);
    hide SegwitCodec.ChecksumOf, SegwitCodec.EncodeRaw, SegwitCodec.CharsOf, ValidateAddress, DecodeSegwit, Trim, Lower, HrpOf;
    ValidShape(address, network);
    var program := ValidateAddress(address, network).decoded.program;
    ValidExactly(address, network, program);
    SegwitCodec.EncodedText(HrpOf(network), [1] + SegwitCodec.BytesToWords(program));
  }

  lemma HrpLiteral(network: Network)
    ensures HrpOf(network) + ['1'] == match network
      case Mainnet => "prl1"
      case Regtest => "rprl1"
      case Simnet => "rprl1"
      case _ => "tprl1"
  {
  }
}
