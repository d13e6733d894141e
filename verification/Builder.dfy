/**
  * The transaction builder of transaction.ts. Address decoding is a partial map from address
  * to output script, given as a parameter.
  */
module Builder {
  import opened Wrappers
  import opened Hex
  import opened Wire
  import opened Utxos
  import opened Preview

  const DEFAULT_SEQUENCE: int := 0xffff_ffff
  const DEFAULT_TX_VERSION: int := 1

  type Decoder = string -> Option<bytes>

  datatype Role = RecipientRole | FeeRole | ChangeRole

  datatype Annotated = Annotated(output: TxOutput, role: Role, address: string)

  datatype SigningInput = SigningInput(txid: string, vout: int, sequence: int, prevValue: int, prevPkScript: bytes)

  datatype SelectedInput = SelectedInput(utxo: Utxo, sequence: Option<int>)
  {
    function Sequence(): int { if sequence.Some? then sequence.value else DEFAULT_SEQUENCE }
  }

  datatype Draft = Draft(tx: WireTx, signingInputs: seq<SigningInput>, annotated: seq<Annotated>)

  datatype BuildError =
    | NoInputs | NoRecipients | NegativeInput | BadScript
    | DustRecipient | BadAddress | DustChange | FeeNotPositive | DustFee | NegativeMinerFee

  function InputOf(u: SelectedInput): TxInput {
    TxInput(u.utxo.txid, u.utxo.vout, [], u.Sequence(), [])
  }

  function SigningOf(u: SelectedInput): Result<SigningInput, BuildError> {
    if u.utxo.value < 0 then Err(NegativeInput)
    else match FromHex(u.utxo.scriptPubKeyHex)
      case None => Err(BadScript)
      case Some(script) => Ok(SigningInput(u.utxo.txid, u.utxo.vout, u.Sequence(), u.utxo.value, script))
  }

  function OutputOf(decode: Decoder, p: Payment, role: Role): Result<Annotated, BuildError> {
    match decode(p.address)
    case None => Err(BadAddress)
    case Some(script) => Ok(Annotated(TxOutput(p.value, script), role, p.address))
  }

  function RecipientOf(decode: Decoder, p: Payment): Result<Annotated, BuildError> {
    if p.value < DUST_THRESHOLD then Err(DustRecipient) else OutputOf(decode, p, RecipientRole)
  }

  /** Map a step over a list; the first error stops it. */
  function Collect<A, B>(f: A -> Result<B, BuildError>, xs: seq<A>): (r: Result<seq<B>, BuildError>)
    ensures r.Ok? ==> |r.value| == |xs| && forall k :: 0 <= k < |xs| ==> f(xs[k]) == Ok(r.value[k])
    ensures r.Err? ==> exists k :: 0 <= k < |xs| && f(xs[k]) == Err(r.error) && forall j :: 0 <= j < k ==> f(xs[j]).Ok?
  {
    if xs == [] then Ok([])
    else
      var last := |xs| - 1;
      match Collect(f, xs[..last])
      case Err(e) => Err(e)
      case Ok(ys) =>
        match f(xs[last])
        case Err(e) => Err(e)
        case Ok(y) => Ok(ys + [y])
  }

  function Inputs(us: seq<SelectedInput>): (r: seq<TxInput>)
    ensures |r| == |us|
  {
    seq(|us|, k requires 0 <= k < |us| => InputOf(us[k]))
  }

  function Outputs(annotated: seq<Annotated>): (r: seq<TxOutput>)
    ensures |r| == |annotated|
  {
    seq(|annotated|, k requires 0 <= k < |annotated| => annotated[k].output)
  }

  /** The change output, if any: dust change is refused, no or non-positive change is left out. */
  function ChangeOutputs(decode: Decoder, changeAddress: Option<string>, changeValue: int): Result<seq<Annotated>, BuildError> {
    if changeAddress.None? || changeValue <= 0 then Ok([])
    else if changeValue < DUST_THRESHOLD then Err(DustChange)
    else match OutputOf(decode, Payment(changeAddress.value, changeValue), ChangeRole)
      case Err(e) => Err(e)
      case Ok(a) => Ok([a])
  }

  function Signings(us: seq<SelectedInput>): Result<seq<SigningInput>, BuildError> { Collect(SigningOf, us) }

  function Recipients(decode: Decoder, ps: seq<Payment>): Result<seq<Annotated>, BuildError> {
    Collect((p: Payment) => RecipientOf(decode, p), ps)
  }

  function BuildTransaction(decode: Decoder, outputs: seq<Payment>, us: seq<SelectedInput>,
                            changeAddress: Option<string>, changeValue: int): Result<Draft, BuildError>
  {
    if us == [] then Err(NoInputs)
    else if outputs == [] then Err(NoRecipients)
    else match Signings(us)
      case Err(e) => Err(e)
      case Ok(signing) =>
        match Recipients(decode, outputs)
        case Err(e) => Err(e)
        case Ok(recipients) =>
          match ChangeOutputs(decode, changeAddress, changeValue)
          case Err(e) => Err(e)
          case Ok(change) =>
            var annotated := recipients + change;
            Ok(Draft(WireTx(DEFAULT_TX_VERSION, Inputs(us), Outputs(annotated), 0), signing, annotated))
  }

  method ComputeBuildTransaction(decode: Decoder, outputs: seq<Payment>, us: seq<SelectedInput>,
                                 changeAddress: Option<string>, changeValue: int) returns (r: Result<Draft, BuildError>)
    ensures r == BuildTransaction(decode, outputs, us, changeAddress, changeValue)
  {
    hide FromHex, IsHex, Collect;
    if us == [] {
      return Err(NoInputs);
    }
    if outputs == [] {
      return Err(NoRecipients);
    }
    var inputs, signingInputs, error := BuildInputs(us);
    if error.Some? {
      return Err(error.value);
    }
    var txOutputs, annotated, error' := BuildOutputs(decode, outputs);
    if error'.Some? {
      return Err(error'.value);
    }
    assert annotated + [] == annotated;
    if changeAddress.Some? && changeValue >= DUST_THRESHOLD {
      var pkScript := decode(changeAddress.value);
      if pkScript.None? {
        return Err(BadAddress);
      }
      txOutputs := txOutputs + [TxOutput(changeValue, pkScript.value)];
      annotated := annotated + [Annotated(TxOutput(changeValue, pkScript.value), ChangeRole, changeAddress.value)];
    } else if changeAddress.Some? && changeValue > 0 {
      return Err(DustChange);
    }
    assert txOutputs == Outputs(annotated);
    r := Ok(Draft(WireTx(DEFAULT_TX_VERSION, inputs, txOutputs, 0), signingInputs, annotated));
  }

  /** The input loop: wire inputs and signing context side by side. */
  method BuildInputs(us: seq<SelectedInput>)
    returns (inputs: seq<TxInput>, signingInputs: seq<SigningInput>, error: Option<BuildError>)
    ensures Signings(us) == (if error.Some? then Err(error.value) else Ok(signingInputs))
    ensures error.None? ==> inputs == Inputs(us)
  {
    hide FromHex, IsHex;
    inputs, signingInputs, error := [], [], None;
    for k := 0 to |us|
      invariant inputs == Inputs(us[..k]) && Signings(us[..k]) == Ok(signingInputs)
      invariant error.None?
    {
      var u := us[k];
      CollectStep(SigningOf, us, k);
      if u.utxo.value < 0 {
        error := Some(NegativeInput);
        return;
      }
      var script := FromHex(u.utxo.scriptPubKeyHex);
      if script.None? {
        error := Some(BadScript);
        return;
      }
      inputs := inputs + [TxInput(u.utxo.txid, u.utxo.vout, [], u.Sequence(), [])];
      signingInputs := signingInputs + [SigningInput(u.utxo.txid, u.utxo.vout, u.Sequence(), u.utxo.value, script.value)];
    }
    assert us[..|us|] == us;
  }

  method BuildOutputs(decode: Decoder, outputs: seq<Payment>)
    returns (txOutputs: seq<TxOutput>, annotated: seq<Annotated>, error: Option<BuildError>)
    ensures Recipients(decode, outputs) == (if error.Some? then Err(error.value) else Ok(annotated))
    ensures error.None? ==> txOutputs == Outputs(annotated)
  {
    txOutputs, annotated, error := [], [], None;
    ghost var f := (p: Payment) => RecipientOf(decode, p);
    for k := 0 to |outputs|
      invariant txOutputs == Outputs(annotated) && Collect(f, outputs[..k]) == Ok(annotated)
      invariant error.None?
    {
      var out := outputs[k];
      CollectStep(f, outputs, k);
      if out.value < DUST_THRESHOLD {
        error := Some(DustRecipient);
        return;
      }
      var pkScript := decode(out.address);
      if pkScript.None? {
        error := Some(BadAddress);
        return;
      }
      txOutputs := txOutputs + [TxOutput(out.value, pkScript.value)];
      annotated := annotated + [Annotated(TxOutput(out.value, pkScript.value), RecipientRole, out.address)];
    }
    assert outputs[..|outputs|] == outputs;
  }

  /** One more element, or the error at which the whole list stops. */
  lemma {:induction false} CollectStep<A, B>(f: A -> Result<B, BuildError>, xs: seq<A>, k: nat)
    requires k < |xs| && Collect(f, xs[..k]).Ok?
    ensures f(xs[k]).Ok? ==> Collect(f, xs[..k + 1]) == Ok(Collect(f, xs[..k]).value + [f(xs[k]).value])
    ensures f(xs[k]).Err? ==> Collect(f, xs) == Err(f(xs[k]).error)
  {
    assert xs[..k + 1][..k] == xs[..k];
    if f(xs[k]).Err? {
      CollectStops(f, xs, k + 1);
    }
  }

  lemma {:induction false} CollectStops<A, B>(f: A -> Result<B, BuildError>, xs: seq<A>, k: nat)
    requires k <= |xs| && Collect(f, xs[..k]).Err?
    ensures Collect(f, xs) == Collect(f, xs[..k])
    decreases |xs| - k
  {
    if k == |xs| {
      assert xs[..k] == xs;
    } else {
      assert xs[..k + 1][..k] == xs[..k];
      CollectStops(f, xs, k + 1);
    }
  }

  // ---------------------------------------------------------------- the visible fee output

  /** Where a trailing change output starts, else the end. */
  function InsertAt(annotated: seq<Annotated>): (k: nat)
    ensures k <= |annotated|
  {
    if annotated == [] then 0
    else if annotated[0].role == ChangeRole then 0
    else 1 + InsertAt(annotated[1..])
  }

  /** `splice(at, 0, x)`. */
  function Splice<T>(xs: seq<T>, at: nat, x: T): seq<T>
    requires at <= |xs|
  {
    xs[..at] + [x] + xs[at..]
  }

  function AddWalletFeeOutput(decode: Decoder, draft: Draft, fee: Payment): Result<Draft, BuildError>
    requires |draft.tx.outputs| == |draft.annotated|
  {
    if fee.value <= 0 then Err(FeeNotPositive)
    else if fee.value < DUST_THRESHOLD then Err(DustFee)
    else match OutputOf(decode, fee, FeeRole)
      case Err(e) => Err(e)
      case Ok(a) =>
        var at := InsertAt(draft.annotated);
        Ok(Draft(draft.tx.(outputs := Splice(draft.tx.outputs, at, a.output)), draft.signingInputs,
                 Splice(draft.annotated, at, a)))
  }

  method ComputeAddWalletFeeOutput(decode: Decoder, draft: Draft, fee: Payment) returns (r: Result<Draft, BuildError>)
    requires |draft.tx.outputs| == |draft.annotated|
    ensures r == AddWalletFeeOutput(decode, draft, fee)
  {
    if fee.value <= 0 {
      return Err(FeeNotPositive);
    }
    if fee.value < DUST_THRESHOLD {
      return Err(DustFee);
    }
    var pkScript := decode(fee.address);
    if pkScript.None? {
      return Err(BadAddress);
    }
    var outputs, annotated := draft.tx.outputs, draft.annotated;
    var at := 0;
    while at < |annotated| && annotated[at].role != ChangeRole
      invariant 0 <= at <= |annotated|
      invariant InsertAt(annotated) == at + InsertAt(annotated[at..])
    {
      at := at + 1;
    }
    var output := TxOutput(fee.value, pkScript.value);
    outputs := Splice(outputs, at, output);
    annotated := Splice(annotated, at, Annotated(output, FeeRole, fee.address));
    r := Ok(Draft(draft.tx.(outputs := outputs), draft.signingInputs, annotated));
  }

  function TotalOutputValue(outputs: seq<TxOutput>): int {
    if outputs == [] then 0 else TotalOutputValue(outputs[..|outputs| - 1]) + outputs[|outputs| - 1].value
  }

  function TotalInputValue(inputs: seq<SigningInput>): int {
    if inputs == [] then 0 else TotalInputValue(inputs[..|inputs| - 1]) + inputs[|inputs| - 1].prevValue
  }

  function ImpliedMinerFee(draft: Draft): Result<int, BuildError> {
    var fee := TotalInputValue(draft.signingInputs) - TotalOutputValue(draft.tx.outputs);
    if fee < 0 then Err(NegativeMinerFee) else Ok(fee)
  }

  // ---------------------------------------------------------------- what is built

  /** The outputs of the recipients, in order. */
  predicate Pays(decode: Decoder, outputs: seq<TxOutput>, ps: seq<Payment>) {
    |outputs| == |ps| && forall k :: 0 <= k < |ps| ==> decode(ps[k].address) == Some(outputs[k].pkScript) && outputs[k].value == ps[k].value
  }

  lemma {:induction false} InsertAtChange(recipients: seq<Annotated>, change: seq<Annotated>)
    requires forall k :: 0 <= k < |recipients| ==> recipients[k].role == RecipientRole
    requires forall k :: 0 <= k < |change| ==> change[k].role == ChangeRole
    ensures InsertAt(recipients + change) == |recipients|
  {
    if recipients == [] {
      assert recipients + change == change;
    } else {
      assert (recipients + change)[1..] == recipients[1..] + change;
      InsertAtChange(recipients[1..], change);
    }
  }
}
