/**
  * The message form of a draft (tx-wire.ts): every amount as decimal text.
  */
module DraftWire {
  import opened Wrappers
  import opened AddressValidation
  import opened Utxos
  import opened Preview
  import Decimal

  datatype WireUtxo = WireUtxo(txid: string, vout: int, value: string, scriptPubKeyHex: string,
                               address: Option<string>, confirmations: Option<int>)

  datatype WireAmount = WireAmount(address: string, value: string)

  datatype WireDraft = WireDraft(network: Network, inputs: seq<WireUtxo>, recipients: seq<WireAmount>,
                                 change: Option<WireAmount>, necklaceFee: Option<WireAmount>, minerFee: string)

  function UtxoToWire(u: Utxo): WireUtxo {
    WireUtxo(u.txid, u.vout, Decimal.Print(u.value), u.scriptPubKeyHex, u.address, u.confirmations)
  }

  function UtxoFromWire(w: WireUtxo): Option<Utxo> {
    match Decimal.Parse(w.value)
    case None => None
    case Some(value) => Some(Utxo(w.txid, w.vout, value, w.scriptPubKeyHex, w.address, w.confirmations))
  }

  function PaymentToWire(p: Payment): WireAmount { WireAmount(p.address, Decimal.Print(p.value)) }

  function PaymentFromWire(w: WireAmount): Option<Payment> {
    match Decimal.Parse(w.value)
    case None => None
    case Some(value) => Some(Payment(w.address, value))
  }

  function Map<A, B>(f: A -> B, xs: seq<A>): (ys: seq<B>)
    ensures |ys| == |xs|
  {
    seq(|xs|, k requires 0 <= k < |xs| => f(xs[k]))
  }

  /** Every element converted, or None as soon as one throws. */
  function All<A, B>(f: A -> Option<B>, xs: seq<A>): Option<seq<B>> {
    if xs == [] then Some([])
    else
      match All(f, xs[..|xs| - 1])
      case None => None
      case Some(ys) =>
        match f(xs[|xs| - 1])
        case None => None
        case Some(y) => Some(ys + [y])
  }

  function Optional<A, B>(f: A -> Option<B>, x: Option<A>): Option<Option<B>> {
    match x
    case None => Some(None)
    case Some(a) => match f(a) case None => None case Some(b) => Some(Some(b))
  }

  function OptionalToWire(p: Option<Payment>): Option<WireAmount> {
    match p case None => None case Some(v) => Some(PaymentToWire(v))
  }

  /** `toWireTxDraft`. */
  function ToWire(d: TxDraft): WireDraft {
    WireDraft(d.network, Map(UtxoToWire, d.inputs), Map(PaymentToWire, d.recipients),
              OptionalToWire(d.change), OptionalToWire(d.necklaceFee), Decimal.Print(d.minerFee))
  }

  /** `fromWireTxDraft`: None is the error of `BigInt`. */
  function FromWire(w: WireDraft): Option<TxDraft> {
    var inputs := All(UtxoFromWire, w.inputs);
    var recipients := All(PaymentFromWire, w.recipients);
    var change := Optional(PaymentFromWire, w.change);
    var fee := Optional(PaymentFromWire, w.necklaceFee);
    var minerFee := Decimal.Parse(w.minerFee);
    if inputs.None? || recipients.None? || change.None? || fee.None? || minerFee.None? then None
    else Some(TxDraft(w.network, inputs.value, recipients.value, change.value, fee.value, minerFee.value))
  }

  lemma {:induction false} AllUndoesMap<A, B>(to: A -> B, from: B -> Option<A>, xs: seq<A>)
    requires forall x :: x in xs ==> from(to(x)) == Some(x)
    ensures All(from, Map(to, xs)) == Some(xs)
  {
    if xs == [] {
      assert Map(to, xs) == [];
    } else {
      var init, last := xs[..|xs| - 1], xs[|xs| - 1];
      AllUndoesMap(to, from, init);
      assert Map(to, xs)[..|xs| - 1] == Map(to, init);
      assert Map(to, xs)[|xs| - 1] == to(last);
      assert xs == init + [last];
    }
  }

  lemma UtxoRoundTrip(u: Utxo)
    ensures UtxoFromWire(UtxoToWire(u)) == Some(u)
  {
    Decimal.ParseOfPrint(u.value);
  }

  lemma PaymentRoundTrip(p: Payment)
    ensures PaymentFromWire(PaymentToWire(p)) == Some(p)
  {
    Decimal.ParseOfPrint(p.value);
  }

  lemma UtxosRoundTrip(us: seq<Utxo>)
    ensures All(UtxoFromWire, Map(UtxoToWire, us)) == Some(us)
  {
    hide UtxoFromWire, UtxoToWire, All, Map;
    forall u | u in us ensures UtxoFromWire(UtxoToWire(u)) == Some(u) { UtxoRoundTrip(u); }
    AllUndoesMap(UtxoToWire, UtxoFromWire, us);
  }

  lemma PaymentsRoundTrip(ps: seq<Payment>)
    ensures All(PaymentFromWire, Map(PaymentToWire, ps)) == Some(ps)
  {
    hide PaymentFromWire, PaymentToWire, All, Map;
    forall p | p in ps ensures PaymentFromWire(PaymentToWire(p)) == Some(p) { PaymentRoundTrip(p); }
    AllUndoesMap(PaymentToWire, PaymentFromWire, ps);
  }

  lemma OptionalRoundTrip(p: Option<Payment>)
    ensures Optional(PaymentFromWire, OptionalToWire(p)) == Some(p)
  {
    hide PaymentFromWire, PaymentToWire;
    if p.Some? { PaymentRoundTrip(p.value); }
  }

  /** Any draft at all, with amounts of either sign, crosses the message boundary unchanged. */
  lemma WireRoundTrip(d: TxDraft)
    ensures FromWire(ToWire(d)) == Some(d)
  {
    UtxosRoundTrip(d.inputs);
    PaymentsRoundTrip(d.recipients);
    OptionalRoundTrip(d.change);
    OptionalRoundTrip(d.necklaceFee);
    Decimal.ParseOfPrint(d.minerFee);
  }
}
