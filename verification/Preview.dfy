/**
  * The transaction preview of preview.ts: coin selection with the relay fee of vsize.ts, and
  * the draft that the user approves.
  */
module Preview {
  import opened Wrappers
  import opened Selection
  import opened Sizes
  import opened Utxos
  import opened AddressValidation

  const MIN_RELAY_FEE_PER_KB: int := 1000
  const MAX_RELAY_FEE_PER_KB: int := 100_000
  const FLAT_FEE_GRAIN: int := 10_000_000

  /** An address and an amount: a recipient, the Necklace fee or the change. */
  datatype Payment = Payment(address: string, value: int)

  datatype TxDraft = TxDraft(network: Network, inputs: seq<Utxo>, recipients: seq<Payment>,
                             change: Option<Payment>, necklaceFee: Option<Payment>, minerFee: int)

  datatype TxPreview = TxPreview(draft: TxDraft, networkFee: int, change: int, changeDropped: bool,
                                 totalDebit: int, totalInput: int)

  datatype PreviewError =
    | FeeNotConfigured
    | Insufficient(required: int, available: int, recipientValue: int, necklaceFee: int, networkFee: int)

  /** The pinned fee addresses, in groups of eight characters; a network without one cannot send. */
  function FeeAddress(network: Network): Option<string> {
    match network
    case Mainnet => Some("prl1p" + "l0c9aqvm" + "vhm4ml8n" + "rc7s0cez" + "rgx3el67" + "nwxeywpj" + "cwl6a696" + "hp6s" + "5p8jhf")
    case Regtest => Some("rprl1p" + "w53jtgez" + "0wf69n06" + "fchp0ctk" + "48620zds" + "cnrj8heh" + "86wykp9m" + "v20q" + "dcu0t8")
    case _ => None
  }

  function RequireNecklaceFee(network: Network): Option<Payment> {
    match FeeAddress(network)
    case None => None
    case Some(address) => if FLAT_FEE_GRAIN < DUST_THRESHOLD then None else Some(Payment(address, FLAT_FEE_GRAIN))
  }

  function ClampRelayRate(rate: int): (r: int)
    ensures MIN_RELAY_FEE_PER_KB <= r <= MAX_RELAY_FEE_PER_KB
    ensures MIN_RELAY_FEE_PER_KB <= rate <= MAX_RELAY_FEE_PER_KB ==> r == rate
    ensures rate < MIN_RELAY_FEE_PER_KB ==> r == MIN_RELAY_FEE_PER_KB
    ensures rate > MAX_RELAY_FEE_PER_KB ==> r == MAX_RELAY_FEE_PER_KB
  {
    if rate < MIN_RELAY_FEE_PER_KB then MIN_RELAY_FEE_PER_KB
    else if rate > MAX_RELAY_FEE_PER_KB then MAX_RELAY_FEE_PER_KB
    else rate
  }

  function Coin(u: Utxo): int { u.value }

  /** The relay fee for `n` inputs and `nOut` outputs. */
  function Fee(n: nat, nOut: nat, rate: int): int { RelayFeeForVsize(EstimateVsize(n, nOut), rate) }

  /** The fee selection assumes: a change output exists. */
  function Fees(rate: int, nFixedOutputs: nat): nat -> int { (n: nat) => Fee(n, nFixedOutputs + 1, rate) }

  function SelectCoins(utxos: seq<Utxo>, target: int, rate: int, nFixedOutputs: nat): Option<seq<Utxo>> {
    var sorted := SortDescending(Coin, utxos);
    match FirstCount(Coin, sorted, target, Fees(rate, nFixedOutputs), 0)
    case None => None
    case Some(k) => Some(sorted[..k])
  }

  method ComputeSelectCoins(utxos: seq<Utxo>, target: int, rate: int, nFixedOutputs: nat)
    returns (r: Option<seq<Utxo>>, networkFee: int, totalInput: int)
    ensures r == SelectCoins(utxos, target, rate, nFixedOutputs)
    ensures r.Some? ==> networkFee == Fee(|r.value|, nFixedOutputs + 1, rate) && totalInput == Total(Coin, r.value)
  {
    var sorted := SortDescending(Coin, utxos);
    var selected: seq<Utxo> := [];
    networkFee, totalInput := 0, 0;
    for k := 0 to |sorted|
      invariant selected == sorted[..k] && totalInput == Total(Coin, selected)
      invariant forall j :: 0 < j <= k ==> !Covers(Coin, sorted, target, Fees(rate, nFixedOutputs), j)
    {
      assert sorted[..k + 1][..k] == sorted[..k];
      selected := selected + [sorted[k]];
      totalInput := totalInput + sorted[k].value;
      networkFee := Fee(|selected|, nFixedOutputs + 1, rate);
      if totalInput >= target + networkFee {
        assert selected == sorted[..k + 1];
        FirstIs(sorted, target, Fees(rate, nFixedOutputs), k + 1);
        r := Some(selected);
        return;
      }
    }
    r := None;
  }

  lemma FirstIs(sorted: seq<Utxo>, target: int, fees: nat -> int, k: nat)
    requires 0 < k <= |sorted| && Covers(Coin, sorted, target, fees, k)
    requires forall j :: 0 < j < k ==> !Covers(Coin, sorted, target, fees, j)
    ensures FirstCount(Coin, sorted, target, fees, 0) == Some(k)
  {
    hide Covers;
  }

  /** The preview, or why there is none. */
  function BuildTxPreview(network: Network, utxos: seq<Utxo>, recipient: Payment, changeAddress: string,
                          relayFeePerKb: Option<int>): Result<TxPreview, PreviewError>
  {
    var rate := ClampRelayRate(if relayFeePerKb.Some? then relayFeePerKb.value else DEFAULT_RELAY_FEE_PER_KB);
    match RequireNecklaceFee(network)
    case None => Err(FeeNotConfigured)
    case Some(fee) =>
      var target := recipient.value + fee.value;
      match SelectCoins(utxos, target, rate, 2)
      case None =>
        var networkFee := Fee(if |utxos| > 1 then |utxos| else 1, 3, rate);
        Err(Insufficient(target + networkFee, Total(Coin, utxos), recipient.value, fee.value, networkFee))
      case Some(inputs) => Finish(network, inputs, recipient, fee, changeAddress, rate)
  }

  /** What follows a successful selection, with its two defensive guards. */
  function Finish(network: Network, inputs: seq<Utxo>, recipient: Payment, fee: Payment, changeAddress: string, rate: int)
    : Result<TxPreview, PreviewError>
  {
    var target := recipient.value + fee.value;
    var totalInput := Total(Coin, inputs);
    var feeWithChange := Fee(|inputs|, 3, rate);
    var change := totalInput - target - feeWithChange;
    if change < 0 then
      Err(Insufficient(target + feeWithChange, totalInput, recipient.value, fee.value, feeWithChange))
    else
      var dropped := change < DUST_THRESHOLD;
      var feeNoChange := Fee(|inputs|, 2, rate);
      var absorbed := totalInput - target;
      var networkFee := if !dropped then feeWithChange else if absorbed < feeNoChange then feeNoChange else absorbed;
      var paidChange := if dropped then 0 else change;
      var draft := TxDraft(network, inputs, [recipient],
                           if dropped then None else Some(Payment(changeAddress, change)), Some(fee), networkFee);
      Ok(TxPreview(draft, networkFee, paidChange, dropped, recipient.value + fee.value + networkFee, totalInput))
  }

  method ComputeTxPreview(network: Network, utxos: seq<Utxo>, recipient: Payment, changeAddress: string,
                          relayFeePerKb: Option<int>) returns (r: Result<TxPreview, PreviewError>)
    ensures r == BuildTxPreview(network, utxos, recipient, changeAddress, relayFeePerKb)
  {
    hide SelectCoins, EstimateVsize, RelayFeeForVsize, Total, RequireNecklaceFee, Fee, ClampRelayRate;
    var rate := ClampRelayRate(if relayFeePerKb.Some? then relayFeePerKb.value else DEFAULT_RELAY_FEE_PER_KB);
    var required := RequireNecklaceFee(network);
    if required.None? {
      return Err(FeeNotConfigured);
    }
    var necklaceFee := required.value;
    var target := recipient.value + necklaceFee.value;
    var selection, networkFee, totalInput := ComputeSelectCoins(utxos, target, rate, 2);
    if selection.None? {
      networkFee := Fee(if |utxos| > 1 then |utxos| else 1, 3, rate);
      return Err(Insufficient(target + networkFee, Total(Coin, utxos), recipient.value, necklaceFee.value, networkFee));
    }
    var inputs := selection.value;
    var change := totalInput - target - networkFee;
    var changeDropped := false;
    if change < 0 {
      return Err(Insufficient(target + networkFee, totalInput, recipient.value, necklaceFee.value, networkFee));
    }
    if change < DUST_THRESHOLD {
      changeDropped := true;
      var feeNoChange := Fee(|inputs|, 2, rate);
      networkFee := totalInput - target;
      if networkFee < feeNoChange {
        networkFee := feeNoChange;
      }
      change := 0;
    }
    var changeRecipient := if changeDropped then None else Some(Payment(changeAddress, change));
    var draft := TxDraft(network, inputs, [recipient], changeRecipient, Some(necklaceFee), networkFee);
    r := Ok(TxPreview(draft, networkFee, change, changeDropped, recipient.value + necklaceFee.value + networkFee, totalInput));
  }

  // ---------------------------------------------------------------- selection

  /** A choice of coins pays the target and the with-change fee for its size. */
  ghost predicate PaysWithChange(utxos: seq<Utxo>, target: int, rate: int, nFixedOutputs: nat, choice: seq<Utxo>) {
    Pays(Coin, utxos, target, Fees(rate, nFixedOutputs), choice)
  }

  /**
    * Selection succeeds exactly when some choice of coins pays; what it selects is such a
    * choice, and no smaller choice pays.
    */
  lemma SelectCoinsComplete(utxos: seq<Utxo>, target: int, rate: int, nFixedOutputs: nat)
    ensures SelectCoins(utxos, target, rate, nFixedOutputs).Some? <==>
            exists choice :: PaysWithChange(utxos, target, rate, nFixedOutputs, choice)
    ensures SelectCoins(utxos, target, rate, nFixedOutputs).Some? ==>
              var inputs := SelectCoins(utxos, target, rate, nFixedOutputs).value;
              && PaysWithChange(utxos, target, rate, nFixedOutputs, inputs)
              && forall choice :: PaysWithChange(utxos, target, rate, nFixedOutputs, choice) ==> |inputs| <= |choice|
  {
    hide SortDescending, Fees, Pays, FirstCount;
    forall choice | PaysWithChange(utxos, target, rate, nFixedOutputs, choice)
      ensures SelectCoins(utxos, target, rate, nFixedOutputs).Some?
      ensures |SelectCoins(utxos, target, rate, nFixedOutputs).value| <= |choice|
    {
      GreedyOptimal(Coin, utxos, target, Fees(rate, nFixedOutputs), choice);
    }
    if FirstCount(Coin, SortDescending(Coin, utxos), target, Fees(rate, nFixedOutputs), 0).Some? {
      GreedyPays(Coin, utxos, target, Fees(rate, nFixedOutputs));
      assert PaysWithChange(utxos, target, rate, nFixedOutputs, SelectCoins(utxos, target, rate, nFixedOutputs).value);
    }
  }

  /** What a selection has: the coins pay, and without its last coin they do not. */
  lemma SelectedFacts(utxos: seq<Utxo>, target: int, rate: int)
    requires SelectCoins(utxos, target, rate, 2).Some?
    ensures var inputs := SelectCoins(utxos, target, rate, 2).value;
            && inputs != [] && multiset(inputs) <= multiset(utxos) && Descending(Coin, inputs)
            && Total(Coin, inputs) >= target + Fee(|inputs|, 3, rate)
            && (|inputs| > 1 ==> Total(Coin, inputs[..|inputs| - 1]) < target + Fee(|inputs| - 1, 3, rate))
  {
    hide EstimateVsize, RelayFeeForVsize, Total;
    var sorted := SortDescending(Coin, utxos);
    SortSorts(Coin, utxos);
    var k := FirstCount(Coin, sorted, target, Fees(rate, 2), 0).value;
    PrefixContained(sorted, k);
    if k > 1 {
      assert !Covers(Coin, sorted, target, Fees(rate, 2), k - 1);
      assert sorted[..k][..k - 1] == sorted[..k - 1];
    }
  }

  lemma FeeGrows(n: nat, m: nat, n': nat, m': nat, rate: nat)
    requires n <= n' && m <= m'
    ensures Fee(n, m, rate) <= Fee(n', m', rate)
  {
    EstimateVsizeMonotone(n, m, n', m');
    RelayFeeMonotone(EstimateVsize(n, m), EstimateVsize(n', m'), rate);
  }

  /** A payment that costs anything never spends a worthless or negative coin. */
  lemma SelectedPositive(utxos: seq<Utxo>, target: int, rate: nat)
    requires target >= 0 && rate > 0 && SelectCoins(utxos, target, rate, 2).Some?
    ensures forall u :: u in SelectCoins(utxos, target, rate, 2).value ==> u.value > 0
  {
    SelectedFacts(utxos, target, rate);
    var inputs := SelectCoins(utxos, target, rate, 2).value;
    var k := |inputs| - 1;
    var last := inputs[k];
    if k > 0 {
      FeeGrows(k, 3, |inputs|, 3, rate);
    }
    assert last.value > 0;
    forall i | 0 <= i < |inputs|
      ensures inputs[i].value > 0
    {
      assert i < k ==> Coin(inputs[i]) >= Coin(last);
    }
  }

  // ---------------------------------------------------------------- the draft

  function PreviewRate(relayFeePerKb: Option<int>): (rate: nat)
    ensures MIN_RELAY_FEE_PER_KB <= rate <= MAX_RELAY_FEE_PER_KB
    ensures relayFeePerKb.None? ==> rate == DEFAULT_RELAY_FEE_PER_KB
    ensures relayFeePerKb.Some? && MIN_RELAY_FEE_PER_KB <= relayFeePerKb.value <= MAX_RELAY_FEE_PER_KB ==> rate == relayFeePerKb.value
  {
    ClampRelayRate(if relayFeePerKb.Some? then relayFeePerKb.value else DEFAULT_RELAY_FEE_PER_KB)
  }

  /** The number of outputs of a draft's transaction. */
  function OutputCount(d: TxDraft): nat {
    |d.recipients| + (if d.necklaceFee.Some? then 1 else 0) + (if d.change.Some? then 1 else 0)
  }

  /**
    * A preview conserves value to the Grain, in both change branches; neither defensive guard
    * is taken, so the network fee is the with-change fee or, with change dropped, everything left.
    */
  lemma PreviewConserves(network: Network, utxos: seq<Utxo>, recipient: Payment, changeAddress: string, relayFeePerKb: Option<int>)
    requires BuildTxPreview(network, utxos, recipient, changeAddress, relayFeePerKb).Ok?
    ensures
      var p := BuildTxPreview(network, utxos, recipient, changeAddress, relayFeePerKb).value;
      var fee := RequireNecklaceFee(network).value;
      && p.draft.network == network && FeeAddress(network) == Some(fee.address) && fee.value == FLAT_FEE_GRAIN
      && p.draft.recipients == [recipient] && p.draft.necklaceFee == Some(fee) && p.draft.minerFee == p.networkFee
      && multiset(p.draft.inputs) <= multiset(utxos) && p.draft.inputs != []
      && p.totalInput == Total(Coin, p.draft.inputs)
      && p.totalInput == recipient.value + fee.value + p.change + p.networkFee
      && p.totalDebit == p.totalInput - p.change
      && (if p.changeDropped then p.change == 0 && p.draft.change == None
          else p.change >= DUST_THRESHOLD && p.draft.change == Some(Payment(changeAddress, p.change)))
  {
    NoFeeNoPreview(network, utxos, recipient, changeAddress, relayFeePerKb);
    BuiltByFinish(network, utxos, recipient, changeAddress, relayFeePerKb);
    var fee := RequireNecklaceFee(network).value;
    var inputs := SelectCoins(utxos, recipient.value + fee.value, PreviewRate(relayFeePerKb), 2).value;
    FinishConserves(network, inputs, recipient, fee, changeAddress, PreviewRate(relayFeePerKb));
  }

  /** A preview is the finish of a selection that pays. */
  lemma BuiltByFinish(network: Network, utxos: seq<Utxo>, recipient: Payment, changeAddress: string, relayFeePerKb: Option<int>)
    requires FeeAddress(network).Some?
    ensures RequireNecklaceFee(network) == Some(Payment(FeeAddress(network).value, FLAT_FEE_GRAIN))
    ensures
      var rate := PreviewRate(relayFeePerKb);
      var fee := RequireNecklaceFee(network).value;
      var selection := SelectCoins(utxos, recipient.value + fee.value, rate, 2);
      && (selection.None? ==> BuildTxPreview(network, utxos, recipient, changeAddress, relayFeePerKb).Err?
                              && BuildTxPreview(network, utxos, recipient, changeAddress, relayFeePerKb).error.Insufficient?)
      && (selection.Some? ==>
            && BuildTxPreview(network, utxos, recipient, changeAddress, relayFeePerKb)
                 == Finish(network, selection.value, recipient, fee, changeAddress, rate)
            && multiset(selection.value) <= multiset(utxos) && selection.value != []
            && Total(Coin, selection.value) >= recipient.value + fee.value + Fee(|selection.value|, 3, rate))
  {
    hide SelectCoins, Fee, Total, FeeAddress, Finish, ClampRelayRate, RequireNecklaceFee;
    FeeRequired(network);
    var target := recipient.value + FLAT_FEE_GRAIN;
    if SelectCoins(utxos, target, PreviewRate(relayFeePerKb), 2).Some? {
      SelectedFacts(utxos, target, PreviewRate(relayFeePerKb));
    }
  }

  lemma FeeRequired(network: Network)
    ensures FeeAddress(network).Some? ==>
              RequireNecklaceFee(network) == Some(Payment(FeeAddress(network).value, FLAT_FEE_GRAIN))
    ensures FeeAddress(network).None? ==> RequireNecklaceFee(network) == None
  {
    hide FeeAddress;
  }

  lemma FinishConserves(network: Network, inputs: seq<Utxo>, recipient: Payment, fee: Payment, changeAddress: string, rate: nat)
    requires Total(Coin, inputs) >= recipient.value + fee.value + Fee(|inputs|, 3, rate)
    ensures Finish(network, inputs, recipient, fee, changeAddress, rate).Ok?
    ensures
      var p := Finish(network, inputs, recipient, fee, changeAddress, rate).value;
      && p.draft.network == network && p.draft.inputs == inputs
      && p.draft.recipients == [recipient] && p.draft.necklaceFee == Some(fee) && p.draft.minerFee == p.networkFee
      && p.totalInput == Total(Coin, inputs)
      && p.totalInput == recipient.value + fee.value + p.change + p.networkFee
      && p.totalDebit == p.totalInput - p.change
      && (if p.changeDropped then p.change == 0 && p.draft.change == None
          else p.change >= DUST_THRESHOLD && p.draft.change == Some(Payment(changeAddress, p.change))
               && p.networkFee == Fee(|inputs|, 3, rate))
      && Fee(|inputs|, 3, rate) <= p.networkFee < Fee(|inputs|, 3, rate) + DUST_THRESHOLD
  {
    hide Fee, Total;
    FeeGrows(|inputs|, 2, |inputs|, 3, rate);
    var change := Total(Coin, inputs) - (recipient.value + fee.value) - Fee(|inputs|, 3, rate);
    assert change >= 0;
  }

  /** Exactly when there is no preview: no pinned fee address, or no choice of coins pays. */
  lemma PreviewFails(network: Network, utxos: seq<Utxo>, recipient: Payment, changeAddress: string, relayFeePerKb: Option<int>)
    ensures
      var r := BuildTxPreview(network, utxos, recipient, changeAddress, relayFeePerKb);
      && (r == Err(FeeNotConfigured) <==> FeeAddress(network).None?)
      && (FeeAddress(network).Some? ==>
            var target := recipient.value + FLAT_FEE_GRAIN;
            r.Err? <==> !exists choice :: PaysWithChange(utxos, target, PreviewRate(relayFeePerKb), 2, choice))
  {
    hide PaysWithChange, FeeAddress, Total, Fee, SelectCoins, Finish, ClampRelayRate, BuildTxPreview;
    NoFeeNoPreview(network, utxos, recipient, changeAddress, relayFeePerKb);
    if FeeAddress(network).Some? {
      var target := recipient.value + FLAT_FEE_GRAIN;
      var rate := PreviewRate(relayFeePerKb);
      SelectCoinsComplete(utxos, target, rate, 2);
      BuiltByFinish(network, utxos, recipient, changeAddress, relayFeePerKb);
      if SelectCoins(utxos, target, rate, 2).Some? {
        FinishConserves(network, SelectCoins(utxos, target, rate, 2).value, recipient,
                        RequireNecklaceFee(network).value, changeAddress, rate);
      }
    }
  }

  lemma NoFeeNoPreview(network: Network, utxos: seq<Utxo>, recipient: Payment, changeAddress: string, relayFeePerKb: Option<int>)
    ensures FeeAddress(network).None? ==>
              BuildTxPreview(network, utxos, recipient, changeAddress, relayFeePerKb) == Err(FeeNotConfigured)
  {
    hide SelectCoins, Fee, Total, FeeAddress, Finish, ClampRelayRate;
  }

  /** The user is told of all coins, of what the payment would take with all of them, and of less than that. */
  lemma PreviewShortfall(network: Network, utxos: seq<Utxo>, recipient: Payment, changeAddress: string, relayFeePerKb: Option<int>)
    requires BuildTxPreview(network, utxos, recipient, changeAddress, relayFeePerKb).Err? && FeeAddress(network).Some?
    requires recipient.value >= 0
    ensures
      var e := BuildTxPreview(network, utxos, recipient, changeAddress, relayFeePerKb).error;
      && e.Insufficient? && e.recipientValue == recipient.value && e.necklaceFee == FLAT_FEE_GRAIN
      && e.required == e.recipientValue + e.necklaceFee + e.networkFee
      && e.available == Total(Coin, utxos) < e.required
      && LeastFee(e.networkFee, PreviewRate(relayFeePerKb), EstimateVsize(if utxos == [] then 1 else |utxos|, 3))
  {
    hide FeeAddress, Total, SelectCoins, Finish, ClampRelayRate, RequireNecklaceFee, EstimateVsize, RelayFeeForVsize;
    var rate := PreviewRate(relayFeePerKb);
    var target := recipient.value + FLAT_FEE_GRAIN;
    FeeRequired(network);
    PreviewFails(network, utxos, recipient, changeAddress, relayFeePerKb);
    BuiltByFinish(network, utxos, recipient, changeAddress, relayFeePerKb);
    if SelectCoins(utxos, target, rate, 2).Some? {
      FinishConserves(network, SelectCoins(utxos, target, rate, 2).value, recipient,
                      RequireNecklaceFee(network).value, changeAddress, rate);
    }
    RelayFeeMeetsRate(EstimateVsize(if utxos == [] then 1 else |utxos|, 3), rate);
    AllCoinsShort(utxos, target, rate);
  }

  lemma AllCoinsShort(utxos: seq<Utxo>, target: nat, rate: nat)
    requires SelectCoins(utxos, target, rate, 2).None? && rate > 0
    ensures Total(Coin, utxos) < target + Fee(if utxos == [] then 1 else |utxos|, 3, rate)
  {
    hide SelectCoins, EstimateVsize, RelayFeeForVsize;
    if utxos == [] {
      RelayFeeMeetsRate(EstimateVsize(1, 3), rate);
    } else {
      SelectCoinsComplete(utxos, target, rate, 2);
      assert !PaysWithChange(utxos, target, rate, 2, utxos);
    }
  }

  lemma ChangeOutputSize(n: nat)
    ensures EstimateVsize(n, 3) == EstimateVsize(n, 2) + 43
  {
  }

  /** Upper bounds on a fee: the least fee of a size, or less than the dust floor above one. */
  predicate FeeTight(fee: int, changeDropped: bool, rate: int, sizeWithChange: int) {
    if changeDropped then fee - 545 <= rate || (fee - 546) * 1000 < rate * sizeWithChange
    else LeastFee(fee, rate, sizeWithChange)
  }

  lemma FeesTight(fee: int, least: int, changeDropped: bool, rate: int, sizeWithChange: int)
    requires LeastFee(least, rate, sizeWithChange) && least <= fee < least + DUST_THRESHOLD
    requires !changeDropped ==> fee == least
    ensures FeeTight(fee, changeDropped, rate, sizeWithChange)
  {
  }

  /**
    * The network fee meets the clamped rate for the size the signed transaction will have, in
    * both change branches. With change it is the least fee that does; with change dropped it
    * is less than the dust floor above the least fee of a transaction with one more output.
    */
  lemma PreviewMeetsRate(network: Network, utxos: seq<Utxo>, recipient: Payment, changeAddress: string, relayFeePerKb: Option<int>)
    requires BuildTxPreview(network, utxos, recipient, changeAddress, relayFeePerKb).Ok?
    ensures
      var p := BuildTxPreview(network, utxos, recipient, changeAddress, relayFeePerKb).value;
      var rate := PreviewRate(relayFeePerKb);
      var size := EstimateVsize(|p.draft.inputs|, OutputCount(p.draft));
      && p.networkFee >= rate && p.networkFee * 1000 >= rate * size
      && Fee(|p.draft.inputs|, 3, rate) <= p.networkFee < Fee(|p.draft.inputs|, 3, rate) + DUST_THRESHOLD
      && FeeTight(p.networkFee, p.changeDropped, rate, if p.changeDropped then size + 43 else size)
  {
    hide FeeAddress, Total, SelectCoins, Finish, ClampRelayRate, BuildTxPreview, EstimateVsize, RelayFeeForVsize,
      FeeTight, LeastFee;
    NoFeeNoPreview(network, utxos, recipient, changeAddress, relayFeePerKb);
    BuiltByFinish(network, utxos, recipient, changeAddress, relayFeePerKb);
    var rate := PreviewRate(relayFeePerKb);
    var fee := RequireNecklaceFee(network).value;
    var inputs := SelectCoins(utxos, recipient.value + fee.value, rate, 2).value;
    FinishConserves(network, inputs, recipient, fee, changeAddress, rate);
    var p := BuildTxPreview(network, utxos, recipient, changeAddress, relayFeePerKb).value;
    RelayFeeMeetsRate(EstimateVsize(|inputs|, 3), rate);
    ChangeOutputSize(|inputs|);
    FeesTight(p.networkFee, Fee(|inputs|, 3, rate), p.changeDropped, rate, EstimateVsize(|inputs|, 3));
    FeeCovers(p.networkFee, Fee(|inputs|, 3, rate), rate, EstimateVsize(|inputs|, 3), EstimateVsize(|inputs|, OutputCount(p.draft)));
  }

  lemma FeeCovers(fee: int, least: int, rate: nat, sizeWithChange: nat, size: nat)
    requires LeastFee(least, rate, sizeWithChange) && least <= fee && size <= sizeWithChange
    ensures fee >= rate && fee * 1000 >= rate * size
  {
    MulLe(rate, size, sizeWithChange);
  }
}
