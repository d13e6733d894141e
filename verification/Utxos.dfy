/**
  * Coin eligibility and the fee-aware selector of utxo.ts.
  */
module Utxos {
  import opened Wrappers
  import opened Hex
  import opened Selection
  import opened Sizes

  const DUST_THRESHOLD: int := 546
  const COINBASE_MATURITY: int := 100
  const DEFAULT_RELAY_FEE_PER_KB: int := 1000

  datatype Utxo = Utxo(txid: string, vout: int, value: int, scriptPubKeyHex: string,
                       address: Option<string>, confirmations: Option<int>)

  datatype Candidate = Candidate(utxo: Utxo, fromCoinbase: bool, spendable: Option<bool>)

  datatype FeePolicy = FeePolicy(flatFee: int, outputScriptSizes: seq<nat>,
                                 relayFeePerKb: Option<int>, minConfirmations: Option<int>)
  {
    function Rate(): int { if relayFeePerKb.Some? then relayFeePerKb.value else DEFAULT_RELAY_FEE_PER_KB }
    function MinConfirmations(): int { if minConfirmations.Some? then minConfirmations.value else 1 }

    /** The network fee for `n` inputs, with or without a change output. */
    function Fee(n: nat, change: bool): int { EstimateNetworkFee(n, outputScriptSizes, change, Rate()) }

    /** The fee that stops the accumulation: the cheaper of the two shapes. */
    function StopFee(n: nat): int { if Fee(n, true) <= Fee(n, false) then Fee(n, true) else Fee(n, false) }

    function StopFees(): nat -> int { (n: nat) => StopFee(n) }
    function NoChangeFees(): nat -> int { (n: nat) => Fee(n, false) }
  }

  datatype SelectError = NegativeRecipient | InsufficientFunds | InsufficientAfterFees

  datatype Chosen = Chosen(selected: seq<Candidate>, totalInput: int, recipient: int, flatFee: int,
                           networkFee: int, change: int, hasChange: bool)

  function Amount(c: Candidate): int { c.utxo.value }

  predicate IsP2trScript(hex: string) {
    |hex| == P2TR_SCRIPT_SIZE * 2 && hex[..4] == "5120"
  }

  predicate Eligible(c: Candidate, minConfirmations: int) {
    var confs := if c.utxo.confirmations.Some? then c.utxo.confirmations.value else 0;
    && c.spendable != Some(false)
    && IsP2trScript(c.utxo.scriptPubKeyHex)
    && confs >= minConfirmations
    && !(c.fromCoinbase && confs < COINBASE_MATURITY)
    && c.utxo.value > 0
  }

  function FilterEligible(utxos: seq<Candidate>, minConfirmations: int): seq<Candidate> {
    if utxos == [] then []
    else (if Eligible(utxos[0], minConfirmations) then [utxos[0]] else []) + FilterEligible(utxos[1..], minConfirmations)
  }

  function SpendableTotal(utxos: seq<Candidate>, minConfirmations: int): int {
    Total(Amount, FilterEligible(utxos, minConfirmations))
  }

  function EligibleSorted(utxos: seq<Candidate>, policy: FeePolicy): seq<Candidate> {
    SortDescending(Amount, FilterEligible(utxos, policy.MinConfirmations()))
  }

  /** What follows the loop: change at or above dust is paid out, anything less is left as fee. */
  function Settle(selected: seq<Candidate>, recipient: int, policy: FeePolicy): Result<Chosen, SelectError> {
    var total := Total(Amount, selected);
    var required := recipient + policy.flatFee;
    var feeWithChange, feeNoChange := policy.Fee(|selected|, true), policy.Fee(|selected|, false);
    var leftoverWithChange := total - required - feeWithChange;
    if leftoverWithChange >= DUST_THRESHOLD then
      Ok(Chosen(selected, total, recipient, policy.flatFee, feeWithChange, leftoverWithChange, true))
    else
      var leftoverNoChange := total - required - feeNoChange;
      if leftoverNoChange < 0 then Err(InsufficientAfterFees)
      else Ok(Chosen(selected, total, recipient, policy.flatFee, feeNoChange + leftoverNoChange, 0, false))
  }

  function StopCount(utxos: seq<Candidate>, recipient: int, policy: FeePolicy): Option<nat> {
    FirstCount(Amount, EligibleSorted(utxos, policy), recipient + policy.flatFee, policy.StopFees(), 0)
  }

  function SelectUtxos(utxos: seq<Candidate>, recipient: int, policy: FeePolicy): Result<Chosen, SelectError> {
    if recipient < 0 then Err(NegativeRecipient)
    else match StopCount(utxos, recipient, policy)
      case None => Err(InsufficientFunds)
      case Some(k) => Settle(EligibleSorted(utxos, policy)[..k], recipient, policy)
  }

  method ComputeSelectUtxos(utxos: seq<Candidate>, recipient: int, policy: FeePolicy)
    returns (r: Result<Chosen, SelectError>)
    ensures r == SelectUtxos(utxos, recipient, policy)
  {
    hide EligibleSorted, Settle, Covers, Total, NoneCovers, FirstCount;
    if recipient < 0 {
      return Err(NegativeRecipient);
    }
    var eligible := EligibleSorted(utxos, policy);
    var selected, enough := Accumulate(eligible, recipient + policy.flatFee, policy);
    if !enough {
      return Err(InsufficientFunds);
    }
    assert eligible[..|selected|] == selected;
    r := Settle(selected, recipient, policy);
  }

  /** The selection loop: coins from the front until either fee is covered, or all of them. */
  method Accumulate(eligible: seq<Candidate>, required: int, policy: FeePolicy) returns (selected: seq<Candidate>, enough: bool)
    ensures selected <= eligible
    ensures FirstCount(Amount, eligible, required, policy.StopFees(), 0) == if enough then Some(|selected|) else None
  {
    hide EstimateNetworkFee, Covers, Total, FirstCount, FeePolicy.StopFees;
    selected := [];
    var totalInput := 0;
    var remaining := eligible;
    TotalEmpty();
    while true
      invariant selected + remaining == eligible
      invariant totalInput == Total(Amount, selected)
      invariant NoneCovers(eligible, required, policy, |selected|)
      decreases |remaining|
    {
      var numInputs := |selected|;
      var charged := if numInputs == 0 then 1 else numInputs;
      CoversMeans(eligible, selected, required, policy);
      if numInputs > 0 && totalInput >= required + policy.Fee(charged, true) {
        break;
      }
      if numInputs > 0 && totalInput >= required + policy.Fee(charged, false) {
        break;
      }
      if remaining == [] {
        LeastCount(eligible, required, policy.StopFees(), None);
        return selected, false;
      }
      var next := remaining[0];
      TotalSnoc(selected, next);
      remaining := remaining[1..];
      selected := selected + [next];
      totalInput := totalInput + next.utxo.value;
    }
    LeastCount(eligible, required, policy.StopFees(), Some(|selected|));
    enough := true;
  }

  /** No shorter front of the list pays. */
  predicate NoneCovers(eligible: seq<Candidate>, required: int, policy: FeePolicy, count: nat) {
    forall j :: 0 < j < count ==> !Covers(Amount, eligible, required, policy.StopFees(), j)
  }

  /** The loop's two tests together are the test against the cheaper fee. */
  lemma CoversMeans(eligible: seq<Candidate>, selected: seq<Candidate>, required: int, policy: FeePolicy)
    requires selected <= eligible
    ensures Covers(Amount, eligible, required, policy.StopFees(), |selected|) <==>
            Total(Amount, selected) >= required + policy.Fee(|selected|, true)
            || Total(Amount, selected) >= required + policy.Fee(|selected|, false)
  {
    hide Total, EstimateNetworkFee;
    assert eligible[..|selected|] == selected;
  }

  lemma TotalEmpty()
    ensures Total(Amount, []) == 0
  {
  }

  lemma TotalSnoc(selected: seq<Candidate>, next: Candidate)
    ensures Total(Amount, selected + [next]) == Total(Amount, selected) + next.utxo.value
  {
    assert (selected + [next])[..|selected|] == selected;
  }

  /** The least covering count is unique. */
  lemma LeastCount(eligible: seq<Candidate>, required: int, fee: nat -> int, r: Option<nat>)
    requires r.Some? ==> 0 < r.value <= |eligible| && Covers(Amount, eligible, required, fee, r.value)
    requires r.Some? ==> forall j :: 0 < j < r.value ==> !Covers(Amount, eligible, required, fee, j)
    requires r.None? ==> forall j :: 0 < j <= |eligible| ==> !Covers(Amount, eligible, required, fee, j)
    ensures FirstCount(Amount, eligible, required, fee, 0) == r
  {
    hide Covers;
  }

  // ---------------------------------------------------------------- results

  lemma {:induction false} FilterKeeps(utxos: seq<Candidate>, minConfirmations: int)
    ensures multiset(FilterEligible(utxos, minConfirmations)) <= multiset(utxos)
    ensures forall c :: c in FilterEligible(utxos, minConfirmations) <==> c in utxos && Eligible(c, minConfirmations)
  {
    hide Eligible;
    if utxos != [] {
      FilterKeeps(utxos[1..], minConfirmations);
      assert utxos == [utxos[0]] + utxos[1..];
    }
  }

  /** Every eligible coin is kept, as often as it was offered, and no other. */
  lemma {:induction false} FilterExactly(utxos: seq<Candidate>, minConfirmations: int, c: Candidate)
    ensures multiset(FilterEligible(utxos, minConfirmations))[c]
            == if Eligible(c, minConfirmations) then multiset(utxos)[c] else 0
  {
    hide Eligible;
    if utxos != [] {
      var head, rest := utxos[0], FilterEligible(utxos[1..], minConfirmations);
      FilterExactly(utxos[1..], minConfirmations, c);
      assert utxos == [head] + utxos[1..];
      assert FilterEligible(utxos, minConfirmations) == if Eligible(head, minConfirmations) then [head] + rest else rest;
    }
  }

  /** The script text accepted is that of a version-1 witness program of 32 bytes. */
  lemma P2trBytes(script: bytes)
    ensures IsP2trScript(ToHex(script)) <==> |script| == 34 && script[0] == 0x51 && script[1] == 0x20
  {
    hide HexDigit, ToHex;
    if |script| == 34 {
      StartMeans(ToHex(script));
      ToHexDigits(script, 0);
      ToHexDigits(script, 1);
      HexByte(script[0], 0x51);
      HexByte(script[1], 0x20);
    }
  }

  lemma StartMeans(hex: string)
    requires |hex| >= 4
    ensures hex[..4] == "5120" <==> hex[0] == HexDigit(5) && hex[1] == HexDigit(1) && hex[2] == HexDigit(2) && hex[3] == HexDigit(0)
  {
    assert hex[..4] == [hex[0], hex[1], hex[2], hex[3]];
  }

  lemma HexByte(b: byte, c: byte)
    ensures HexDigit(b / 16) == HexDigit(c / 16) && HexDigit(b % 16) == HexDigit(c % 16) <==> b == c
  {
    hide HexDigit;
    DigitRoundTrip(b / 16);
    DigitRoundTrip(b % 16);
    DigitRoundTrip(c / 16);
    DigitRoundTrip(c % 16);
  }

  /** A coin is set aside exactly when it is marked, not taproot, too young, an immature coinbase, or worth nothing. */
  lemma SetAside(c: Candidate, minConfirmations: int)
    ensures !Eligible(c, minConfirmations) <==>
            || c.spendable == Some(false)
            || !IsP2trScript(c.utxo.scriptPubKeyHex)
            || c.utxo.value <= 0
            || (match c.utxo.confirmations
                case None => minConfirmations > 0 || c.fromCoinbase
                case Some(n) => n < minConfirmations || (c.fromCoinbase && n < 100))
  {
  }

  /** What is selected was offered, is eligible, and is not used twice. */
  lemma SelectedFromInput(utxos: seq<Candidate>, recipient: int, policy: FeePolicy)
    requires SelectUtxos(utxos, recipient, policy).Ok?
    ensures var chosen := SelectUtxos(utxos, recipient, policy).value;
            && chosen.selected != []
            && multiset(chosen.selected) <= multiset(utxos)
            && forall c :: c in chosen.selected ==> Eligible(c, policy.MinConfirmations())
  {
    var eligible := FilterEligible(utxos, policy.MinConfirmations());
    var k := StopCount(utxos, recipient, policy).value;
    FilterKeeps(utxos, policy.MinConfirmations());
    SortSorts(Amount, eligible);
    PrefixContained(EligibleSorted(utxos, policy), k);
    SettledSelection(EligibleSorted(utxos, policy)[..k], recipient, policy);
    var selected := EligibleSorted(utxos, policy)[..k];
    forall c | c in selected
      ensures c in eligible
    {
      assert c in multiset(selected);
    }
  }

  lemma SettledSelection(selected: seq<Candidate>, recipient: int, policy: FeePolicy)
    ensures Settle(selected, recipient, policy).Ok? ==> Settle(selected, recipient, policy).value.selected == selected
    ensures Settle(selected, recipient, policy).Err? ==> Settle(selected, recipient, policy) == Err(InsufficientAfterFees)
  {
    hide Total, EstimateNetworkFee;
  }

  /**
    * Conservation: the inputs are exactly recipient, flat fee, network fee and change; change
    * is absent or at least the dust floor; the network fee covers the chosen shape, is the
    * with-change fee when there is change, and is otherwise below it plus the dust floor.
    */
  lemma SelectionConserves(utxos: seq<Candidate>, recipient: int, policy: FeePolicy)
    requires SelectUtxos(utxos, recipient, policy).Ok?
    ensures var c := SelectUtxos(utxos, recipient, policy).value;
            && c.recipient == recipient && c.flatFee == policy.flatFee
            && Total(Amount, c.selected) == c.totalInput
            && c.totalInput == c.recipient + c.flatFee + c.networkFee + c.change
            && (if c.hasChange then c.change >= DUST_THRESHOLD else c.change == 0)
            && c.networkFee >= policy.Fee(|c.selected|, c.hasChange)
            && (if c.hasChange then c.networkFee == policy.Fee(|c.selected|, true)
                else c.networkFee < policy.Fee(|c.selected|, true) + DUST_THRESHOLD)
  {
    hide Total, EstimateNetworkFee, StopCount, EligibleSorted;
  }

  /** The balance shown: each coin adds its value when it is eligible, and nothing otherwise. */
  lemma SpendableStep(c: Candidate, utxos: seq<Candidate>, minConfirmations: int)
    ensures SpendableTotal([], minConfirmations) == 0
    ensures SpendableTotal([c] + utxos, minConfirmations)
            == SpendableTotal(utxos, minConfirmations) + if Eligible(c, minConfirmations) then c.utxo.value else 0
  {
    hide Eligible, Total;
    TotalEmpty();
    var rest := FilterEligible(utxos, minConfirmations);
    assert ([c] + utxos)[1..] == utxos;
    TotalCons(c, rest);
    assert [] + rest == rest;
  }

  lemma {:induction false} TotalCons(c: Candidate, rest: seq<Candidate>)
    ensures Total(Amount, [c] + rest) == c.utxo.value + Total(Amount, rest)
  {
    if rest == [] {
      assert [c] + rest == [] + [c];
      TotalSnoc([], c);
    } else {
      var k := |rest| - 1;
      TotalCons(c, rest[..k]);
      TotalSnoc([c] + rest[..k], rest[k]);
      TotalSnoc(rest[..k], rest[k]);
      assert [c] + rest == [c] + rest[..k] + [rest[k]] && rest == rest[..k] + [rest[k]];
    }
  }

  /** Whatever is spent is within the spendable balance the wallet shows. */
  lemma SpendableBound(utxos: seq<Candidate>, recipient: int, policy: FeePolicy)
    requires SelectUtxos(utxos, recipient, policy).Ok?
    ensures SelectUtxos(utxos, recipient, policy).value.totalInput <= SpendableTotal(utxos, policy.MinConfirmations())
  {
    hide FilterEligible, SortDescending, Total, EstimateNetworkFee, Eligible, FirstCount;
    var eligible := FilterEligible(utxos, policy.MinConfirmations());
    var sorted := EligibleSorted(utxos, policy);
    var k := StopCount(utxos, recipient, policy).value;
    SelectionConserves(utxos, recipient, policy);
    SettledSelection(sorted[..k], recipient, policy);
    SortSorts(Amount, eligible);
    SortTotal(Amount, eligible);
    EligiblePositive(utxos, policy);
    PrefixTotal(Amount, sorted, k);
  }

  lemma EligiblePositive(utxos: seq<Candidate>, policy: FeePolicy)
    ensures forall i :: 0 <= i < |EligibleSorted(utxos, policy)| ==> Amount(EligibleSorted(utxos, policy)[i]) >= 0
  {
    var eligible := FilterEligible(utxos, policy.MinConfirmations());
    var sorted := EligibleSorted(utxos, policy);
    FilterKeeps(utxos, policy.MinConfirmations());
    SortSorts(Amount, eligible);
    forall i | 0 <= i < |sorted| ensures Amount(sorted[i]) >= 0 {
      assert sorted[i] in multiset(sorted);
      assert sorted[i] in multiset(eligible);
      assert sorted[i] in eligible && Eligible(sorted[i], policy.MinConfirmations());
    }
  }

  /** The fees compare as the sizes do, from the default rate up. */
  lemma NoChangeIsCheaper(policy: FeePolicy, n: nat)
    requires policy.Rate() >= 1000
    ensures policy.Fee(n, false) <= policy.Fee(n, true)
  {
    SelectorFeeMonotone(policy.Rate(), EstimateVirtualSize(n, policy.outputScriptSizes, false),
                        EstimateVirtualSize(n, policy.outputScriptSizes, true));
  }

  /**
    * Completeness and optimality over the eligible coins. At any rate: a choice of coins that
    * pays the cheaper of the two fees bounds the count at which accumulation stops.
    */
  lemma SelectionOptimal(utxos: seq<Candidate>, recipient: int, policy: FeePolicy, choice: seq<Candidate>)
    requires recipient >= 0
    requires Pays(Amount, FilterEligible(utxos, policy.MinConfirmations()), recipient + policy.flatFee,
                  policy.StopFees(), choice)
    ensures var r := SelectUtxos(utxos, recipient, policy);
            r != Err(InsufficientFunds) && (r.Ok? ==> |r.value.selected| <= |choice|)
  {
    hide FilterEligible, SortDescending, Settle, EstimateNetworkFee, Total, Pays;
    GreedyOptimal(Amount, FilterEligible(utxos, policy.MinConfirmations()), recipient + policy.flatFee,
                  policy.StopFees(), choice);
    var k := StopCount(utxos, recipient, policy).value;
    var selected := EligibleSorted(utxos, policy)[..k];
    SettledSelection(selected, recipient, policy);
  }

  /** The choice of coins pays the fee of a transaction without change. */
  ghost predicate PaysNoChange(utxos: seq<Candidate>, recipient: int, policy: FeePolicy, choice: seq<Candidate>) {
    Pays(Amount, FilterEligible(utxos, policy.MinConfirmations()), recipient + policy.flatFee,
         policy.NoChangeFees(), choice)
  }

  lemma StopFeeIsNoChange(utxos: seq<Candidate>, recipient: int, policy: FeePolicy, choice: seq<Candidate>)
    requires policy.Rate() >= 1000
    ensures PaysNoChange(utxos, recipient, policy, choice) <==>
            Pays(Amount, FilterEligible(utxos, policy.MinConfirmations()), recipient + policy.flatFee,
                 policy.StopFees(), choice)
  {
    NoChangeIsCheaper(policy, |choice|);
  }

  /**
    * From the default rate up: selection succeeds exactly when some choice of eligible coins
    * pays, what it selects is such a choice, no smaller one exists, and the second
    * insufficient-funds error never happens.
    */
  lemma SelectionComplete(utxos: seq<Candidate>, recipient: int, policy: FeePolicy)
    requires recipient >= 0 && policy.Rate() >= 1000
    ensures SelectUtxos(utxos, recipient, policy).Ok? <==> exists choice :: PaysNoChange(utxos, recipient, policy, choice)
    ensures SelectUtxos(utxos, recipient, policy) != Err(InsufficientAfterFees)
    ensures SelectUtxos(utxos, recipient, policy).Ok? ==>
              var selected := SelectUtxos(utxos, recipient, policy).value.selected;
              && PaysNoChange(utxos, recipient, policy, selected)
              && forall choice :: PaysNoChange(utxos, recipient, policy, choice) ==> |selected| <= |choice|
  {
    hide PaysNoChange, SelectUtxos;
    if SelectUtxos(utxos, recipient, policy) != Err(InsufficientFunds) {
      StoppedSelection(utxos, recipient, policy);
    }
    forall choice | PaysNoChange(utxos, recipient, policy, choice)
      ensures SelectUtxos(utxos, recipient, policy) != Err(InsufficientFunds)
      ensures SelectUtxos(utxos, recipient, policy).Ok? ==>
                |SelectUtxos(utxos, recipient, policy).value.selected| <= |choice|
    {
      StopFeeIsNoChange(utxos, recipient, policy, choice);
      SelectionOptimal(utxos, recipient, policy, choice);
    }
  }

  /** Once the accumulation stops, its coins pay and the outcome is a selection of them. */
  lemma StoppedSelection(utxos: seq<Candidate>, recipient: int, policy: FeePolicy)
    requires recipient >= 0 && policy.Rate() >= 1000
    requires SelectUtxos(utxos, recipient, policy) != Err(InsufficientFunds)
    ensures SelectUtxos(utxos, recipient, policy).Ok?
    ensures PaysNoChange(utxos, recipient, policy, SelectUtxos(utxos, recipient, policy).value.selected)
  {
    hide Pays, Settle, FilterEligible, SortDescending, EstimateNetworkFee;
    var k := StopCount(utxos, recipient, policy).value;
    var selected := EligibleSorted(utxos, policy)[..k];
    GreedyPays(Amount, FilterEligible(utxos, policy.MinConfirmations()), recipient + policy.flatFee, policy.StopFees());
    StopFeeIsNoChange(utxos, recipient, policy, selected);
    PaidSettles(utxos, recipient, policy, selected);
  }

  lemma PaidSettles(utxos: seq<Candidate>, recipient: int, policy: FeePolicy, selected: seq<Candidate>)
    requires PaysNoChange(utxos, recipient, policy, selected)
    ensures Settle(selected, recipient, policy).Ok? && Settle(selected, recipient, policy).value.selected == selected
  {
    hide FilterEligible, EstimateNetworkFee, Total;
  }

  // ---------------------------------------------------------------- the second error

  /**
    * Exactly when a call ends in the second error: accumulation stopped on the with-change
    * fee alone, because that fee is below the no-change fee.
    */
  lemma AfterFeesExactly(utxos: seq<Candidate>, recipient: int, policy: FeePolicy)
    requires recipient >= 0
    ensures SelectUtxos(utxos, recipient, policy) == Err(InsufficientAfterFees) <==>
            var k := StopCount(utxos, recipient, policy);
            && k.Some?
            && var paid := Total(Amount, EligibleSorted(utxos, policy)[..k.value]) - recipient - policy.flatFee;
               policy.Fee(k.value, true) <= paid < policy.Fee(k.value, false)
               && paid - policy.Fee(k.value, true) < DUST_THRESHOLD
  {
    hide FirstCount, EligibleSorted, Total, EstimateNetworkFee;
    var k := StopCount(utxos, recipient, policy);
    if k.Some? {
      StopCovers(utxos, recipient, policy);
    }
  }

  lemma StopCovers(utxos: seq<Candidate>, recipient: int, policy: FeePolicy)
    requires StopCount(utxos, recipient, policy).Some?
    ensures var k := StopCount(utxos, recipient, policy).value;
            0 < k <= |EligibleSorted(utxos, policy)|
            && Total(Amount, EligibleSorted(utxos, policy)[..k]) >= recipient + policy.flatFee + policy.StopFee(k)
  {
    hide EligibleSorted, Total, EstimateNetworkFee;
  }

  /** A coin that every policy accepts. */
  function PlainCoin(value: nat, minConfirmations: int): Candidate {
    Candidate(Utxo("", 0, value, "5120" + seq(64, _ => '0'), None, Some(minConfirmations)), false, None)
  }

  /**
    * For a policy, some wallet meets the second error if and only if the with-change fee is
    * lower than the no-change fee at some number of inputs.
    */
  lemma AfterFeesReachable(policy: FeePolicy)
    ensures (exists utxos, recipient :: recipient >= 0 && SelectUtxos(utxos, recipient, policy) == Err(InsufficientAfterFees))
       <==> exists n: nat :: n >= 1 && policy.Fee(n, true) < policy.Fee(n, false)
  {
    hide SelectUtxos, EstimateNetworkFee;
    if utxos, recipient :| recipient >= 0 && SelectUtxos(utxos, recipient, policy) == Err(InsufficientAfterFees) {
      AfterFeesExactly(utxos, recipient, policy);
      StopCovers(utxos, recipient, policy);
      var k := StopCount(utxos, recipient, policy).value;
      assert k >= 1 && policy.Fee(k, true) < policy.Fee(k, false);
    }
    if n: nat :| n >= 1 && policy.Fee(n, true) < policy.Fee(n, false) {
      var utxos, recipient := ReachAfterFees(policy, n);
    }
  }

  lemma FeeNonNegative(policy: FeePolicy, n: nat, change: bool)
    ensures policy.Fee(n, change) >= 0
  {
    hide EstimateVirtualSize;
  }

  /** Equal coins, one short of the no-change fee when the `n`-th is added. */
  lemma ReachAfterFees(policy: FeePolicy, n: nat) returns (utxos: seq<Candidate>, recipient: int)
    requires n >= 1 && policy.Fee(n, true) < policy.Fee(n, false)
    ensures recipient >= 0 && SelectUtxos(utxos, recipient, policy) == Err(InsufficientAfterFees)
  {
    hide EstimateNetworkFee, Total, SortDescending, FilterEligible, Settle, Covers, SelectUtxos;
    FeeNonNegative(policy, n, true);
    var f := policy.Fee(n, true);
    var v := f + 1 + (if policy.flatFee < 0 then 0 else policy.flatFee);
    var coin := PlainCoin(v, policy.MinConfirmations());
    utxos := seq(n, _ => coin);
    recipient := n * v - f - policy.flatFee;
    assert n * v >= v by { ProductAtLeast(n, v); }
    EqualCoins(coin, n, policy);
    EqualTotals(coin, n);
    FewerNeverCover(coin, n, v, recipient + policy.flatFee, policy);
    ExactStop(utxos, recipient, policy);
  }

  /** Coins already sorted, of which only all together pay, and exactly the with-change fee. */
  lemma ExactStop(utxos: seq<Candidate>, recipient: int, policy: FeePolicy)
    requires recipient >= 0 && utxos != [] && EligibleSorted(utxos, policy) == utxos
    requires NoneCovers(utxos, recipient + policy.flatFee, policy, |utxos|)
    requires Total(Amount, utxos) == recipient + policy.flatFee + policy.Fee(|utxos|, true)
    requires policy.Fee(|utxos|, true) < policy.Fee(|utxos|, false)
    ensures SelectUtxos(utxos, recipient, policy) == Err(InsufficientAfterFees)
  {
    hide EligibleSorted, Settle, Covers, EstimateNetworkFee, Total;
    assert utxos[..|utxos|] == utxos;
    CoversMeans(utxos, utxos, recipient + policy.flatFee, policy);
    LeastCount(utxos, recipient + policy.flatFee, policy.StopFees(), Some(|utxos|));
    AfterFeesExactly(utxos, recipient, policy);
  }

  lemma FewerNeverCover(coin: Candidate, n: nat, v: nat, required: int, policy: FeePolicy)
    requires coin.utxo.value == v && policy.Fee(n, true) < v
    requires required == n * v - policy.Fee(n, true)
    ensures NoneCovers(seq(n, _ => coin), required, policy, n)
  {
    hide Covers, EstimateNetworkFee;
    var coins: seq<Candidate> := seq(n, _ => coin);
    forall j: nat | 0 < j < n
      ensures !Covers(Amount, coins, required, policy.StopFees(), j)
    {
      FeeNonNegative(policy, j, true);
      FeeNonNegative(policy, j, false);
      FewerEqualCoins(coin, j, n, v, required, policy);
    }
  }

  lemma ProductAtLeast(n: nat, v: nat)
    requires n >= 1
    ensures n * v >= v
  {
  }

  lemma {:induction false} EqualCoins(coin: Candidate, n: nat, policy: FeePolicy)
    requires Eligible(coin, policy.MinConfirmations())
    ensures FilterEligible(seq(n, _ => coin), policy.MinConfirmations()) == seq(n, _ => coin)
    ensures SortDescending(Amount, seq(n, _ => coin)) == seq(n, _ => coin)
  {
    var coins := seq(n, _ => coin);
    if n > 0 {
      EqualCoins(coin, n - 1, policy);
      assert coins[1..] == seq(n - 1, _ => coin);
      assert [coin] + coins[1..] == coins;
    }
  }

  lemma {:induction false} EqualTotals(coin: Candidate, n: nat)
    ensures Total(Amount, seq(n, _ => coin)) == n * coin.utxo.value
  {
    if n > 0 {
      EqualTotals(coin, n - 1);
      var coins: seq<Candidate> := seq(n, _ => coin);
      assert coins[..n - 1] == seq(n - 1, _ => coin);
      assert (n - 1) * coin.utxo.value + coin.utxo.value == n * coin.utxo.value;
    }
  }

  lemma FewerEqualCoins(coin: Candidate, j: nat, n: nat, v: nat, required: int, policy: FeePolicy)
    requires j < n && coin.utxo.value == v && policy.Fee(n, true) < v
    requires required == n * v - policy.Fee(n, true) && policy.StopFee(j) >= 0
    ensures !Covers(Amount, seq(n, _ => coin), required, policy.StopFees(), j)
  {
    hide EstimateNetworkFee, Total;
    var coins: seq<Candidate> := seq(n, _ => coin);
    assert coins[..j] == seq(j, _ => coin);
    EqualTotals(coin, j);
    assert (n - j) * v >= v by { ProductAtLeast(n - j, v); }
    assert n * v == j * v + (n - j) * v;
  }

  /**
    * At 6 Grain per kilobyte the with-change fee of one input and two outputs is 1 and the
    * no-change fee is 6, so a wallet can meet the second error.
    */
  lemma LowRateMeetsSecondError(flatFee: int)
    ensures exists utxos, recipient :: recipient >= 0 &&
              SelectUtxos(utxos, recipient, FeePolicy(flatFee, [34, 34], Some(6), None)) == Err(InsufficientAfterFees)
  {
    var policy := FeePolicy(flatFee, [34, 34], Some(6), None);
    LowRateFees(policy);
    assert policy.Fee(1, true) < policy.Fee(1, false);
    AfterFeesReachable(policy);
  }

  lemma LowRateFees(policy: FeePolicy)
    requires policy.outputScriptSizes == [34, 34] && policy.Rate() == 6
    ensures policy.Fee(1, true) == 1 && policy.Fee(1, false) == 6
  {
    assert OutputSizes([34, 34]) == 86 by {
      assert [34, 34][..1] == [34];
      assert [34][..0] == [];
    }
  }
}
