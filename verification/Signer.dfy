/**
  * The pre-sign pipeline of wallet-core-adapter.ts: build from the approved draft, then
  * assert that the outputs and the fee are the approved ones.
  */
module Signer {
  import opened Wrappers
  import opened Hex
  import opened Wire
  import opened AddressValidation
  import opened Utxos
  import opened Preview
  import opened Builder
  import Decimal
  import Selection

  datatype SignError =
    | WatchOnly | DraftWithoutInputs | DraftWithoutRecipients | UnusableKey | BuildFailed(error: BuildError)
    | UndecodableAddress | OutputCountMismatch | OutputsMismatch | OutputsExceedInputs | FeeMismatch

  // ---------------------------------------------------------------- string keys

  /** An output as the assertion compares it. */
  datatype Entry = Entry(script: bytes, value: int)

  /** `${script}:${value}`. */
  function Key(e: Entry): string { ToHex(e.script) + ":" + Decimal.Print(e.value) }

  function EntryOf(o: TxOutput): Entry { Entry(o.pkScript, o.value) }

  function Keys(es: seq<Entry>): (ks: seq<string>)
    ensures |ks| == |es|
  {
    seq(|es|, k requires 0 <= k < |es| => Key(es[k]))
  }

  /** JavaScript's order on strings: by code unit, a proper prefix first. */
  predicate LexLe(s: string, t: string) {
    if s == [] then true
    else if t == [] then false
    else s[0] < t[0] || (s[0] == t[0] && LexLe(s[1..], t[1..]))
  }

  lemma {:induction false} LexTotal(s: string, t: string)
    ensures LexLe(s, t) || LexLe(t, s)
  {
    if s != [] && t != [] { LexTotal(s[1..], t[1..]); }
  }

  lemma {:induction false} LexAntisymmetric(s: string, t: string)
    requires LexLe(s, t) && LexLe(t, s)
    ensures s == t
  {
    if s != [] {
      LexAntisymmetric(s[1..], t[1..]);
      assert s == [s[0]] + s[1..] && t == [t[0]] + t[1..];
    }
  }

  lemma {:induction false} LexTransitive(s: string, t: string, u: string)
    requires LexLe(s, t) && LexLe(t, u)
    ensures LexLe(s, u)
  {
    if s != [] && t[0] == s[0] == u[0] { LexTransitive(s[1..], t[1..], u[1..]); }
  }

  function InsertKey(k: string, ks: seq<string>): seq<string> {
    if ks == [] || LexLe(k, ks[0]) then [k] + ks else [ks[0]] + InsertKey(k, ks[1..])
  }

  /** `[...keys].sort()`. */
  function SortedKeys(ks: seq<string>): seq<string> {
    if ks == [] then [] else InsertKey(ks[0], SortedKeys(ks[1..]))
  }

  predicate Ascending(ks: seq<string>) {
    forall i, j :: 0 <= i < j < |ks| ==> LexLe(ks[i], ks[j])
  }

  lemma {:induction false} InsertKeyPermutes(k: string, ks: seq<string>)
    ensures multiset(InsertKey(k, ks)) == multiset{k} + multiset(ks)
  {
    if ks == [] || LexLe(k, ks[0]) {
    } else {
      InsertKeyPermutes(k, ks[1..]);
      assert ks == [ks[0]] + ks[1..];
    }
  }

  lemma {:induction false} InsertKeyAscending(k: string, ks: seq<string>)
    requires Ascending(ks)
    ensures Ascending(InsertKey(k, ks))
  {
    hide LexLe;
    if ks == [] {
    } else if LexLe(k, ks[0]) {
      forall j | 0 <= j < |ks| ensures LexLe(k, ks[j]) {
        if j > 0 { LexTransitive(k, ks[0], ks[j]); }
      }
    } else {
      LexTotal(k, ks[0]);
      InsertKeyAscending(k, ks[1..]);
      InsertKeyPermutes(k, ks[1..]);
      var rest := InsertKey(k, ks[1..]);
      forall j | 0 <= j < |rest| ensures LexLe(ks[0], rest[j]) {
        assert rest[j] in multiset(rest);
        assert rest[j] == k || rest[j] in ks[1..];
      }
    }
  }

  lemma {:induction false} SortedKeysSorts(ks: seq<string>)
    ensures Ascending(SortedKeys(ks)) && multiset(SortedKeys(ks)) == multiset(ks) && |SortedKeys(ks)| == |ks|
  {
    hide LexLe;
    if ks != [] {
      SortedKeysSorts(ks[1..]);
      InsertKeyAscending(ks[0], SortedKeys(ks[1..]));
      InsertKeyPermutes(ks[0], SortedKeys(ks[1..]));
      assert ks == [ks[0]] + ks[1..];
      assert |multiset(SortedKeys(ks))| == |multiset(ks)|;
    }
  }

  /** The least key heads an ascending list. */
  lemma HeadIsLeast(xs: seq<string>, k: string)
    requires Ascending(xs) && k in multiset(xs)
    ensures xs != [] && LexLe(xs[0], k)
  {
    hide LexLe;
    var i :| 0 <= i < |xs| && xs[i] == k;
    if i == 0 { LexReflexive(k); }
  }

  lemma TailMultiset(xs: seq<string>)
    requires xs != []
    ensures multiset(xs[1..]) == multiset(xs) - multiset{xs[0]}
  {
    assert xs == [xs[0]] + xs[1..];
  }

  /** A multiset of strings has one ascending listing. */
  lemma {:induction false} AscendingUnique(xs: seq<string>, ys: seq<string>)
    requires Ascending(xs) && Ascending(ys) && multiset(xs) == multiset(ys)
    ensures xs == ys
  {
    hide LexLe;
    if xs == [] {
      assert |multiset(ys)| == |ys|;
    } else {
      assert xs[0] in multiset(ys);
      HeadIsLeast(ys, xs[0]);
      assert ys[0] in multiset(xs);
      HeadIsLeast(xs, ys[0]);
      LexAntisymmetric(xs[0], ys[0]);
      TailMultiset(xs);
      TailMultiset(ys);
      AscendingUnique(xs[1..], ys[1..]);
      assert xs == [xs[0]] + xs[1..] && ys == [ys[0]] + ys[1..];
    }
  }

  lemma LexReflexive(s: string)
    ensures LexLe(s, s)
  {
    LexTotal(s, s);
  }

  /** The sorted lists agree exactly when the multisets do. */
  lemma SortedEqualsExactly(xs: seq<string>, ys: seq<string>)
    ensures SortedKeys(xs) == SortedKeys(ys) <==> multiset(xs) == multiset(ys)
  {
    SortedKeysSorts(xs);
    SortedKeysSorts(ys);
    if multiset(xs) == multiset(ys) {
      AscendingUnique(SortedKeys(xs), SortedKeys(ys));
    }
  }

  lemma SortedLength(ks: seq<string>)
    ensures |SortedKeys(ks)| == |ks|
  {
    SortedKeysSorts(ks);
  }

  lemma NoColon(bs: bytes)
    ensures ':' !in ToHex(bs)
  {
    ToHexIsLowerHex(bs);
  }

  lemma SplitAtColon(a: string, x: string, b: string, y: string)
    requires ':' !in a && ':' !in b && a + ":" + x == b + ":" + y
    ensures a == b && x == y
  {
    var s := a + ":" + x;
    assert s[|a|] == ':' && s[|b|] == ':';
    assert a == s[..|a|] && b == s[..|b|];
    assert x == s[|a| + 1..] && y == s[|b| + 1..];
  }

  lemma KeyInjective(d: Entry, e: Entry)
    requires Key(d) == Key(e)
    ensures d == e
  {
    NoColon(d.script);
    NoColon(e.script);
    SplitAtColon(ToHex(d.script), Decimal.Print(d.value), ToHex(e.script), Decimal.Print(e.value));
    ToHexInjective(d.script, e.script);
    Decimal.PrintInjective(d.value, e.value);
  }

  /** An entry occurs as often as its key. */
  lemma {:induction false} KeyCount(es: seq<Entry>, e: Entry)
    ensures multiset(Keys(es))[Key(e)] == multiset(es)[e]
  {
    hide Key;
    if es == [] {
    } else {
      KeyCount(es[1..], e);
      assert es == [es[0]] + es[1..];
      assert Keys(es) == [Key(es[0])] + Keys(es[1..]);
      if Key(es[0]) == Key(e) { KeyInjective(es[0], e); }
    }
  }

  lemma KeysEqualExactly(xs: seq<Entry>, ys: seq<Entry>)
    ensures multiset(Keys(xs)) == multiset(Keys(ys)) <==> multiset(xs) == multiset(ys)
  {
    hide Key;
    if multiset(Keys(xs)) == multiset(Keys(ys)) {
      forall e: Entry ensures multiset(xs)[e] == multiset(ys)[e] {
        KeyCount(xs, e);
        KeyCount(ys, e);
      }
    }
    if multiset(xs) == multiset(ys) {
      forall k: string ensures multiset(Keys(xs))[k] == multiset(Keys(ys))[k] {
        if i :| 0 <= i < |xs| && Keys(xs)[i] == k {
          KeyCount(xs, xs[i]);
          KeyCount(ys, xs[i]);
        } else if i :| 0 <= i < |ys| && Keys(ys)[i] == k {
          KeyCount(xs, ys[i]);
          KeyCount(ys, ys[i]);
        }
      }
    }
  }

  // ---------------------------------------------------------------- the assertions

  /** Every payment of a draft, in the canonical order. */
  function Payments(d: TxDraft): seq<Payment> {
    d.recipients + (if d.necklaceFee.Some? then [d.necklaceFee.value] else [])
    + (if d.change.Some? then [d.change.value] else [])
  }

  function EntryFor(decode: Decoder, p: Payment): Result<Entry, BuildError> {
    match decode(p.address)
    case None => Err(BadAddress)
    case Some(script) => Ok(Entry(script, p.value))
  }

  /** The entries of the payments; an address that does not decode is an error. */
  function Declared(decode: Decoder, ps: seq<Payment>): Result<seq<Entry>, BuildError> {
    Collect((p: Payment) => EntryFor(decode, p), ps)
  }

  function Entries(outputs: seq<TxOutput>): (es: seq<Entry>)
    ensures |es| == |outputs|
  {
    seq(|outputs|, k requires 0 <= k < |outputs| => EntryOf(outputs[k]))
  }

  /** `assertOutputsMatchDraft`: None means that it passes. */
  function AssertOutputsMatchDraft(decode: Decoder, outputs: seq<TxOutput>, d: TxDraft): Option<SignError> {
    match Declared(decode, Payments(d))
    case Err(_) => Some(UndecodableAddress)
    case Ok(declared) =>
      if |outputs| != |declared| then Some(OutputCountMismatch)
      else if SortedKeys(Keys(Entries(outputs))) != SortedKeys(Keys(declared)) then Some(OutputsMismatch)
      else None
  }

  method ComputeAssertOutputs(decode: Decoder, outputs: seq<TxOutput>, d: TxDraft) returns (r: Option<SignError>)
    ensures r == AssertOutputsMatchDraft(decode, outputs, d)
  {
    hide SortedKeys, Keys, Declared, Payments, Entries, LexLe;
    var declared := Declared(decode, Payments(d));
    if declared.Err? {
      return Some(UndecodableAddress);
    }
    if |outputs| != |declared.value| {
      return Some(OutputCountMismatch);
    }
    var want := SortedKeys(Keys(declared.value));
    var have := SortedKeys(Keys(Entries(outputs)));
    SortedLength(Keys(declared.value));
    SortedLength(Keys(Entries(outputs)));
    for i := 0 to |want|
      invariant have[..i] == want[..i]
    {
      if want[i] != have[i] {
        return Some(OutputsMismatch);
      }
    }
    assert have == have[..|want|] && want == want[..|want|];
    r := None;
  }

  /** For any outputs at all, the check passes exactly when the (script, value) multisets agree. */
  lemma OutputsMatchExactly(decode: Decoder, outputs: seq<TxOutput>, d: TxDraft)
    ensures AssertOutputsMatchDraft(decode, outputs, d) == None <==>
            var declared := Declared(decode, Payments(d));
            declared.Ok? && multiset(Entries(outputs)) == multiset(declared.value)
  {
    hide Declared, Payments, SortedKeys, Keys, Entries;
    var declared := Declared(decode, Payments(d));
    if declared.Ok? {
      SortedEqualsExactly(Keys(Entries(outputs)), Keys(declared.value));
      KeysEqualExactly(Entries(outputs), declared.value);
      if multiset(Entries(outputs)) == multiset(declared.value) {
        assert |multiset(Entries(outputs))| == |multiset(declared.value)|;
      }
    }
  }

  /** `assertFeeMatchesDraft`. */
  function AssertFeeMatchesDraft(outputs: seq<TxOutput>, d: TxDraft): Option<SignError> {
    var impliedFee := Selection.Total(Coin, d.inputs) - TotalOutputValue(outputs);
    if impliedFee < 0 then Some(OutputsExceedInputs)
    else if impliedFee != d.minerFee then Some(FeeMismatch)
    else None
  }

  // ---------------------------------------------------------------- the pipeline

  function Selected(inputs: seq<Utxo>): (us: seq<SelectedInput>)
    ensures |us| == |inputs|
  {
    seq(|inputs|, k requires 0 <= k < |inputs| => SelectedInput(inputs[k], None))
  }

  /** Everything before the signature: the transaction to sign, or the error. */
  function PreSign(decode: Decoder, d: TxDraft, watchOnly: bool, usableKey: bool): Result<Draft, SignError> {
    if watchOnly then Err(WatchOnly)
    else if d.inputs == [] then Err(DraftWithoutInputs)
    else if d.recipients == [] then Err(DraftWithoutRecipients)
    else if !usableKey then Err(UnusableKey)
    else match Assemble(decode, d)
      case Err(e) => Err(BuildFailed(e))
      case Ok(built) =>
        match AssertOutputsMatchDraft(decode, built.tx.outputs, d)
        case Some(e) => Err(e)
        case None =>
          match AssertFeeMatchesDraft(built.tx.outputs, d)
          case Some(e) => Err(e)
          case None => Ok(built)
  }

  /** The first builder call. */
  function Base(decode: Decoder, d: TxDraft): Result<Draft, BuildError> {
    BuildTransaction(decode, d.recipients, Selected(d.inputs),
                     if d.change.Some? then Some(d.change.value.address) else None,
                     if d.change.Some? then d.change.value.value else 0)
  }

  /** The two builder calls. */
  function Assemble(decode: Decoder, d: TxDraft): Result<Draft, BuildError> {
    match Base(decode, d)
    case Err(e) => Err(e)
    case Ok(built) => if d.necklaceFee.Some? then AddWalletFeeOutput(decode, built, d.necklaceFee.value) else Ok(built)
  }

  method ComputePreSign(decode: Decoder, d: TxDraft, watchOnly: bool, usableKey: bool) returns (r: Result<Draft, SignError>)
    ensures r == PreSign(decode, d, watchOnly, usableKey)
  {
    hide AssertOutputsMatchDraft, AssertFeeMatchesDraft, AddWalletFeeOutput, Signings, Recipients, ChangeOutputs;
    if watchOnly {
      return Err(WatchOnly);
    }
    if d.inputs == [] {
      return Err(DraftWithoutInputs);
    }
    if d.recipients == [] {
      return Err(DraftWithoutRecipients);
    }
    if !usableKey {
      return Err(UnusableKey);
    }
    var built := ComputeBuildTransaction(decode, d.recipients, Selected(d.inputs),
                                         if d.change.Some? then Some(d.change.value.address) else None,
                                         if d.change.Some? then d.change.value.value else 0);
    if built.Ok? && d.necklaceFee.Some? {
      built := ComputeAddWalletFeeOutput(decode, built.value, d.necklaceFee.value);
    }
    if built.Err? {
      return Err(BuildFailed(built.error));
    }
    var mismatch := ComputeAssertOutputs(decode, built.value.tx.outputs, d);
    if mismatch.Some? {
      return Err(mismatch.value);
    }
    var wrongFee := AssertFeeMatchesDraft(built.value.tx.outputs, d);
    if wrongFee.Some? {
      return Err(wrongFee.value);
    }
    r := Ok(built.value);
  }

  predicate PayableInput(u: Utxo) { u.value >= 0 && IsHex(u.scriptPubKeyHex) }
  predicate Payable(decode: Decoder, p: Payment) { p.value >= DUST_THRESHOLD && decode(p.address).Some? }

  function Sum(ps: seq<Payment>): int {
    if ps == [] then 0 else Sum(ps[..|ps| - 1]) + ps[|ps| - 1].value
  }

  /** The drafts worth signing, read off the draft alone. */
  predicate Approvable(decode: Decoder, d: TxDraft) {
    && d.inputs != [] && d.recipients != []
    && (forall k :: 0 <= k < |d.inputs| ==> PayableInput(d.inputs[k]))
    && (forall k :: 0 <= k < |Payments(d)| ==> Payable(decode, Payments(d)[k]))
    && d.minerFee >= 0 && Selection.Total(Coin, d.inputs) - Sum(Payments(d)) == d.minerFee
  }

  // ---------------------------------------------------------------- acceptance

  function ChangeEmitted(d: TxDraft): seq<Payment> {
    if d.change.Some? && d.change.value.value > 0 then [d.change.value] else []
  }

  /** What the builder emits: the payments, without a change that is not positive. */
  function Emitted(d: TxDraft): seq<Payment> {
    d.recipients + (if d.necklaceFee.Some? then [d.necklaceFee.value] else [])
    + ChangeEmitted(d)
  }

  predicate AllPayable(decode: Decoder, ps: seq<Payment>) {
    forall k :: 0 <= k < |ps| ==> Payable(decode, ps[k])
  }

  lemma SigningsExactly(inputs: seq<Utxo>)
    ensures Signings(Selected(inputs)).Ok? <==> forall k :: 0 <= k < |inputs| ==> PayableInput(inputs[k])
  {
    hide Collect, FromHex, IsHex;
    var us := Selected(inputs);
    assert forall k :: 0 <= k < |us| ==> us[k].utxo == inputs[k];
    assert forall k :: 0 <= k < |us| ==> (SigningOf(us[k]).Ok? <==> PayableInput(inputs[k]));
  }

  /** The optional change: nothing is emitted unless it is positive. */
  lemma ChangeExactly(decode: Decoder, change: Option<Payment>)
    ensures var address := if change.Some? then Some(change.value.address) else None;
            var value := if change.Some? then change.value.value else 0;
            var emitted := if change.Some? && value > 0 then [change.value] else [];
            var r := ChangeOutputs(decode, address, value);
            && (r.Ok? <==> AllPayable(decode, emitted))
            && (r.Ok? ==> Pays(decode, Outputs(r.value), emitted)
                          && forall k :: 0 <= k < |r.value| ==> r.value[k].role == ChangeRole)
  {
    if change.Some? && change.value.value > 0 {
      assert AllPayable(decode, [change.value]) <==> Payable(decode, change.value) by {
        assert [change.value][0] == change.value;
      }
    }
  }

  lemma AllPayableConcat(decode: Decoder, ps: seq<Payment>, qs: seq<Payment>)
    ensures AllPayable(decode, ps + qs) <==> AllPayable(decode, ps) && AllPayable(decode, qs)
  {
    hide Payable;
    assert forall k :: 0 <= k < |ps| ==> (ps + qs)[k] == ps[k];
    assert forall k :: 0 <= k < |qs| ==> (ps + qs)[|ps| + k] == qs[k];
  }

  lemma BaseExactly(decode: Decoder, d: TxDraft)
    ensures Base(decode, d).Ok? <==>
            && d.inputs != [] && d.recipients != []
            && (forall k :: 0 <= k < |d.inputs| ==> PayableInput(d.inputs[k]))
            && AllPayable(decode, d.recipients) && AllPayable(decode, ChangeEmitted(d))
    ensures Base(decode, d).Ok? ==>
              var built := Base(decode, d).value;
              && Pays(decode, built.tx.outputs, d.recipients + ChangeEmitted(d))
              && built.tx.outputs == Outputs(built.annotated)
              && InsertAt(built.annotated) == |d.recipients|
  {
    SigningsExactly(d.inputs);
    ChangeExactly(decode, d.change);
    if Base(decode, d).Ok? {
      var ra := Recipients(decode, d.recipients).value;
      var ca := ChangeOutputs(decode, if d.change.Some? then Some(d.change.value.address) else None,
                              if d.change.Some? then d.change.value.value else 0).value;
      InsertAtChange(ra, ca);
    }
  }

  /** The builder accepts a draft exactly when its inputs and what it emits are in order, and emits just that. */
  lemma AssembleExactly(decode: Decoder, d: TxDraft)
    ensures Assemble(decode, d).Ok? <==>
            && d.inputs != [] && d.recipients != []
            && (forall k :: 0 <= k < |d.inputs| ==> PayableInput(d.inputs[k]))
            && AllPayable(decode, Emitted(d))
    ensures Assemble(decode, d).Ok? ==> Pays(decode, Assemble(decode, d).value.tx.outputs, Emitted(d))
  {
    BaseExactly(decode, d);
    hide BuildTransaction, PayableInput, InsertAt;
    var change := ChangeEmitted(d);
    if d.necklaceFee.Some? {
      var fee := d.necklaceFee.value;
      AllPayableConcat(decode, d.recipients, [fee]);
      AllPayableConcat(decode, d.recipients + [fee], change);
      assert AllPayable(decode, [fee]) <==> Payable(decode, fee) by { assert [fee][0] == fee; }
      hide AllPayable;
      if Base(decode, d).Ok? && Payable(decode, fee) {
        var outputs := Base(decode, d).value.tx.outputs;
        var script := decode(fee.address).value;
      }
    } else {
      AllPayableConcat(decode, d.recipients, change);
      assert d.recipients + [] + change == d.recipients + change;
    }
  }

  /** Outputs that pay the payments carry their declared entries. */
  lemma PaysDeclared(decode: Decoder, outputs: seq<TxOutput>, ps: seq<Payment>)
    requires Pays(decode, outputs, ps)
    ensures Declared(decode, ps) == Ok(Entries(outputs))
  {
    var f := (p: Payment) => EntryFor(decode, p);
    assert forall k :: 0 <= k < |ps| ==> f(ps[k]) == Ok(Entries(outputs)[k]);
    assert Collect(f, ps).Ok?;
    assert Collect(f, ps).value == Entries(outputs);
  }

  lemma DeclaredDecodes(decode: Decoder, ps: seq<Payment>)
    requires Declared(decode, ps).Ok?
    ensures |Declared(decode, ps).value| == |ps|
  {
  }

  lemma {:induction false} PaysTotal(decode: Decoder, outputs: seq<TxOutput>, ps: seq<Payment>)
    requires Pays(decode, outputs, ps)
    ensures TotalOutputValue(outputs) == Sum(ps)
  {
    if ps != [] { PaysTotal(decode, outputs[..|ps| - 1], ps[..|ps| - 1]); }
  }

  /** A change that is not emitted makes the output count differ from the declared one. */
  lemma EmittedCount(d: TxDraft)
    ensures |Emitted(d)| == |Payments(d)| <==> Emitted(d) == Payments(d)
    ensures d.change.Some? && d.change.value.value > 0 ==> Emitted(d) == Payments(d)
    ensures d.change.None? ==> Emitted(d) == Payments(d)
    ensures d.change.Some? && d.change.value.value <= 0 ==> |Emitted(d)| < |Payments(d)| && d.change.value in Payments(d)
  {
    if d.change.Some? { assert Payments(d)[|Payments(d)| - 1] == d.change.value; }
  }

  /** Given what the builder built, the two assertions pass exactly when nothing was left out and the fee is right. */
  lemma AssertionsExactly(decode: Decoder, d: TxDraft, outputs: seq<TxOutput>)
    requires Pays(decode, outputs, Emitted(d))
    ensures AssertOutputsMatchDraft(decode, outputs, d) == None && AssertFeeMatchesDraft(outputs, d) == None <==>
            && Emitted(d) == Payments(d)
            && d.minerFee >= 0 && Selection.Total(Coin, d.inputs) - Sum(Payments(d)) == d.minerFee
  {
    OutputsMatchExactly(decode, outputs, d);
    EmittedCount(d);
    if Declared(decode, Payments(d)).Ok? { DeclaredDecodes(decode, Payments(d)); }
    if Emitted(d) == Payments(d) {
      PaysDeclared(decode, outputs, Payments(d));
      PaysTotal(decode, outputs, Payments(d));
    } else if AssertOutputsMatchDraft(decode, outputs, d) == None {
      SameSize(Entries(outputs), Declared(decode, Payments(d)).value);
    }
  }

  lemma SameSize<T>(xs: seq<T>, ys: seq<T>)
    requires multiset(xs) == multiset(ys)
    ensures |xs| == |ys|
  {
    assert |multiset(xs)| == |multiset(ys)|;
  }

  /**
    * The pipeline reaches the signature exactly for an approvable draft under a usable key,
    * and then the outputs are the recipients, the fee and the change, in that order.
    */
  lemma SignerAccepts(decode: Decoder, d: TxDraft, watchOnly: bool, usableKey: bool)
    ensures PreSign(decode, d, watchOnly, usableKey).Ok? <==> !watchOnly && usableKey && Approvable(decode, d)
    ensures PreSign(decode, d, watchOnly, usableKey).Ok? ==>
              var built := PreSign(decode, d, watchOnly, usableKey).value;
              && Pays(decode, built.tx.outputs, Payments(d))
              && Selection.Total(Coin, d.inputs) == TotalOutputValue(built.tx.outputs) + d.minerFee
  {
    AssembleExactly(decode, d);
    EmittedCount(d);
    ApprovableEmits(decode, d);
    if Assemble(decode, d).Ok? {
      var outputs := Assemble(decode, d).value.tx.outputs;
      AssertionsExactly(decode, d, outputs);
      if Emitted(d) == Payments(d) { PaysTotal(decode, outputs, Payments(d)); }
    }
  }

  lemma ApprovableEmits(decode: Decoder, d: TxDraft)
    ensures Approvable(decode, d) <==>
            && d.inputs != [] && d.recipients != []
            && (forall k :: 0 <= k < |d.inputs| ==> PayableInput(d.inputs[k]))
            && AllPayable(decode, Emitted(d)) && Emitted(d) == Payments(d)
            && d.minerFee >= 0 && Selection.Total(Coin, d.inputs) - Sum(Payments(d)) == d.minerFee
  {
    EmittedCount(d);
    if d.change.Some? && d.change.value.value <= 0 { OmittedNotPayable(decode, d); }
  }

  lemma OmittedNotPayable(decode: Decoder, d: TxDraft)
    requires d.change.Some? && d.change.value.value <= 0
    ensures !AllPayable(decode, Payments(d))
  {
    EmittedCount(d);
    var k :| 0 <= k < |Payments(d)| && Payments(d)[k] == d.change.value;
    assert !Payable(decode, Payments(d)[k]);
  }

  /** The signing context is that of the approved inputs: their outpoints, values and scripts, in order. */
  lemma BuiltInputs(decode: Decoder, d: TxDraft)
    requires Assemble(decode, d).Ok?
    ensures var built := Assemble(decode, d).value;
            && built.tx.version == DEFAULT_TX_VERSION && built.tx.locktime == 0
            && built.tx.inputs == Inputs(Selected(d.inputs))
            && (forall k :: 0 <= k < |d.inputs| ==>
                  built.tx.inputs[k] == TxInput(d.inputs[k].txid, d.inputs[k].vout, [], DEFAULT_SEQUENCE, []))
            && |built.signingInputs| == |d.inputs|
            && forall k :: 0 <= k < |d.inputs| ==>
                 var u := d.inputs[k];
                 && FromHex(u.scriptPubKeyHex).Some?
                 && built.signingInputs[k]
                    == SigningInput(u.txid, u.vout, DEFAULT_SEQUENCE, u.value, FromHex(u.scriptPubKeyHex).value)
  {
    hide FromHex, IsHex, Recipients, ChangeOutputs, OutputOf, Splice, InsertAt, Outputs;
    var us := Selected(d.inputs);
    assert forall k :: 0 <= k < |us| ==> us[k] == SelectedInput(d.inputs[k], None);
    assert Signings(us) == Ok(Assemble(decode, d).value.signingInputs);
    assert forall k :: 0 <= k < |us| ==> SigningOf(us[k]) == Ok(Signings(us).value[k]);
  }

  lemma {:induction false} SigningTotal(inputs: seq<Utxo>, ss: seq<SigningInput>)
    requires |ss| == |inputs| && forall k :: 0 <= k < |inputs| ==> ss[k].prevValue == inputs[k].value
    ensures TotalInputValue(ss) == Selection.Total(Coin, inputs)
  {
    if inputs != [] { SigningTotal(inputs[..|inputs| - 1], ss[..|ss| - 1]); }
  }

  /** The builder's own implied fee of what is signed is the approved one. */
  lemma ImpliedFeeAgrees(decode: Decoder, d: TxDraft)
    requires PreSign(decode, d, false, true).Ok?
    ensures ImpliedMinerFee(PreSign(decode, d, false, true).value) == Ok(d.minerFee)
  {
    hide Assemble, AssertOutputsMatchDraft, Approvable, FromHex, Pays, Selection.Total, TotalOutputValue, TotalInputValue, Payments;
    BuiltInputs(decode, d);
    SignerAccepts(decode, d, false, true);
    SigningTotal(d.inputs, PreSign(decode, d, false, true).value.signingInputs);
  }

  // ---------------------------------------------------------------- preview, then sign

  lemma SumOfPayments(d: TxDraft, recipient: Payment, fee: Payment)
    requires d.recipients == [recipient] && d.necklaceFee == Some(fee)
    ensures Payments(d) == [recipient, fee] + (if d.change.Some? then [d.change.value] else [])
    ensures Sum(Payments(d)) == recipient.value + fee.value + (if d.change.Some? then d.change.value.value else 0)
  {
    var ps := [recipient, fee];
    SumSnoc([], recipient);
    SumSnoc([recipient], fee);
    assert [] + [recipient] == [recipient] && [recipient] + [fee] == ps;
    if d.change.Some? {
      SumSnoc(ps, d.change.value);
      assert Payments(d) == ps + [d.change.value];
    } else {
      assert Payments(d) == ps;
    }
  }

  lemma SumSnoc(ps: seq<Payment>, p: Payment)
    ensures Sum(ps + [p]) == Sum(ps) + p.value
  {
    assert (ps + [p])[..|ps|] == ps;
  }

  /** A draft that the preview built is approvable. */
  lemma PreviewApprovable(decode: Decoder, network: Network, utxos: seq<Utxo>, recipient: Payment, changeAddress: string,
                          relayFeePerKb: Option<int>)
    requires BuildTxPreview(network, utxos, recipient, changeAddress, relayFeePerKb).Ok?
    requires Payable(decode, recipient) && decode(changeAddress).Some?
    requires forall address :: FeeAddress(network) == Some(address) ==> decode(address).Some?
    requires forall u :: u in utxos ==> IsHex(u.scriptPubKeyHex)
    ensures Approvable(decode, BuildTxPreview(network, utxos, recipient, changeAddress, relayFeePerKb).value.draft)
  {
    hide BuildTxPreview, FeeAddress, RequireNecklaceFee, Payments, Selection.Total, Sum, IsHex, PayableInput, Fee,
      SelectCoins, Finish;
    NoFeeNoPreview(network, utxos, recipient, changeAddress, relayFeePerKb);
    PreviewConserves(network, utxos, recipient, changeAddress, relayFeePerKb);
    BuiltByFinish(network, utxos, recipient, changeAddress, relayFeePerKb);
    PreviewMeetsRate(network, utxos, recipient, changeAddress, relayFeePerKb);
    PreviewInputsPayable(network, utxos, recipient, changeAddress, relayFeePerKb);
    var d := BuildTxPreview(network, utxos, recipient, changeAddress, relayFeePerKb).value.draft;
    var fee := RequireNecklaceFee(network).value;
    SumOfPayments(d, recipient, fee);
    assert Payable(decode, fee);
  }

  /** The inputs of a preview come from the wallet, and none is negative. */
  lemma PreviewInputsPayable(network: Network, utxos: seq<Utxo>, recipient: Payment, changeAddress: string, relayFeePerKb: Option<int>)
    requires BuildTxPreview(network, utxos, recipient, changeAddress, relayFeePerKb).Ok?
    requires recipient.value >= 0
    requires forall u :: u in utxos ==> IsHex(u.scriptPubKeyHex)
    ensures var d := BuildTxPreview(network, utxos, recipient, changeAddress, relayFeePerKb).value.draft;
            forall k :: 0 <= k < |d.inputs| ==> PayableInput(d.inputs[k])
  {
    hide BuildTxPreview, FeeAddress, Selection.Total, IsHex, SelectCoins, Fee, RequireNecklaceFee;
    NoFeeNoPreview(network, utxos, recipient, changeAddress, relayFeePerKb);
    BuiltByFinish(network, utxos, recipient, changeAddress, relayFeePerKb);
    var fee := RequireNecklaceFee(network).value;
    var rate := PreviewRate(relayFeePerKb);
    var inputs := SelectCoins(utxos, recipient.value + fee.value, rate, 2).value;
    SelectedPositive(utxos, recipient.value + fee.value, rate);
    FinishConserves(network, inputs, recipient, fee, changeAddress, rate);
    forall k | 0 <= k < |inputs| ensures PayableInput(inputs[k]) {
      assert inputs[k] in multiset(inputs);
      assert inputs[k] in multiset(utxos);
    }
  }

  /**
    * Every draft of the preview passes the builder and both assertions, for any coins with
    * hexadecimal scripts, a recipient at or above the dust floor and addresses that decode.
    */
  lemma PreviewAlwaysSigns(decode: Decoder, network: Network, utxos: seq<Utxo>, recipient: Payment, changeAddress: string,
                           relayFeePerKb: Option<int>)
    requires BuildTxPreview(network, utxos, recipient, changeAddress, relayFeePerKb).Ok?
    requires Payable(decode, recipient) && decode(changeAddress).Some?
    requires forall address :: FeeAddress(network) == Some(address) ==> decode(address).Some?
    requires forall u :: u in utxos ==> IsHex(u.scriptPubKeyHex)
    ensures var d := BuildTxPreview(network, utxos, recipient, changeAddress, relayFeePerKb).value.draft;
            && PreSign(decode, d, false, true).Ok?
            && Pays(decode, PreSign(decode, d, false, true).value.tx.outputs, Payments(d))
  {
    hide BuildTxPreview, FeeAddress, PreSign, Pays, Payments, IsHex, Payable, Approvable;
    PreviewApprovable(decode, network, utxos, recipient, changeAddress, relayFeePerKb);
    SignerAccepts(decode, BuildTxPreview(network, utxos, recipient, changeAddress, relayFeePerKb).value.draft, false, true);
  }
}
