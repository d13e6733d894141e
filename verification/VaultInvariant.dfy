/**
  * What every handler of the vault keeps, and the plain wallet that a vault stands for.
  */
module VaultInvariant {
  import opened Wrappers
  import opened VaultTypes
  import opened VaultStorage
  import opened SessionRules
  import opened Manager
  import opened PlainWallet

  function PasswordOf(f: File): string {
    if f.accounts != [] && f.accounts[0].payload.ciphertext.Sealed? then f.accounts[0].payload.ciphertext.key.password else ""
  }

  /** The one key of a file: its password under its one set of derivation parameters. */
  function KeyOf(f: File): Key { Key(PasswordOf(f), f.kdf) }

  /** The payload is the account's own secret under this key, and the public flags describe that secret. */
  predicate AccountOk(key: Key, a: Account) {
    && a.payload == Encrypt(key, a.payload.iv, SecretOf(a))
    && a.kind == SecretOf(a).Kind() && a.watchOnly == SecretOf(a).WatchOnly?
  }

  function EntriesOf(accounts: seq<Account>): (r: seq<Entry>)
    ensures |r| == |accounts|
  {
    seq(|accounts|, k requires 0 <= k < |accounts| => EntryOf(accounts[k]))
  }

  predicate AccountsOk(key: Key, accounts: seq<Account>) {
    forall k :: 0 <= k < |accounts| ==> AccountOk(key, accounts[k])
  }

  predicate FileOk(f: File) {
    ValidFile(f) && Distinct(EntriesOf(f.accounts)) && AccountsOk(KeyOf(f), f.accounts)
  }

  /** The persisted session copy is the file's accounts, in order, and its active account. */
  predicate CopyAgrees(f: File, p: Persisted) {
    p.accounts == EntriesOf(f.accounts) && p.activeId == f.activeId
  }

  predicate SlotOk(b: Blob) { b.Absent? || (b.V2? && FileOk(b.file)) }

  predicate Inv(w: World) {
    && RuntimeOk(w.rt) && SlotOk(w.blob)
    && (w.rt.session.Some? ==> w.rt.rehydrated)
    && (w.rt.persisted.Some? ==> w.blob.V2? && CopyAgrees(w.blob.file, w.rt.persisted.value))
    && (w.rt.session.Some? && w.rt.session.value.key.Some? ==> w.blob.V2? && w.rt.session.value.key.value == KeyOf(w.blob.file))
  }

  // ---------------------------------------------------------------- the wallet behind a vault

  function PlainOf(a: Account): PlainAccount { PlainAccount(a.id, a.name, a.chain, a.address, SecretOf(a)) }

  function PlainsOf(accounts: seq<Account>): (r: seq<PlainAccount>)
    ensures |r| == |accounts|
  {
    seq(|accounts|, k requires 0 <= k < |accounts| => PlainOf(accounts[k]))
  }

  function WalletOf(f: File): Wallet { Wallet(PasswordOf(f), PlainsOf(f.accounts), f.activeId) }

  function OpenOf(rt: Runtime): Option<Open> {
    if rt.session.Some? then Some(Open(rt.session.value.key.Some?, rt.session.value.lockAt))
    else if !rt.rehydrated && rt.persisted.Some? then Some(Open(false, rt.persisted.value.expiresAt))
    else None
  }

  function Abs(w: World): Plain {
    Plain(if w.blob.V2? then Some(WalletOf(w.blob.file)) else None, OpenOf(w.rt),
          w.rt.timeoutMs, w.rt.savedTimeout, w.rt.rehydrated, w.rt.now)
  }

  /** Draws are usable: unused ids, and values that are not empty. */
  predicate Fresh(w: World, draws: Draws) {
    && draws.id != "" && draws.migratedId != "" && draws.salt != ""
    && (w.blob.V2? ==> !HasId(w.blob.file.accounts, draws.id) && |draws.ivs| >= |w.blob.file.accounts|)
    && |draws.ivs| >= 1 && forall k :: 0 <= k < |draws.ivs| ==> draws.ivs[k] != ""
  }

  /** A new account's deriver result and chain are what the validators accept. */
  predicate Sensible(op: Op) {
    match op
    case Create(_, chain, given) => chain != OtherChain && given.address != Some("")
    case AddAccount(_, _, given) => given.address != Some("")
    case _ => true
  }

  // ---------------------------------------------------------------- lists

  lemma HasIdEntries(accounts: seq<Account>, id: string)
    ensures HasId(accounts, id) <==> Has(EntriesOf(accounts), id)
    ensures HasId(accounts, id) <==> Known(PlainsOf(accounts), id)
  {
    var es, ps := EntriesOf(accounts), PlainsOf(accounts);
    assert forall k :: 0 <= k < |accounts| ==> es[k].id == accounts[k].id && ps[k].id == accounts[k].id;
  }

  lemma {:induction false} FindAgrees(accounts: seq<Account>, id: string)
    ensures FindPlain(PlainsOf(accounts), id)
            == match FindAccount(accounts, id) case None => None case Some(a) => Some(PlainOf(a))
  {
    if accounts != [] {
      assert PlainsOf(accounts)[1..] == PlainsOf(accounts[1..]);
      FindAgrees(accounts[1..], id);
    }
  }

  lemma ActiveAgrees(f: File)
    requires f.accounts != []
    ensures Active(WalletOf(f)) == PlainOf(ActiveAccount(f))
  {
    FindAgrees(f.accounts, f.activeId);
  }

  lemma StatusAgrees(f: File, locked: bool)
    requires FileOk(f)
    ensures StatusOf(WalletOf(f), locked) == StatusFromFile(f, locked)
  {
    ActiveAgrees(f);
    assert PlainSummaries(PlainsOf(f.accounts)) == Summaries(f.accounts);
  }

  lemma {:induction false} WithoutAgrees(accounts: seq<Account>, id: string)
    ensures EntriesOf(WithoutId(accounts, id)) == Drop(EntriesOf(accounts), id)
    ensures PlainsOf(WithoutId(accounts, id)) == Forget(PlainsOf(accounts), id)
  {
    if accounts != [] {
      ConsLists(accounts[0], accounts[1..]);
      ConsLists(accounts[0], WithoutId(accounts[1..], id));
      assert accounts == [accounts[0]] + accounts[1..];
      WithoutAgrees(accounts[1..], id);
    }
  }

  lemma ConsLists(a: Account, rest: seq<Account>)
    ensures EntriesOf([a] + rest) == [EntryOf(a)] + EntriesOf(rest)
    ensures PlainsOf([a] + rest) == [PlainOf(a)] + PlainsOf(rest)
  {
  }

  lemma {:induction false} WithoutSubset(accounts: seq<Account>, id: string)
    ensures forall a :: a in WithoutId(accounts, id) ==> a in accounts
  {
    if accounts != [] { WithoutSubset(accounts[1..], id); }
  }
}
