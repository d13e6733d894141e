/**
  * The reference wallet: one password, an ordered list of accounts with their secrets in the
  * clear, an active account, and whether the wallet is open and until when. No encryption, no
  * file, no session map, no timer and no persisted copy; the vault must be indistinguishable
  * from it.
  */
module PlainWallet {
  import opened Wrappers
  import opened VaultTypes
  import opened Manager
  import Ascii
  import Decimal

  datatype PlainAccount = PlainAccount(id: string, name: string, chain: Chain, address: string, secret: Secret)

  datatype Wallet = Wallet(password: string, accounts: seq<PlainAccount>, activeId: string)

  /** An open wallet: whether it can encrypt without the password, and when it locks. */
  datatype Open = Open(hasKey: bool, lockAt: int)

  datatype Plain = Plain(wallet: Option<Wallet>, open: Option<Open>, timeoutMs: int, savedTimeout: Option<int>, awake: bool, now: int)

  predicate Known(accounts: seq<PlainAccount>, id: string) {
    exists k :: 0 <= k < |accounts| && accounts[k].id == id
  }

  function FindPlain(accounts: seq<PlainAccount>, id: string): (r: Option<PlainAccount>)
    ensures r.Some? ==> r.value in accounts
  {
    if accounts == [] then None
    else if accounts[0].id == id then Some(accounts[0])
    else FindPlain(accounts[1..], id)
  }

  function Active(w: Wallet): (a: PlainAccount)
    requires w.accounts != []
    ensures a in w.accounts
  {
    match FindPlain(w.accounts, w.activeId)
    case None => w.accounts[0]
    case Some(a) => a
  }

  function SummaryOfPlain(a: PlainAccount): Summary { Summary(a.id, a.name, a.address, a.secret.WatchOnly?) }

  function PlainSummaries(accounts: seq<PlainAccount>): (r: seq<Summary>)
    ensures |r| == |accounts|
  {
    seq(|accounts|, k requires 0 <= k < |accounts| => SummaryOfPlain(accounts[k]))
  }

  function StatusOf(w: Wallet, locked: bool): Status
    requires w.accounts != []
  {
    var a := Active(w);
    Status(true, locked, Some(Detail(a.chain, a.address, a.secret.WatchOnly?, w.activeId, PlainSummaries(w.accounts))))
  }

  function Forget(accounts: seq<PlainAccount>, id: string): seq<PlainAccount> {
    if accounts == [] then []
    else (if accounts[0].id == id then [] else [accounts[0]]) + Forget(accounts[1..], id)
  }

  function Retitled(accounts: seq<PlainAccount>, id: string, name: string): (r: seq<PlainAccount>)
    ensures |r| == |accounts|
  {
    seq(|accounts|, k requires 0 <= k < |accounts| =>
      if accounts[k].id == id then accounts[k].(name := name) else accounts[k])
  }

  /** Every secret is one that decryption lets through. */
  predicate AllReadable(w: Wallet) {
    forall k :: 0 <= k < |w.accounts| ==> w.accounts[k].secret.WellFormed()
  }

  function Touched(p: Plain): Plain {
    if p.open.None? then p else p.(open := Some(p.open.value.(lockAt := p.now + p.timeoutMs)))
  }

  function Opened(p: Plain): Plain { p.(open := Some(Open(true, p.now + p.timeoutMs))) }

  function Locked(p: Plain): Plain { p.(open := None) }

  /** A fresh worker stays open only before the deadline. */
  function Woken(p: Plain): Plain {
    if p.awake then p
    else p.(awake := true, open := if p.open.Some? && p.now >= p.open.value.lockAt then None else p.open)
  }

  /** What the owner writes down: the words, the key or the extended public key; never the passphrase. */
  function Shown(secret: Secret): string {
    if secret.Mnemonic? then secret.words else if secret.PrivateKey? then secret.hex else secret.xpub
  }

  function PlainDone(status: Status, given: NewSecret): Answer {
    if given.generated then Created(status, Shown(given.secret)) else StatusIs(status)
  }

  // ---------------------------------------------------------------- the operations

  function PlainCreate(p: Plain, password: string, chain: Chain, given: NewSecret, id: string): (Plain, Answer) {
    if |password| < 8 then (p, Failed(WeakPassphrase))
    else if given.address.None? then (p, Failed(InvalidKey))
    else if p.wallet.Some? then (p, Failed(VaultExists))
    else
      var wallet := Wallet(password, [PlainAccount(id, "Account 1", chain, given.address.value, given.secret)], id);
      (Opened(p.(wallet := Some(wallet))), PlainDone(StatusOf(wallet, false), given))
  }

  function PlainAdd(p: Plain, wanted: Option<string>, password: Option<string>, given: NewSecret, id: string): (Plain, Answer)
    requires p.wallet.Some? ==> p.wallet.value.accounts != []
  {
    if p.open.None? then (p, Failed(WalletLocked))
    else if p.wallet.None? then (p, Failed(NoVault))
    else
      var wallet := p.wallet.value;
      if password.Some? && !(password.value == wallet.password && Active(wallet).secret.WellFormed()) then (p, Failed(WrongPassword))
      else if password.None? && !p.open.value.hasKey then (p, Failed(WalletLocked))
      else if given.address.None? then (if password.None? then Touched(p) else p, Failed(InvalidKey))
      else
        var name := if wanted.Some? && Ascii.Trim(wanted.value) != "" then Ascii.Trim(wanted.value)
                    else "Account " + Decimal.PrintNat(|wallet.accounts| + 1);
        var account := PlainAccount(id, name, wallet.accounts[0].chain, given.address.value, given.secret);
        var wallet' := wallet.(accounts := wallet.accounts + [account], activeId := id);
        (Touched(p.(wallet := Some(wallet'))), PlainDone(StatusOf(wallet', false), given))
  }

  function PlainSwitch(p: Plain, id: string): (Plain, Answer)
    requires p.wallet.Some? ==> p.wallet.value.accounts != []
  {
    if p.wallet.None? then (p, Failed(NoVault))
    else if !Known(p.wallet.value.accounts, id) then (p, Failed(NoSuchAccount))
    else
      var wallet := p.wallet.value.(activeId := id);
      (Touched(p.(wallet := Some(wallet))), StatusIs(StatusOf(wallet, p.open.None?)))
  }

  function PlainRename(p: Plain, id: string, wantedName: string): (Plain, Answer)
    requires p.wallet.Some? ==> p.wallet.value.accounts != []
  {
    var name := Ascii.Trim(wantedName);
    if name == "" then (p, Failed(EmptyName))
    else if p.wallet.None? then (p, Failed(NoVault))
    else if !Known(p.wallet.value.accounts, id) then (p, Failed(NoSuchAccount))
    else
      var wallet := p.wallet.value.(accounts := Retitled(p.wallet.value.accounts, id, name));
      (p.(wallet := Some(wallet)), StatusIs(StatusOf(wallet, p.open.None?)))
  }

  function PlainRemove(p: Plain, id: string): (Plain, Answer)
    requires p.wallet.Some? ==> p.wallet.value.accounts != []
  {
    if p.wallet.None? then (p, Failed(NoVault))
    else if !Known(p.wallet.value.accounts, id) then (p, Failed(NoSuchAccount))
    else
      var rest := Forget(p.wallet.value.accounts, id);
      if rest == [] then (p, Failed(LastAccount))
      else
        var wallet := p.wallet.value.(accounts := rest, activeId := if p.wallet.value.activeId == id then rest[0].id else p.wallet.value.activeId);
        (Touched(p.(wallet := Some(wallet))), StatusIs(StatusOf(wallet, p.open.None?)))
  }

  function PlainUnlock(p: Plain, password: string): (Plain, Answer)
    requires p.wallet.Some? ==> p.wallet.value.accounts != []
  {
    if p.wallet.None? then (p, Failed(NoVault))
    else if password != p.wallet.value.password || !AllReadable(p.wallet.value) then (p, Failed(WrongPassword))
    else (Opened(p), StatusIs(StatusOf(p.wallet.value, false)))
  }

  function PlainChangePassword(p: Plain, current: string, next: string): (Plain, Answer)
    requires p.wallet.Some? ==> p.wallet.value.accounts != []
  {
    if |next| < 8 then (p, Failed(WeakPassphrase))
    else if p.wallet.None? then (p, Failed(NoVault))
    else if current != p.wallet.value.password || !AllReadable(p.wallet.value) then (p, Failed(WrongPassword))
    else
      var wallet := p.wallet.value.(password := next);
      var p' := p.(wallet := Some(wallet));
      (if p.open.Some? then Opened(p') else p', StatusIs(StatusOf(wallet, p.open.None?)))
  }

  function PlainReveal(p: Plain, password: string): (Plain, Answer)
    requires p.wallet.Some? ==> p.wallet.value.accounts != []
  {
    if p.wallet.None? then (p, Failed(NoVault))
    else
      var secret := Active(p.wallet.value).secret;
      (p, if password == p.wallet.value.password && secret.WellFormed() then Text(Shown(secret)) else Failed(WrongPassword))
  }

  function PlainSignKey(p: Plain, password: string): (Plain, Answer)
    requires p.wallet.Some? ==> p.wallet.value.accounts != []
  {
    if p.wallet.None? then (p, Failed(NoVault))
    else
      var secret := Active(p.wallet.value).secret;
      if secret.WatchOnly? then (p, Failed(WatchOnlyAccount))
      else (p, if password == p.wallet.value.password && secret.WellFormed() then Plaintext(secret) else Failed(WrongPassword))
  }

  function PlainExport(p: Plain): (Plain, Answer)
    requires p.wallet.Some? ==> p.wallet.value.accounts != []
  {
    if p.open.None? || p.wallet.None? then (p, Failed(WalletLocked))
    else (Touched(p), Plaintext(Active(p.wallet.value).secret))
  }

  function PlainStatus(p: Plain): (Plain, Answer)
    requires p.wallet.Some? ==> p.wallet.value.accounts != []
  {
    (p, StatusIs(if p.wallet.None? then Status(false, true, None) else StatusOf(p.wallet.value, p.open.None?)))
  }

  function PlainSetTimeout(p: Plain, ms: int): (Plain, Answer)
    requires p.wallet.Some? ==> p.wallet.value.accounts != []
  {
    if ms <= 0 then (p, Failed(BadTimeout))
    else PlainStatus(Touched(p.(timeoutMs := ms)).(savedTimeout := Some(ms)))
  }

  /** The answer of the reference wallet; `id` is the id drawn for a new account. */
  function PlainHandle(p: Plain, op: Op, id: string): (Plain, Answer)
    requires p.wallet.Some? ==> p.wallet.value.accounts != []
  {
    match op
    case Create(password, chain, given) => PlainCreate(p, password, chain, given, id)
    case AddAccount(wanted, password, given) => PlainAdd(p, wanted, password, given, id)
    case Switch(id') => PlainSwitch(p, id')
    case Rename(id', wantedName) => PlainRename(p, id', wantedName)
    case Remove(id') => PlainRemove(p, id')
    case Unlock(password) => PlainUnlock(p, password)
    case Lock => (Locked(p), StatusIs(Status(true, true, None)))
    case Delete => (Locked(p).(wallet := None), StatusIs(Status(false, true, None)))
    case ChangePassword(current, next) => PlainChangePassword(p, current, next)
    case Reveal(password) => PlainReveal(p, password)
    case SignKey(password) => PlainSignKey(p, password)
    case Export => PlainExport(p)
    case GetStatus => PlainStatus(p)
    case SetTimeout(ms) => PlainSetTimeout(p, ms)
  }

  function PlainMessage(p: Plain, op: Op, id: string): (Plain, Answer)
    requires p.wallet.Some? ==> p.wallet.value.accounts != []
  {
    PlainHandle(Woken(p), op, id)
  }
}
