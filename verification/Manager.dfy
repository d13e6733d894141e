/**
  * The vault operations of manager.ts as functions of the storage slot and the session
  * variables. Every handler runs as one step, after the session was rehydrated. What the
  * libraries return enters as parameters: the random draws, and the address that a secret
  * derives to, None being a secret that the deriver refuses.
  */
module Manager {
  import opened Wrappers
  import opened VaultTypes
  import opened VaultStorage
  import opened SessionRules
  import Ascii
  import Decimal

  datatype World = World(blob: Blob, rt: Runtime)

  /** One handler's random draws. */
  datatype Draws = Draws(id: string, migratedId: string, salt: string, ivs: seq<string>)
  {
    function Iv(k: nat): string { if k < |ivs| then ivs[k] else "" }
  }

  datatype Summary = Summary(id: string, name: string, address: string, watchOnly: bool)

  datatype Detail = Detail(chain: Chain, address: string, watchOnly: bool, activeId: string, accounts: seq<Summary>)

  datatype Status = Status(hasVault: bool, locked: bool, detail: Option<Detail>)

  datatype Answer =
    | Failed(error: VaultError)
    | StatusIs(status: Status)
    | Created(status: Status, backup: string)
    | Text(text: string)
    | Plaintext(secret: Secret)

  /** A new account: what is imported or generated, and its derived address. */
  datatype NewSecret = NewSecret(secret: Secret, address: Option<string>, generated: bool)

  datatype Op =
    | Create(password: string, chain: Chain, given: NewSecret)
    | AddAccount(wanted: Option<string>, password': Option<string>, given: NewSecret)
    | Switch(id: string) | Rename(id: string, wantedName: string) | Remove(id: string)
    | Unlock(password: string) | Lock | Delete
    | ChangePassword(current: string, next: string)
    | Reveal(password: string) | SignKey(password: string) | Export | GetStatus
    | SetTimeout(ms: int)

  // ---------------------------------------------------------------- pieces

  function EntryOf(a: Account): Entry { Entry(a.id, SecretOf(a), a.address) }

  /** The secret inside an account's payload. */
  function SecretOf(a: Account): Secret {
    if a.payload.ciphertext.Sealed? then a.payload.ciphertext.secret else WatchOnly("")
  }

  function MakeAccount(id: string, name: string, chain: Chain, secret: Secret, address: string, payload: Payload, now: int): Account {
    Account(id, name, chain, address, secret.Kind(), secret.WatchOnly?, payload, now, now)
  }

  function ActiveAccount(f: File): (a: Account)
    requires f.accounts != []
    ensures a in f.accounts
  {
    match FindAccount(f.accounts, f.activeId)
    case None => f.accounts[0]
    case Some(a) => a
  }

  function FindAccount(accounts: seq<Account>, id: string): (r: Option<Account>)
    ensures r.Some? ==> r.value in accounts && r.value.id == id
    ensures r.None? ==> !HasId(accounts, id)
  {
    if accounts == [] then None
    else if accounts[0].id == id then Some(accounts[0])
    else
      var r := FindAccount(accounts[1..], id);
      assert r.None? ==> forall k :: 1 <= k < |accounts| ==> accounts[k] == accounts[1..][k - 1];
      r
  }

  function SummaryOf(a: Account): Summary { Summary(a.id, a.name, a.address, a.watchOnly) }

  function Summaries(accounts: seq<Account>): (r: seq<Summary>)
    ensures |r| == |accounts|
  {
    seq(|accounts|, k requires 0 <= k < |accounts| => SummaryOf(accounts[k]))
  }

  /** `statusFromFile`. */
  function StatusFromFile(f: File, locked: bool): Status
    requires f.accounts != []
  {
    var a := ActiveAccount(f);
    Status(true, locked, Some(Detail(a.chain, a.address, a.watchOnly, f.activeId, Summaries(f.accounts))))
  }

  function DefaultName(n: nat): string { "Account " + Decimal.PrintNat(n) }

  function NameFor(wanted: Option<string>, accounts: seq<Account>): (name: string)
    ensures name != ""
  {
    if wanted.Some? && Ascii.Trim(wanted.value) != "" then Ascii.Trim(wanted.value) else DefaultName(|accounts| + 1)
  }

  /** Every payload opened, in order; the first failure stops it. */
  function DecryptAll(key: Key, accounts: seq<Account>): Option<seq<Entry>> {
    if accounts == [] then Some([])
    else
      var k := |accounts| - 1;
      match DecryptAll(key, accounts[..k])
      case None => None
      case Some(es) =>
        match Decrypt(key, accounts[k].payload)
        case None => None
        case Some(secret) => Some(es + [Entry(accounts[k].id, secret, accounts[k].address)])
  }

  /** The fresh payloads by account id. */
  function Reencrypted(key: Key, draws: Draws, entries: seq<Entry>): map<string, Payload> {
    if entries == [] then map[]
    else
      var k := |entries| - 1;
      Reencrypted(key, draws, entries[..k])[entries[k].id := Encrypt(key, draws.Iv(k), entries[k].secret)]
  }

  function Resealed(accounts: seq<Account>, payloads: map<string, Payload>, now: int): (r: seq<Account>)
    ensures |r| == |accounts|
  {
    seq(|accounts|, k requires 0 <= k < |accounts| =>
      if accounts[k].id in payloads then accounts[k].(payload := payloads[accounts[k].id], updatedAt := now) else accounts[k])
  }

  function Renamed(accounts: seq<Account>, id: string, name: string, now: int): (r: seq<Account>)
    ensures |r| == |accounts|
  {
    seq(|accounts|, k requires 0 <= k < |accounts| =>
      if accounts[k].id == id then accounts[k].(name := name, updatedAt := now) else accounts[k])
  }

  function WithoutId(accounts: seq<Account>, id: string): seq<Account> {
    if accounts == [] then []
    else (if accounts[0].id == id then [] else [accounts[0]]) + WithoutId(accounts[1..], id)
  }

  // ---------------------------------------------------------------- handlers

  function DoCreate(w: World, password: string, chain: Chain, given: NewSecret, draws: Draws): (World, Answer) {
    if |password| < 8 then (w, Failed(WeakPassphrase))
    else if given.address.None? then (w, Failed(InvalidKey))
    else
      var loaded := Load(w.blob, draws.migratedId);
      match loaded.result
      case None => (World(loaded.blob, w.rt), Failed(CorruptVault))
      case Some(Some(_)) => (World(loaded.blob, w.rt), Failed(VaultExists))
      case Some(None) =>
        var kdf := KdfParams(Pbkdf2, draws.salt);
        var key := Key(password, kdf);
        var account := MakeAccount(draws.id, "Account 1", chain, given.secret, given.address.value,
                                   Encrypt(key, draws.Iv(0), given.secret), w.rt.now);
        var file := File(VAULT_FILE_VERSION, draws.id, kdf, [account]);
        var rt := StartSession(w.rt, [Entry(draws.id, given.secret, account.address)], draws.id, Some(key)).0;
        (World(V2(file), rt), Done(StatusFromFile(file, false), given))
  }

  function Done(status: Status, given: NewSecret): Answer {
    if given.generated then Created(status, given.secret.Backup()) else StatusIs(status)
  }

  /** The key for a new account: re-derived and checked when a password is given, else the session's. */
  function KeyForAdding(rt: Runtime, f: File, password: Option<string>): (Runtime, Result<Key, VaultError>)
    requires f.accounts != []
  {
    if password.Some? then
      var key := Key(password.value, f.kdf);
      (rt, if Decrypt(key, ActiveAccount(f).payload).Some? then Ok(key) else Err(WrongPassword))
    else
      var used := RequireKey(rt);
      (used.0, if used.1.Some? then Ok(used.1.value) else Err(WalletLocked))
  }

  function DoAddAccount(w: World, wanted: Option<string>, password: Option<string>, given: NewSecret, draws: Draws): (World, Answer) {
    if w.rt.session.None? then (w, Failed(WalletLocked))
    else
      var loaded := Load(w.blob, draws.migratedId);
      match loaded.result
      case None => (World(loaded.blob, w.rt), Failed(CorruptVault))
      case Some(None) => (World(loaded.blob, w.rt), Failed(NoVault))
      case Some(Some(f)) =>
        var keyed := KeyForAdding(w.rt, f, password);
        if keyed.1.Err? then (World(loaded.blob, keyed.0), Failed(keyed.1.error))
        else if given.address.None? then (World(loaded.blob, keyed.0), Failed(InvalidKey))
        else
          var account := MakeAccount(draws.id, NameFor(wanted, f.accounts), f.accounts[0].chain, given.secret, given.address.value,
                                     Encrypt(keyed.1.value, draws.Iv(0), given.secret), w.rt.now);
          var file := f.(accounts := f.accounts + [account], activeId := draws.id);
          match AddEntry(keyed.0, Entry(draws.id, given.secret, account.address), true)
          case None => (World(V2(file), keyed.0), Failed(WalletLocked))
          case Some(rt) => (World(V2(file), rt), Done(StatusFromFile(file, false), given))
  }

  function DoSwitch(w: World, id: string, draws: Draws): (World, Answer) {
    var loaded := Load(w.blob, draws.migratedId);
    match loaded.result
    case None => (World(loaded.blob, w.rt), Failed(CorruptVault))
    case Some(None) => (World(loaded.blob, w.rt), Failed(NoVault))
    case Some(Some(f)) =>
      if !HasId(f.accounts, id) then (World(loaded.blob, w.rt), Failed(NoSuchAccount))
      else
        var file := f.(activeId := id);
        if w.rt.session.None? then (World(V2(file), w.rt), StatusIs(StatusFromFile(file, true)))
        else match SetActive(w.rt, id)
          case None => (World(V2(file), w.rt), Failed(NotInSession))
          case Some(rt) => (World(V2(file), rt), StatusIs(StatusFromFile(file, false)))
  }

  function DoRename(w: World, id: string, wantedName: string, draws: Draws): (World, Answer) {
    var name := Ascii.Trim(wantedName);
    if name == "" then (w, Failed(EmptyName))
    else
      var loaded := Load(w.blob, draws.migratedId);
      match loaded.result
      case None => (World(loaded.blob, w.rt), Failed(CorruptVault))
      case Some(None) => (World(loaded.blob, w.rt), Failed(NoVault))
      case Some(Some(f)) =>
        if !HasId(f.accounts, id) then (World(loaded.blob, w.rt), Failed(NoSuchAccount))
        else
          var file := f.(accounts := Renamed(f.accounts, id, name, w.rt.now));
          (World(V2(file), w.rt), StatusIs(StatusFromFile(file, w.rt.session.None?)))
  }

  function DoRemove(w: World, id: string, draws: Draws): (World, Answer) {
    var loaded := Load(w.blob, draws.migratedId);
    match loaded.result
    case None => (World(loaded.blob, w.rt), Failed(CorruptVault))
    case Some(None) => (World(loaded.blob, w.rt), Failed(NoVault))
    case Some(Some(f)) =>
      if !HasId(f.accounts, id) then (World(loaded.blob, w.rt), Failed(NoSuchAccount))
      else if |f.accounts| <= 1 then (World(loaded.blob, w.rt), Failed(LastAccount))
      else
        var remaining := WithoutId(f.accounts, id);
        if remaining == [] then (World(loaded.blob, w.rt), Failed(LastAccount))
        else
          var nextActiveId := if f.activeId == id then remaining[0].id else f.activeId;
          var file := f.(accounts := remaining, activeId := nextActiveId);
          (World(V2(file), RemoveEntry(w.rt, id, nextActiveId)), StatusIs(StatusFromFile(file, w.rt.session.None?)))
  }

  function DoUnlock(w: World, password: string, draws: Draws): (World, Answer) {
    var loaded := Load(w.blob, draws.migratedId);
    match loaded.result
    case None => (World(loaded.blob, w.rt), Failed(CorruptVault))
    case Some(None) => (World(loaded.blob, w.rt), Failed(NoVault))
    case Some(Some(f)) =>
      var key := Key(password, f.kdf);
      match DecryptAll(key, f.accounts)
      case None => (World(loaded.blob, w.rt), Failed(WrongPassword))
      case Some(entries) =>
        (World(loaded.blob, StartSession(w.rt, entries, f.activeId, Some(key)).0), StatusIs(StatusFromFile(f, false)))
  }

  function DoLock(w: World): (World, Answer) {
    (World(w.blob, LockNow(w.rt)), StatusIs(Status(true, true, None)))
  }

  function DoDelete(w: World): (World, Answer) {
    (World(Absent, LockNow(w.rt)), StatusIs(Status(false, true, None)))
  }

  function DoChangePassword(w: World, current: string, next: string, draws: Draws): (World, Answer) {
    if |next| < 8 then (w, Failed(WeakPassphrase))
    else
      var loaded := Load(w.blob, draws.migratedId);
      match loaded.result
      case None => (World(loaded.blob, w.rt), Failed(CorruptVault))
      case Some(None) => (World(loaded.blob, w.rt), Failed(NoVault))
      case Some(Some(f)) =>
        match DecryptAll(Key(current, f.kdf), f.accounts)
        case None => (World(loaded.blob, w.rt), Failed(WrongPassword))
        case Some(decrypted) =>
          var kdf := KdfParams(Pbkdf2, draws.salt);
          var newKey := Key(next, kdf);
          var file := f.(kdf := kdf, accounts := Resealed(f.accounts, Reencrypted(newKey, draws, decrypted), w.rt.now));
          var rt := if w.rt.session.None? then w.rt
                    else StartSession(w.rt, decrypted, w.rt.session.value.activeId, Some(newKey)).0;
          (World(V2(file), rt), StatusIs(StatusFromFile(file, w.rt.session.None?)))
  }

  function DoReveal(w: World, password: string, draws: Draws): (World, Answer) {
    var loaded := Load(w.blob, draws.migratedId);
    match loaded.result
    case None => (World(loaded.blob, w.rt), Failed(CorruptVault))
    case Some(None) => (World(loaded.blob, w.rt), Failed(NoVault))
    case Some(Some(f)) =>
      match Decrypt(Key(password, f.kdf), ActiveAccount(f).payload)
      case None => (World(loaded.blob, w.rt), Failed(WrongPassword))
      case Some(secret) => (World(loaded.blob, w.rt), Text(secret.Backup()))
  }

  /** `signDraft` up to the signer: the secret that signs. */
  function DoSignKey(w: World, password: string, draws: Draws): (World, Answer) {
    var loaded := Load(w.blob, draws.migratedId);
    match loaded.result
    case None => (World(loaded.blob, w.rt), Failed(CorruptVault))
    case Some(None) => (World(loaded.blob, w.rt), Failed(NoVault))
    case Some(Some(f)) =>
      var account := ActiveAccount(f);
      if account.watchOnly then (World(loaded.blob, w.rt), Failed(WatchOnlyAccount))
      else match Decrypt(Key(password, f.kdf), account.payload)
        case None => (World(loaded.blob, w.rt), Failed(WrongPassword))
        case Some(secret) =>
          (World(loaded.blob, w.rt), if secret.WatchOnly? then Failed(WatchOnlyAccount) else Plaintext(secret))
  }

  function DoExport(w: World): (World, Answer) {
    if w.rt.session.None? then (w, Failed(WalletLocked))
    else
      var used := RequireSecret(w.rt);
      (World(w.blob, used.0), if used.1.Some? then Plaintext(used.1.value) else Failed(NotInSession))
  }

  function DoGetStatus(w: World, draws: Draws): (World, Answer) {
    var loaded := Load(w.blob, draws.migratedId);
    match loaded.result
    case None => (World(loaded.blob, w.rt), Failed(CorruptVault))
    case Some(None) => (World(loaded.blob, w.rt), StatusIs(Status(false, true, None)))
    case Some(Some(f)) => (World(loaded.blob, w.rt), StatusIs(StatusFromFile(f, w.rt.session.None?)))
  }

  function DoSetTimeout(w: World, ms: int, draws: Draws): (World, Answer) {
    match SetLockTimeout(w.rt, ms)
    case None => (w, Failed(BadTimeout))
    case Some(rt) => DoGetStatus(World(w.blob, rt), draws)
  }

  function Handle(w: World, op: Op, draws: Draws): (World, Answer) {
    match op
    case Create(password, chain, given) => DoCreate(w, password, chain, given, draws)
    case AddAccount(wanted, password, given) => DoAddAccount(w, wanted, password, given, draws)
    case Switch(id) => DoSwitch(w, id, draws)
    case Rename(id, wantedName) => DoRename(w, id, wantedName, draws)
    case Remove(id) => DoRemove(w, id, draws)
    case Unlock(password) => DoUnlock(w, password, draws)
    case Lock => DoLock(w)
    case Delete => DoDelete(w)
    case ChangePassword(current, next) => DoChangePassword(w, current, next, draws)
    case Reveal(password) => DoReveal(w, password, draws)
    case SignKey(password) => DoSignKey(w, password, draws)
    case Export => DoExport(w)
    case GetStatus => DoGetStatus(w, draws)
    case SetTimeout(ms) => DoSetTimeout(w, ms, draws)
  }

  /** `handleMessage`: the session is restored first. */
  function HandleMessage(w: World, op: Op, draws: Draws): (World, Answer) {
    Handle(World(w.blob, EnsureRehydrated(w.rt)), op, draws)
  }
}
