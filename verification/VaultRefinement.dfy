/**
  * The vault refines the plain wallet: each handler keeps the invariant, answers as the plain
  * wallet answers, and leaves a state that stands for the plain wallet's next state.
  */
module VaultRefinement {
  import opened Wrappers
  import opened VaultTypes
  import opened VaultStorage
  import opened SessionRules
  import opened Manager
  import opened PlainWallet
  import opened VaultInvariant
  import Ascii
  import Decimal

  /** The outcome is sound and is what the plain wallet did. */
  predicate Matches(outcome: (World, Answer), plain: (Plain, Answer)) {
    Inv(outcome.0) && outcome.0.rt.rehydrated && Abs(outcome.0) == plain.0 && outcome.1 == plain.1
  }

  lemma LoadOk(blob: Blob, id: string)
    requires SlotOk(blob)
    ensures Load(blob, id) == Loaded(Some(if blob.V2? then Some(blob.file) else None), blob)
    ensures blob.V2? ==> blob.file.accounts != []
  {
    hide ValidAccount, Distinct, AccountsOk;
  }

  // ---------------------------------------------------------------- files

  lemma KeyOfOk(f: File, key: Key)
    requires f.accounts != [] && AccountsOk(key, f.accounts) && key.params == f.kdf
    ensures KeyOf(f) == key
  {
    assert AccountOk(key, f.accounts[0]);
  }

  lemma EntriesDistinctIds(accounts: seq<Account>)
    ensures Distinct(EntriesOf(accounts)) <==> forall i, j :: 0 <= i < j < |accounts| ==> accounts[i].id != accounts[j].id
  {
    var es := EntriesOf(accounts);
    assert forall k :: 0 <= k < |accounts| ==> es[k].id == accounts[k].id;
  }

  lemma AppendOk(f: File, a: Account)
    requires FileOk(f) && AccountOk(KeyOf(f), a) && ValidAccount(a) && !HasId(f.accounts, a.id)
    ensures var f' := f.(accounts := f.accounts + [a], activeId := a.id);
            && FileOk(f') && KeyOf(f') == KeyOf(f)
            && EntriesOf(f'.accounts) == EntriesOf(f.accounts) + [EntryOf(a)]
            && PlainsOf(f'.accounts) == PlainsOf(f.accounts) + [PlainOf(a)]
            && !Has(EntriesOf(f.accounts), a.id)
  {
    var f' := f.(accounts := f.accounts + [a], activeId := a.id);
    EntriesDistinctIds(f.accounts);
    EntriesDistinctIds(f'.accounts);
    HasIdEntries(f.accounts, a.id);
    assert a.id != "";
    assert f'.accounts[|f.accounts|] == a;
    assert HasId(f'.accounts, a.id);
    assert KeyOf(f') == KeyOf(f);
  }

  /** A file with one account. */
  lemma SingleOk(f: File, key: Key, a: Account)
    requires f.version == VAULT_FILE_VERSION && f.accounts == [a] && f.activeId == a.id && f.kdf == key.params && ValidKdf(f.kdf)
    requires AccountOk(key, a) && ValidAccount(a)
    ensures FileOk(f) && KeyOf(f) == key && EntriesOf(f.accounts) == [EntryOf(a)] && PlainsOf(f.accounts) == [PlainOf(a)]
  {
    KeyOfOk(f, key);
    assert f.accounts[0].id == f.activeId;
  }

  lemma SwitchOk(f: File, id: string)
    requires FileOk(f) && HasId(f.accounts, id)
    ensures FileOk(f.(activeId := id)) && KeyOf(f.(activeId := id)) == KeyOf(f)
  {
    var k :| 0 <= k < |f.accounts| && f.accounts[k].id == id;
    assert ValidAccount(f.accounts[k]);
  }

  lemma RenameOk(f: File, id: string, name: string, now: int)
    requires FileOk(f) && name != ""
    ensures var f' := f.(accounts := Renamed(f.accounts, id, name, now));
            && FileOk(f') && KeyOf(f') == KeyOf(f)
            && EntriesOf(f'.accounts) == EntriesOf(f.accounts)
            && PlainsOf(f'.accounts) == Retitled(PlainsOf(f.accounts), id, name)
  {
    var f' := f.(accounts := Renamed(f.accounts, id, name, now));
    assert forall k :: 0 <= k < |f.accounts| ==> AccountOk(KeyOf(f), f.accounts[k]) && ValidAccount(f.accounts[k]);
    assert forall k :: 0 <= k < |f.accounts| ==> AccountOk(KeyOf(f), f'.accounts[k]) && ValidAccount(f'.accounts[k]);
    KeyOfOk(f', KeyOf(f));
    RenameLists(f.accounts, id, name, now);
    HasIdEntries(f.accounts, f.activeId);
    HasIdEntries(f'.accounts, f.activeId);
  }

  lemma RenameLists(accounts: seq<Account>, id: string, name: string, now: int)
    ensures EntriesOf(Renamed(accounts, id, name, now)) == EntriesOf(accounts)
    ensures PlainsOf(Renamed(accounts, id, name, now)) == Retitled(PlainsOf(accounts), id, name)
  {
  }

  /** Removing one of several accounts. */
  lemma RemoveOk(f: File, id: string)
    requires FileOk(f) && |f.accounts| >= 2
    ensures var rest := WithoutId(f.accounts, id);
            && rest != []
            && var f' := f.(accounts := rest, activeId := if f.activeId == id then rest[0].id else f.activeId);
            && FileOk(f') && KeyOf(f') == KeyOf(f)
            && EntriesOf(rest) == Drop(EntriesOf(f.accounts), id)
            && PlainsOf(rest) == Forget(PlainsOf(f.accounts), id)
            && Has(EntriesOf(rest), f'.activeId)
  {
    var rest := WithoutId(f.accounts, id);
    var key := KeyOf(f);
    WithoutAgrees(f.accounts, id);
    WithoutSubset(f.accounts, id);
    DistinctUnfolds(EntriesOf(f.accounts));
    DropExactly(EntriesOf(f.accounts), id);
    DistinctUnfolds(EntriesOf(rest));
    HasIdEntries(f.accounts, f.activeId);
    var f' := f.(accounts := rest, activeId := if f.activeId == id then rest[0].id else f.activeId);
    assert |EntriesOf(rest)| == |rest|;
    HasIdEntries(rest, f'.activeId);
    assert EntriesOf(rest)[0].id == rest[0].id;
    SubsetOk(f, rest);
    KeyOfOk(f', key);
  }

  lemma SubsetOk(f: File, rest: seq<Account>)
    requires FileOk(f) && forall a :: a in rest ==> a in f.accounts
    ensures AccountsOk(KeyOf(f), rest)
    ensures forall k :: 0 <= k < |rest| ==> ValidAccount(rest[k]) && rest[k].id != ""
  {
    hide AccountOk, Distinct, ValidPayload;
    forall k | 0 <= k < |rest| ensures AccountOk(KeyOf(f), rest[k]) && ValidAccount(rest[k]) {
      assert rest[k] in f.accounts;
    }
  }

  // ---------------------------------------------------------------- re-encryption

  /** Opening every account succeeds exactly with the file's password and readable secrets, onto the session's entries. */
  lemma {:induction false} DecryptAllExactly(key: Key, accounts: seq<Account>, tried: Key)
    requires AccountsOk(key, accounts)
    ensures DecryptAll(tried, accounts).Some? <==>
            accounts == [] || (tried == key && forall k :: 0 <= k < |accounts| ==> SecretOf(accounts[k]).WellFormed())
    ensures DecryptAll(tried, accounts).Some? ==> DecryptAll(tried, accounts).value == EntriesOf(accounts)
  {
    if accounts != [] {
      var k := |accounts| - 1;
      var init := accounts[..k];
      DecryptAllExactly(key, init, tried);
      DecryptExactly(key, accounts[k], tried);
      assert forall j :: 0 <= j < k ==> init[j] == accounts[j];
      assert EntriesOf(accounts) == EntriesOf(init) + [EntryOf(accounts[k])];
    }
  }

  lemma DecryptExactly(key: Key, a: Account, tried: Key)
    requires AccountOk(key, a)
    ensures Decrypt(tried, a.payload).Some? <==> tried == key && SecretOf(a).WellFormed()
    ensures Decrypt(tried, a.payload).Some? ==> Decrypt(tried, a.payload).value == SecretOf(a)
  {
    hide Secret.WellFormed;
  }

  lemma ReadableAgrees(f: File)
    ensures AllReadable(WalletOf(f)) <==> forall k :: 0 <= k < |f.accounts| ==> SecretOf(f.accounts[k]).WellFormed()
  {
    hide Secret.WellFormed;
    assert forall k :: 0 <= k < |f.accounts| ==> PlainsOf(f.accounts)[k].secret == SecretOf(f.accounts[k]);
  }

  /** With distinct ids, each entry's own fresh payload is the one found under its id. */
  lemma {:induction false} ReencryptedAt(key: Key, draws: Draws, entries: seq<Entry>, k: nat)
    requires Distinct(entries) && k < |entries|
    ensures entries[k].id in Reencrypted(key, draws, entries)
    ensures Reencrypted(key, draws, entries)[entries[k].id] == Encrypt(key, draws.Iv(k), entries[k].secret)
  {
    var last := |entries| - 1;
    if k < last {
      ReencryptedAt(key, draws, entries[..last], k);
      assert entries[k].id != entries[last].id;
    }
  }

  /** After a password change every account is its own secret under the one new key. */
  lemma ResealOk(f: File, newKey: Key, draws: Draws, now: int)
    requires FileOk(f) && ValidKdf(newKey.params)
    requires |draws.ivs| >= |f.accounts| && forall k :: 0 <= k < |draws.ivs| ==> draws.ivs[k] != ""
    ensures var sealed := Resealed(f.accounts, Reencrypted(newKey, draws, EntriesOf(f.accounts)), now);
            var f' := f.(kdf := newKey.params, accounts := sealed);
            && FileOk(f') && KeyOf(f') == newKey
            && EntriesOf(sealed) == EntriesOf(f.accounts) && PlainsOf(sealed) == PlainsOf(f.accounts)
  {
    var es := EntriesOf(f.accounts);
    var sealed := Resealed(f.accounts, Reencrypted(newKey, draws, es), now);
    forall k | 0 <= k < |f.accounts|
      ensures sealed[k] == f.accounts[k].(payload := Encrypt(newKey, draws.Iv(k), SecretOf(f.accounts[k])), updatedAt := now)
    {
      ReencryptedAt(newKey, draws, es, k);
    }
    ResealAccounts(f, newKey, draws, sealed, now);
    var f' := f.(kdf := newKey.params, accounts := sealed);
    HasIdEntries(f.accounts, f.activeId);
    HasIdEntries(sealed, f.activeId);
    KeyOfOk(f', newKey);
  }

  lemma ResealAccounts(f: File, newKey: Key, draws: Draws, sealed: seq<Account>, now: int)
    requires FileOk(f) && |sealed| == |f.accounts|
    requires |draws.ivs| >= |f.accounts| && forall k :: 0 <= k < |draws.ivs| ==> draws.ivs[k] != ""
    requires forall k :: 0 <= k < |sealed| ==>
               sealed[k] == f.accounts[k].(payload := Encrypt(newKey, draws.Iv(k), SecretOf(f.accounts[k])), updatedAt := now)
    ensures AccountsOk(newKey, sealed) && forall k :: 0 <= k < |sealed| ==> ValidAccount(sealed[k])
    ensures EntriesOf(sealed) == EntriesOf(f.accounts) && PlainsOf(sealed) == PlainsOf(f.accounts)
  {
    hide Distinct, ValidKdf, HasId;
    forall k | 0 <= k < |sealed|
      ensures AccountOk(newKey, sealed[k]) && ValidAccount(sealed[k])
      ensures EntryOf(sealed[k]) == EntryOf(f.accounts[k]) && PlainOf(sealed[k]) == PlainOf(f.accounts[k])
    {
    }
  }

  // ---------------------------------------------------------------- sessions

  /** The runtime settings, apart from any session. */
  predicate SettingsOk(rt: Runtime) {
    rt.timeoutMs > 0 && (rt.savedTimeout.Some? ==> rt.savedTimeout.value > 0) && rt.rehydrated
  }

  /** A session that holds a file's entries and active account, touched: the vault is sound and the wallet open. */
  lemma TouchedInv(f: File, rt: Runtime)
    requires FileOk(f) && SettingsOk(rt) && rt.session.Some?
    requires rt.session.value.entries == EntriesOf(f.accounts) && rt.session.value.activeId == f.activeId
    requires rt.session.value.key.Some? ==> rt.session.value.key.value == KeyOf(f)
    ensures var after := World(V2(f), TouchSession(rt));
            && Inv(after) && after.rt.rehydrated
            && Abs(after) == Plain(Some(WalletOf(f)), Some(Open(rt.session.value.key.Some?, rt.now + rt.timeoutMs)),
                                   rt.timeoutMs, rt.savedTimeout, true, rt.now)
  {
    HasIdEntries(f.accounts, f.activeId);
    TouchKeeps(rt);
  }

  /** A session started over a file's entries. */
  lemma StartedInv(f: File, rt: Runtime, key: Key)
    requires FileOk(f) && SettingsOk(rt) && RuntimeOk(rt) && key == KeyOf(f)
    ensures var after := World(V2(f), StartSession(rt, EntriesOf(f.accounts), f.activeId, Some(key)).0);
            && Inv(after) && after.rt.rehydrated
            && Abs(after) == Plain(Some(WalletOf(f)), Some(Open(true, rt.now + rt.timeoutMs)),
                                   rt.timeoutMs, rt.savedTimeout, true, rt.now)
  {
    HasIdEntries(f.accounts, f.activeId);
    CollectedDistinct(EntriesOf(f.accounts));
    assert EntriesOf(f.accounts) != [] by { assert |EntriesOf(f.accounts)| == |f.accounts|; }
    hide HasId, Has, Distinct, AccountsOk, ValidKdf, ValidAccount, WalletOf, KeyOf, EntriesOf, Collected;
    StartKeeps(rt, EntriesOf(f.accounts), f.activeId, Some(key));
    hide RuntimeOk;
  }

  /** No session: any sound file may take the place of the slot. */
  lemma ClosedInv(f: File, rt: Runtime)
    requires FileOk(f) && RuntimeOk(rt) && rt.session.None? && rt.rehydrated
    ensures var after := World(V2(f), rt);
            Inv(after) && Abs(after) == Plain(Some(WalletOf(f)), None, rt.timeoutMs, rt.savedTimeout, true, rt.now)
  {
    hide FileOk, WalletOf, KeyOf, Has, Distinct;
  }

  /** What the invariant says of an open session. */
  lemma OpenFacts(w: World)
    requires Inv(w) && w.rt.session.Some?
    ensures w.blob.V2? && SettingsOk(w.rt)
    ensures w.rt.session.value.entries == EntriesOf(w.blob.file.accounts) && w.rt.session.value.activeId == w.blob.file.activeId
    ensures w.rt.session.value.key.Some? ==> w.rt.session.value.key.value == KeyOf(w.blob.file)
  {
    hide SlotOk, EntriesOf, KeyOf, Has, Distinct;
  }

  // ---------------------------------------------------------------- handlers

  /** A sound, awake vault. */
  predicate Ready(w: World) { Inv(w) && w.rt.rehydrated }

  lemma ReadyFacts(w: World)
    requires Ready(w)
    ensures SlotOk(w.blob) && RuntimeOk(w.rt) && SettingsOk(w.rt)
    ensures w.blob.V2? ==> FileOk(w.blob.file) && w.blob.file.accounts != []
    ensures Abs(w).wallet == if w.blob.V2? then Some(WalletOf(w.blob.file)) else None
    ensures w.rt.session.Some? ==> Abs(w).open == Some(Open(w.rt.session.value.key.Some?, w.rt.session.value.lockAt))
    ensures w.rt.session.None? ==> Abs(w).open == None
  {
    LoadOk(w.blob, "");
  }

  lemma RefineCreate(w: World, password: string, chain: Chain, given: NewSecret, draws: Draws)
    requires Ready(w) && Fresh(w, draws) && chain != OtherChain && given.address != Some("")
    ensures Matches(DoCreate(w, password, chain, given, draws), PlainCreate(Abs(w), password, chain, given, draws.id))
  {
    hide Inv, FileOk, RuntimeOk, KeyOf, EntriesOf, StartSession, Abs, Load, StatusOf, StatusFromFile, MakeAccount;
    ReadyFacts(w);
    LoadOk(w.blob, draws.migratedId);
    if |password| >= 8 && given.address.Some? && w.blob.Absent? {
      CreatedInv(w, password, chain, given, draws);
    }
  }

  /** The first account: a file of one account, and a session over it. */
  lemma CreatedInv(w: World, password: string, chain: Chain, given: NewSecret, draws: Draws)
    requires Ready(w) && Fresh(w, draws) && chain != OtherChain && given.address.Some? && given.address.value != ""
    ensures
      var kdf := KdfParams(Pbkdf2, draws.salt);
      var key := Key(password, kdf);
      var a := MakeAccount(draws.id, "Account 1", chain, given.secret, given.address.value, Encrypt(key, draws.Iv(0), given.secret), w.rt.now);
      var f := File(VAULT_FILE_VERSION, draws.id, kdf, [a]);
      var after := World(V2(f), StartSession(w.rt, [Entry(draws.id, given.secret, a.address)], draws.id, Some(key)).0);
      var wallet := Wallet(password, [PlainAccount(draws.id, "Account 1", chain, given.address.value, given.secret)], draws.id);
      && Ready(after) && Abs(after) == Opened(Abs(w).(wallet := Some(wallet)))
      && f.accounts != [] && StatusOf(wallet, false) == StatusFromFile(f, false)
  {
    hide Inv, FileOk, RuntimeOk, ValidAccount, AccountOk, SlotOk, EntriesOf, MakeAccount, StartSession, StatusOf, StatusFromFile, Abs, PlainsOf;
    ReadyFacts(w);
    var kdf := KdfParams(Pbkdf2, draws.salt);
    var key := Key(password, kdf);
    var a := MakeAccount(draws.id, "Account 1", chain, given.secret, given.address.value, Encrypt(key, draws.Iv(0), given.secret), w.rt.now);
    var f := File(VAULT_FILE_VERSION, draws.id, kdf, [a]);
    MadeOk(draws.id, "Account 1", chain, given, key, draws.Iv(0), w.rt.now);
    SingleOk(f, key, a);
    assert PasswordOf(f) == password by { assert KeyOf(f) == key; }
    StartedInv(f, w.rt, key);
    StatusAgrees(f, false);
    AbsParts(w);
  }

  lemma AbsParts(w: World)
    ensures var p := Abs(w);
            p.timeoutMs == w.rt.timeoutMs && p.savedTimeout == w.rt.savedTimeout && p.awake == w.rt.rehydrated && p.now == w.rt.now
  {
  }

  lemma MadeOk(id: string, name: string, chain: Chain, given: NewSecret, key: Key, iv: string, now: int)
    requires given.address.Some? && given.address.value != "" && id != "" && name != "" && iv != "" && chain != OtherChain
    ensures var a := MakeAccount(id, name, chain, given.secret, given.address.value, Encrypt(key, iv, given.secret), now);
            && AccountOk(key, a) && ValidAccount(a)
            && EntryOf(a) == Entry(id, given.secret, given.address.value)
            && PlainOf(a) == PlainAccount(id, name, chain, given.address.value, given.secret)
  {
  }

  /** Using the session's key, or checking the password, as the plain wallet does. */
  lemma RefineKey(w: World, password: Option<string>)
    requires Ready(w) && w.rt.session.Some?
    ensures w.blob.V2? && w.blob.file.accounts != []
    ensures var f := w.blob.file;
            var p := Abs(w);
            var wallet := WalletOf(f);
            var keyed := KeyForAdding(w.rt, f, password);
            && keyed.0 == (if password.None? && p.open.value.hasKey then TouchSession(w.rt) else w.rt)
            && (if password.Some? then
                  if password.value == wallet.password && Active(wallet).secret.WellFormed() then keyed.1 == Ok(KeyOf(f))
                  else keyed.1 == Err(WrongPassword)
                else if p.open.value.hasKey then keyed.1 == Ok(KeyOf(f)) else keyed.1 == Err(WalletLocked))
  {
    ReadyFacts(w);
    OpenFacts(w);
    var f := w.blob.file;
    ActiveAgrees(f);
    assert AccountOk(KeyOf(f), ActiveAccount(f));
    if password.Some? { DecryptExactly(KeyOf(f), ActiveAccount(f), Key(password.value, f.kdf)); }
  }

  lemma TouchReady(w: World)
    requires Ready(w) && w.rt.session.Some?
    ensures Ready(World(w.blob, TouchSession(w.rt))) && Abs(World(w.blob, TouchSession(w.rt))) == Touched(Abs(w))
    ensures TouchSession(w.rt).session.Some? && TouchSession(w.rt).session.value.key == w.rt.session.value.key
  {
    ReadyFacts(w);
    OpenFacts(w);
    TouchedInv(w.blob.file, w.rt);
  }

  /** The accepted case: the account is appended under the key, joins the session and becomes active. */
  lemma AddedInv(w: World, rt: Runtime, name: string, given: NewSecret, draws: Draws)
    requires Ready(w) && Fresh(w, draws) && w.rt.session.Some? && (rt == w.rt || rt == TouchSession(w.rt))
    requires w.blob.V2? && w.blob.file.accounts != []
    requires given.address.Some? && given.address.value != "" && name != ""
    ensures
      var f := w.blob.file;
      var account := MakeAccount(draws.id, name, f.accounts[0].chain, given.secret, given.address.value,
                                 Encrypt(KeyOf(f), draws.Iv(0), given.secret), w.rt.now);
      var file := f.(accounts := f.accounts + [account], activeId := draws.id);
      var added := AddEntry(rt, Entry(draws.id, given.secret, account.address), true);
      var wallet := WalletOf(f);
      var plain := PlainAccount(draws.id, name, wallet.accounts[0].chain, given.address.value, given.secret);
      && FileOk(file) && added.Some? && Ready(World(V2(file), added.value))
      && WalletOf(file) == wallet.(accounts := wallet.accounts + [plain], activeId := draws.id)
      && Abs(World(V2(file), added.value)) == Touched(Abs(w).(wallet := Some(WalletOf(file))))
  {
    ReadyFacts(w);
    OpenFacts(w);
    var f := w.blob.file;
    var a := MakeAccount(draws.id, name, f.accounts[0].chain, given.secret, given.address.value,
                         Encrypt(KeyOf(f), draws.Iv(0), given.secret), w.rt.now);
    assert ValidAccount(f.accounts[0]);
    MadeOk(draws.id, name, f.accounts[0].chain, given, KeyOf(f), draws.Iv(0), w.rt.now);
    AppendOk(f, a);
    var file := f.(accounts := f.accounts + [a], activeId := draws.id);
    var e := Entry(draws.id, given.secret, a.address);
    PutNew(EntriesOf(f.accounts), e);
    assert PlainsOf(f.accounts)[0] == PlainOf(f.accounts[0]);
    var s := rt.session.value;
    var moved := rt.(session := Some(s.(entries := Put(s.entries, e), activeId := draws.id)));
    TouchedInv(file, moved);
    assert WalletOf(file).password == WalletOf(f).password by { assert KeyOf(file) == KeyOf(f); PasswordKept(file, f); }
  }

  lemma PasswordKept(f: File, g: File)
    requires KeyOf(f) == KeyOf(g)
    ensures PasswordOf(f) == PasswordOf(g)
  {
  }

  /** The plain wallet accepts the same way of proving the right to add. */
  predicate MayAdd(p: Plain, password: Option<string>)
    requires p.wallet.Some? && p.wallet.value.accounts != [] && p.open.Some?
  {
    if password.Some? then password.value == p.wallet.value.password && Active(p.wallet.value).secret.WellFormed()
    else p.open.value.hasKey
  }

  lemma AddAccepted(w: World, wanted: Option<string>, password: Option<string>, given: NewSecret, draws: Draws)
    requires Ready(w) && Fresh(w, draws) && given.address.Some? && given.address.value != "" && w.rt.session.Some?
    requires w.blob.V2? && w.blob.file.accounts != [] && KeyForAdding(w.rt, w.blob.file, password).1.Ok?
    ensures Abs(w).wallet.Some? && Abs(w).wallet.value.accounts != [] && Abs(w).open.Some? && MayAdd(Abs(w), password)
    ensures Matches(DoAddAccount(w, wanted, password, given, draws), PlainAdd(Abs(w), wanted, password, given, draws.id))
  {
    hide Inv, FileOk, RuntimeOk, Fresh, SlotOk, KeyOf, EntriesOf, KeyForAdding, TouchSession, AddEntry, StatusOf, StatusFromFile,
      Active, Secret.WellFormed, Load, PlainsOf, MakeAccount, Ascii.Trim, Decimal.PrintNat, Abs, PasswordOf, Touched;
    ReadyFacts(w);
    LoadOk(w.blob, draws.migratedId);
    RefineKey(w, password);
    var f := w.blob.file;
    var name := NameFor(wanted, f.accounts);
    AddedInv(w, KeyForAdding(w.rt, f, password).0, name, given, draws);
    var account := MakeAccount(draws.id, name, f.accounts[0].chain, given.secret, given.address.value,
                               Encrypt(KeyOf(f), draws.Iv(0), given.secret), w.rt.now);
    StatusAgrees(f.(accounts := f.accounts + [account], activeId := draws.id), false);
  }

  lemma RefineAddAccount(w: World, wanted: Option<string>, password: Option<string>, given: NewSecret, draws: Draws)
    requires Ready(w) && Fresh(w, draws) && given.address != Some("")
    ensures Matches(DoAddAccount(w, wanted, password, given, draws), PlainAdd(Abs(w), wanted, password, given, draws.id))
  {
    hide Inv, FileOk, RuntimeOk, Fresh, SlotOk, KeyOf, EntriesOf, KeyForAdding, TouchSession, AddEntry, StatusOf, StatusFromFile,
      Active, Secret.WellFormed, Load, PlainsOf, MakeAccount, Ascii.Trim, Decimal.PrintNat, Abs, PasswordOf;
    ReadyFacts(w);
    LoadOk(w.blob, draws.migratedId);
    if w.rt.session.Some? {
      RefineKey(w, password);
      if KeyForAdding(w.rt, w.blob.file, password).1.Ok? && given.address.Some? {
        AddAccepted(w, wanted, password, given, draws);
      } else {
        TouchReady(w);
      }
    }
  }

  lemma SwitchedInv(w: World, id: string)
    requires Ready(w) && w.blob.V2? && HasId(w.blob.file.accounts, id)
    ensures var file := w.blob.file.(activeId := id);
            var rt := if w.rt.session.None? then Some(w.rt) else SetActive(w.rt, id);
            && FileOk(file) && rt.Some? && Ready(World(V2(file), rt.value))
            && Abs(World(V2(file), rt.value)) == Touched(Abs(w).(wallet := Some(WalletOf(file))))
  {
    hide Inv, RuntimeOk, SlotOk, TouchSession, FileOk, EntriesOf, KeyOf, WalletOf;
    ReadyFacts(w);
    var f := w.blob.file;
    var file := f.(activeId := id);
    HasIdEntries(f.accounts, id);
    SwitchOk(f, id);
    if w.rt.session.Some? {
      OpenFacts(w);
      TouchedInv(file, w.rt.(session := Some(w.rt.session.value.(activeId := id))));
    } else {
      ClosedInv(file, w.rt);
    }
  }

  lemma RefineSwitch(w: World, id: string, draws: Draws)
    requires Ready(w)
    ensures Matches(DoSwitch(w, id, draws), PlainSwitch(Abs(w), id))
  {
    hide Inv, FileOk, RuntimeOk, SlotOk, KeyOf, EntriesOf, TouchSession, StatusOf, StatusFromFile, Load, PlainsOf, Has, HasId, Known,
      PasswordOf, Abs, SetActive;
    ReadyFacts(w);
    LoadOk(w.blob, draws.migratedId);
    if w.blob.V2? {
      var f := w.blob.file;
      HasIdEntries(f.accounts, id);
      if HasId(f.accounts, id) {
        var file := f.(activeId := id);
        SwitchedInv(w, id);
        SwitchOk(f, id);
        PasswordKept(file, f);
        StatusAgrees(file, w.rt.session.None?);
      }
    }
  }

  /** A saved file whose entries and active account are those of the session leaves the session as it is. */
  lemma SameEntriesInv(w: World, file: File)
    requires Ready(w) && w.blob.V2? && FileOk(file) && KeyOf(file) == KeyOf(w.blob.file)
    requires EntriesOf(file.accounts) == EntriesOf(w.blob.file.accounts) && file.activeId == w.blob.file.activeId
    ensures Ready(World(V2(file), w.rt)) && Abs(World(V2(file), w.rt)) == Abs(w).(wallet := Some(WalletOf(file)))
  {
    hide FileOk, RuntimeOk, EntriesOf, KeyOf;
  }

  lemma RefineRename(w: World, id: string, wantedName: string, draws: Draws)
    requires Ready(w)
    ensures Matches(DoRename(w, id, wantedName, draws), PlainRename(Abs(w), id, wantedName))
  {
    ReadyFacts(w);
    LoadOk(w.blob, draws.migratedId);
    var name := Ascii.Trim(wantedName);
    if w.blob.V2? && name != "" {
      var f := w.blob.file;
      HasIdEntries(f.accounts, id);
      if HasId(f.accounts, id) {
        RenameOk(f, id, name, w.rt.now);
        var file := f.(accounts := Renamed(f.accounts, id, name, w.rt.now));
        PasswordKept(file, f);
        SameEntriesInv(w, file);
        StatusAgrees(file, w.rt.session.None?);
      }
    }
  }

  lemma RefineRemove(w: World, id: string, draws: Draws)
    requires Ready(w)
    ensures Matches(DoRemove(w, id, draws), PlainRemove(Abs(w), id))
  {
    ReadyFacts(w);
    LoadOk(w.blob, draws.migratedId);
    if w.blob.V2? {
      var f := w.blob.file;
      HasIdEntries(f.accounts, id);
      if HasId(f.accounts, id) && |f.accounts| >= 2 {
        RemoveOk(f, id);
        var rest := WithoutId(f.accounts, id);
        var file := f.(accounts := rest, activeId := if f.activeId == id then rest[0].id else f.activeId);
        PasswordKept(file, f);
        assert PlainsOf(rest)[0].id == rest[0].id;
        RemovedInv(w, id, file);
        StatusAgrees(file, w.rt.session.None?);
      } else if HasId(f.accounts, id) {
        OnlyAccount(f.accounts, id);
      }
    }
  }

  lemma OnlyAccount(accounts: seq<Account>, id: string)
    requires |accounts| <= 1 && HasId(accounts, id)
    ensures Forget(PlainsOf(accounts), id) == []
  {
    assert PlainsOf(accounts)[0].id == id;
    assert PlainsOf(accounts)[1..] == [];
  }

  lemma RemovedInv(w: World, id: string, file: File)
    requires Ready(w) && w.blob.V2? && FileOk(file) && KeyOf(file) == KeyOf(w.blob.file)
    requires EntriesOf(file.accounts) == Drop(EntriesOf(w.blob.file.accounts), id)
    requires w.blob.file.activeId != id ==> file.activeId == w.blob.file.activeId
    ensures var after := World(V2(file), RemoveEntry(w.rt, id, file.activeId));
            Ready(after) && Abs(after) == Touched(Abs(w).(wallet := Some(WalletOf(file))))
  {
    hide Inv, RuntimeOk, SlotOk, TouchSession, FileOk, EntriesOf, KeyOf, Drop, WalletOf;
    ReadyFacts(w);
    if w.rt.session.Some? {
      OpenFacts(w);
      var s := w.rt.session.value;
      TouchedInv(file, w.rt.(session := Some(s.(entries := Drop(s.entries, id), activeId := file.activeId))));
    } else {
      ClosedInv(file, w.rt);
    }
  }

  lemma UnlockedInv(w: World, key: Key)
    requires Ready(w) && w.blob.V2? && key == KeyOf(w.blob.file)
    ensures var f := w.blob.file;
            var after := World(w.blob, StartSession(w.rt, EntriesOf(f.accounts), f.activeId, Some(key)).0);
            Ready(after) && Abs(after) == Opened(Abs(w))
  {
    ReadyFacts(w);
    StartedInv(w.blob.file, w.rt, key);
  }

  lemma RefineUnlock(w: World, password: string, draws: Draws)
    requires Ready(w)
    ensures Matches(DoUnlock(w, password, draws), PlainUnlock(Abs(w), password))
  {
    hide Inv, FileOk, RuntimeOk, SlotOk, KeyOf, EntriesOf, TouchSession, StatusOf, StatusFromFile, Load, PlainsOf, Has, HasId, PasswordOf, Abs, StartSession, DecryptAll, AllReadable, Secret.WellFormed, AccountsOk;
    ReadyFacts(w);
    LoadOk(w.blob, draws.migratedId);
    if w.blob.V2? {
      var f := w.blob.file;
      OpeningAgrees(f, password);
      StatusAgrees(f, false);
      UnlockedInv(w, KeyOf(f));
    }
  }

  /** Opening a sound file with a password. */
  lemma OpeningAgrees(f: File, password: string)
    requires FileOk(f)
    ensures var tried := DecryptAll(Key(password, f.kdf), f.accounts);
            && (tried.Some? <==> password == PasswordOf(f) && AllReadable(WalletOf(f)))
            && (tried.Some? ==> tried.value == EntriesOf(f.accounts) && Key(password, f.kdf) == KeyOf(f))
  {
    DecryptAllExactly(KeyOf(f), f.accounts, Key(password, f.kdf));
    ReadableAgrees(f);
  }

  lemma RefineChangePassword(w: World, current: string, next: string, draws: Draws)
    requires Ready(w) && Fresh(w, draws)
    ensures Matches(DoChangePassword(w, current, next, draws), PlainChangePassword(Abs(w), current, next))
  {
    hide Inv, FileOk, RuntimeOk, SlotOk, KeyOf, EntriesOf, TouchSession, StatusOf, StatusFromFile, Load, PlainsOf, Has, HasId, PasswordOf, Abs, StartSession, DecryptAll, AllReadable, Secret.WellFormed, AccountsOk, Resealed, Reencrypted;
    ReadyFacts(w);
    LoadOk(w.blob, draws.migratedId);
    if w.blob.V2? {
      OpeningAgrees(w.blob.file, current);
      if |next| >= 8 && DecryptAll(Key(current, w.blob.file.kdf), w.blob.file.accounts).Some? {
        ChangedInv(w, next, draws);
        var f := w.blob.file;
        var newKey := Key(next, KdfParams(Pbkdf2, draws.salt));
        StatusAgrees(f.(kdf := newKey.params, accounts := Resealed(f.accounts, Reencrypted(newKey, draws, EntriesOf(f.accounts)), w.rt.now)),
                     w.rt.session.None?);
      }
    }
  }

  /** The re-encrypted file and the rebuilt session stand for the same wallet under the new password. */
  lemma ChangedInv(w: World, next: string, draws: Draws)
    requires Ready(w) && w.blob.V2? && Fresh(w, draws)
    ensures
      var f := w.blob.file;
      var newKey := Key(next, KdfParams(Pbkdf2, draws.salt));
      var file := f.(kdf := newKey.params, accounts := Resealed(f.accounts, Reencrypted(newKey, draws, EntriesOf(f.accounts)), w.rt.now));
      var rt := if w.rt.session.None? then w.rt
                else StartSession(w.rt, EntriesOf(f.accounts), w.rt.session.value.activeId, Some(newKey)).0;
      var p := Abs(w).(wallet := Some(WalletOf(file)));
      && FileOk(file) && WalletOf(file) == WalletOf(f).(password := next)
      && Ready(World(V2(file), rt))
      && Abs(World(V2(file), rt)) == (if w.rt.session.None? then p else Opened(p))
  {
    hide Resealed, Reencrypted, Has, HasId, EntriesOf, AccountsOk, ValidFile, Distinct;
    ReadyFacts(w);
    var f := w.blob.file;
    var newKey := Key(next, KdfParams(Pbkdf2, draws.salt));
    ResealOk(f, newKey, draws, w.rt.now);
    var file := f.(kdf := newKey.params, accounts := Resealed(f.accounts, Reencrypted(newKey, draws, EntriesOf(f.accounts)), w.rt.now));
    assert PasswordOf(file) == next by { assert KeyOf(file) == newKey; }
    if w.rt.session.Some? {
      OpenFacts(w);
      StartedInv(file, w.rt, newKey);
    } else {
      ClosedInv(file, w.rt);
    }
  }

  lemma RefineReveal(w: World, password: string, draws: Draws)
    requires Ready(w)
    ensures Matches(DoReveal(w, password, draws), PlainReveal(Abs(w), password))
    ensures Matches(DoSignKey(w, password, draws), PlainSignKey(Abs(w), password))
  {
    hide Inv, FileOk, RuntimeOk, SlotOk, KeyOf, EntriesOf, TouchSession, StatusOf, StatusFromFile, Load, PlainsOf, Has, HasId, PasswordOf, Abs, Decrypt, Active, ActiveAccount, Secret.WellFormed;
    ReadyFacts(w);
    LoadOk(w.blob, draws.migratedId);
    if w.blob.V2? { ActiveOpens(w.blob.file, password); }
  }

  lemma ActiveOpens(f: File, password: string)
    requires FileOk(f) && f.accounts != []
    ensures var secret := Active(WalletOf(f)).secret;
            var unsealed := Decrypt(Key(password, f.kdf), ActiveAccount(f).payload);
            && (unsealed.Some? <==> password == PasswordOf(f) && secret.WellFormed())
            && (unsealed.Some? ==> unsealed.value == secret)
            && ActiveAccount(f).watchOnly == secret.WatchOnly?
  {
    ActiveAgrees(f);
    assert AccountOk(KeyOf(f), ActiveAccount(f));
    DecryptExactly(KeyOf(f), ActiveAccount(f), Key(password, f.kdf));
  }

  lemma {:induction false} GetAgrees(accounts: seq<Account>, id: string)
    ensures Get(EntriesOf(accounts), id) == match FindAccount(accounts, id) case None => None case Some(a) => Some(EntryOf(a))
  {
    if accounts != [] {
      assert EntriesOf(accounts)[1..] == EntriesOf(accounts[1..]);
      GetAgrees(accounts[1..], id);
    }
  }

  lemma RefineExport(w: World)
    requires Ready(w)
    ensures Matches(DoExport(w), PlainExport(Abs(w)))
  {
    hide Inv, FileOk, RuntimeOk, SlotOk, KeyOf, EntriesOf, TouchSession, StatusOf, StatusFromFile, Load, PlainsOf, Has, HasId, PasswordOf, Abs, Get, Active, ActiveAccount;
    ReadyFacts(w);
    if w.rt.session.Some? {
      OpenFacts(w);
      TouchReady(w);
      ActiveEntry(w.blob.file);
    }
  }

  lemma ActiveEntry(f: File)
    requires FileOk(f) && f.accounts != []
    ensures Get(EntriesOf(f.accounts), f.activeId).Some?
    ensures Get(EntriesOf(f.accounts), f.activeId).value.secret == Active(WalletOf(f)).secret
  {
    GetAgrees(f.accounts, f.activeId);
    ActiveAgrees(f);
  }

  lemma RefineStatus(w: World, draws: Draws)
    requires Ready(w)
    ensures Matches(DoGetStatus(w, draws), PlainStatus(Abs(w)))
  {
    hide Inv, FileOk, RuntimeOk, SlotOk, KeyOf, EntriesOf, TouchSession, StatusOf, StatusFromFile, Load, PlainsOf, Has, HasId, PasswordOf, Abs;
    ReadyFacts(w);
    LoadOk(w.blob, draws.migratedId);
    if w.blob.V2? { StatusAgrees(w.blob.file, w.rt.session.None?); }
  }

  lemma TimeoutReady(w: World, ms: int)
    requires Ready(w) && ms > 0
    ensures var after := World(w.blob, TouchSession(w.rt.(timeoutMs := ms)).(savedTimeout := Some(ms)));
            Ready(after) && Abs(after) == Touched(Abs(w).(timeoutMs := ms)).(savedTimeout := Some(ms))
  {
    ReadyFacts(w);
    TimeoutKeeps(w.rt, ms);
  }

  lemma RefineSetTimeout(w: World, ms: int, draws: Draws)
    requires Ready(w)
    ensures Matches(DoSetTimeout(w, ms, draws), PlainSetTimeout(Abs(w), ms))
  {
    hide Inv, FileOk, RuntimeOk, SlotOk, KeyOf, EntriesOf, TouchSession, StatusOf, StatusFromFile, Load, PlainsOf, Has, HasId, PasswordOf, Abs, DoGetStatus;
    ReadyFacts(w);
    if ms > 0 {
      TimeoutReady(w, ms);
      RefineStatus(World(w.blob, TouchSession(w.rt.(timeoutMs := ms)).(savedTimeout := Some(ms))), draws);
    }
  }

  lemma RefineLock(w: World)
    requires Ready(w)
    ensures Matches(DoLock(w), (Locked(Abs(w)), StatusIs(Status(true, true, None))))
    ensures Matches(DoDelete(w), (Locked(Abs(w)).(wallet := None), StatusIs(Status(false, true, None))))
  {
    hide FileOk, Has, Distinct, KeyOf, EntriesOf, WalletOf;
  }

  /** Each handler, on any sound and awake vault, for any usable draws. */
  lemma RefineHandle(w: World, op: Op, draws: Draws)
    requires Ready(w) && Fresh(w, draws) && Sensible(op)
    ensures Matches(Handle(w, op, draws), PlainHandle(Abs(w), op, draws.id))
  {
    hide Inv, FileOk, RuntimeOk, SlotOk, KeyOf, EntriesOf, Matches, Abs, Fresh, Ready, DoCreate, DoAddAccount, DoSwitch, DoRename,
      DoRemove, DoUnlock, DoChangePassword, DoReveal, DoSignKey, DoExport, DoGetStatus, DoSetTimeout, DoLock, DoDelete,
      PlainCreate, PlainAdd, PlainSwitch, PlainRename, PlainRemove, PlainUnlock, PlainChangePassword, PlainReveal, PlainSignKey,
      PlainExport, PlainStatus, PlainSetTimeout;
    ReadyFacts(w);
    match op
    case Create(password, chain, given) => RefineCreate(w, password, chain, given, draws);
    case AddAccount(wanted, password, given) => RefineAddAccount(w, wanted, password, given, draws);
    case Switch(id) => RefineSwitch(w, id, draws);
    case Rename(id, wantedName) => RefineRename(w, id, wantedName, draws);
    case Remove(id) => RefineRemove(w, id, draws);
    case Unlock(password) => RefineUnlock(w, password, draws);
    case Lock => RefineLock(w);
    case Delete => RefineLock(w);
    case ChangePassword(current, next) => RefineChangePassword(w, current, next, draws);
    case Reveal(password) => RefineReveal(w, password, draws);
    case SignKey(password) => RefineReveal(w, password, draws);
    case Export => RefineExport(w);
    case GetStatus => RefineStatus(w, draws);
    case SetTimeout(ms) => RefineSetTimeout(w, ms, draws);
  }
}
