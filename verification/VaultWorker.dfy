/**
  * The storage slot and the vault operations as manager.ts performs them: loading, mutating
  * and saving the slot in place and calling the session functions one after the other. Each
  * is proved to do what the step functions of `Manager` say.
  */
module VaultWorker {
  import opened Wrappers
  import opened VaultTypes
  import opened VaultStorage
  import opened SessionRules
  import opened Manager
  import opened MutationQueue
  import opened SessionVars
  import Ascii

  class Storage {
    var blob: Blob

    method LoadVaultFile(id: string) returns (r: Option<Option<File>>)
      modifies this
      ensures Loaded(r, blob) == Load(old(blob), id)
    {
      if blob.Absent? {
        return Some(None);
      }
      if blob.V1? {
        if !ValidRecord(blob.record) {
          return None;
        }
        var file := MigrateRecordToFile(blob.record, id);
        SaveVaultFile(file);
        return Some(Some(file));
      }
      if blob.V2? && ValidFile(blob.file) {
        return Some(Some(blob.file));
      }
      r := None;
    }

    method SaveVaultFile(file: File)
      modifies this
      ensures blob == V2(file)
    {
      blob := V2(file);
    }

    method DeleteVault()
      modifies this
      ensures blob == Absent
    {
      blob := Absent;
    }

    /** One queued mutation that no other one interrupts. */
    method UpdateVaultAtomic(mutate: Mutation, id: string) returns (r: Outcome)
      modifies this
      ensures (blob, r) == Alone(old(blob), mutate, id, NoFault)
    {
      hide Load;
      var current := LoadVaultFile(id);
      if current.None? {
        return Rejected(CorruptVault);
      }
      var next := mutate(current.value);
      if next.Err? {
        return Rejected(next.error);
      }
      if next.value.None? {
        DeleteVault();
        return Resolved(None);
      }
      SaveVaultFile(next.value.value);
      r := Resolved(next.value);
    }
  }

  // ---------------------------------------------------------------- the mutations

  function Adding(account: Account): Mutation {
    (cur: Option<File>) =>
      if cur.None? then Err(NoVault)
      else Ok(Some(cur.value.(accounts := cur.value.accounts + [account], activeId := account.id)))
  }

  function Switching(id: string): Mutation {
    (cur: Option<File>) =>
      if cur.None? then Err(NoVault)
      else if !HasId(cur.value.accounts, id) then Err(NoSuchAccount)
      else Ok(Some(cur.value.(activeId := id)))
  }

  function Renaming(id: string, name: string, now: int): Mutation {
    (cur: Option<File>) =>
      if cur.None? then Err(NoVault)
      else if !HasId(cur.value.accounts, id) then Err(NoSuchAccount)
      else Ok(Some(cur.value.(accounts := Renamed(cur.value.accounts, id, name, now))))
  }

  function Removing(id: string): Mutation {
    (cur: Option<File>) =>
      if cur.None? then Err(NoVault)
      else
        var remaining := WithoutId(cur.value.accounts, id);
        if remaining == [] then Err(LastAccount)
        else Ok(Some(cur.value.(accounts := remaining,
                                activeId := if cur.value.activeId == id then remaining[0].id else cur.value.activeId)))
  }

  function Resealing(kdf: KdfParams, payloads: map<string, Payload>, now: int): Mutation {
    (cur: Option<File>) =>
      if cur.None? then Err(NoVault)
      else Ok(Some(cur.value.(kdf := kdf, accounts := Resealed(cur.value.accounts, payloads, now))))
  }

  /** A load leaves a slot that the next load returns as it is. */
  lemma LoadTwice(blob: Blob, id: string)
    requires id != "" && Load(blob, id).result.Some?
    ensures Load(Load(blob, id).blob, id) == Load(blob, id)
    ensures Load(blob, id).result.value.Some? ==> Load(blob, id).result.value.value.accounts != []
  {
    if blob.V1? && ValidRecord(blob.record) { MigrationLossless(blob.record, id, id, ""); }
  }

  class VaultManager {
    const storage: Storage
    const vars: Variables

    constructor (storage: Storage, vars: Variables)
      ensures this.storage == storage && this.vars == vars
    {
      this.storage, this.vars := storage, vars;
    }

    function State(): World
      reads storage, vars
    {
      World(storage.blob, vars.State())
    }

    method CreateFirstAccount(password: string, chain: Chain, given: NewSecret, draws: Draws) returns (r: Answer)
      modifies storage, vars
      ensures (State(), r) == DoCreate(old(State()), password, chain, given, draws)
    {
      hide Load, StartSession, StatusFromFile;
      if |password| < 8 {
        return Failed(WeakPassphrase);
      }
      if given.address.None? {
        return Failed(InvalidKey);
      }
      var existing := storage.LoadVaultFile(draws.migratedId);
      if existing.None? {
        return Failed(CorruptVault);
      }
      if existing.value.Some? {
        return Failed(VaultExists);
      }
      var kdfParams := KdfParams(Pbkdf2, draws.salt);
      var key := Key(password, kdfParams);
      var payload := Encrypt(key, draws.Iv(0), given.secret);
      var account := MakeAccount(draws.id, "Account 1", chain, given.secret, given.address.value, payload, vars.now);
      var file := File(VAULT_FILE_VERSION, draws.id, kdfParams, [account]);
      storage.SaveVaultFile(file);
      var ok := vars.StartSession([Entry(draws.id, given.secret, account.address)], draws.id, Some(key));
      r := Done(StatusFromFile(file, false), given);
    }

    method AddAccount(wanted: Option<string>, password: Option<string>, given: NewSecret, draws: Draws) returns (r: Answer)
      requires draws.migratedId != ""
      modifies storage, vars
      ensures (State(), r) == DoAddAccount(old(State()), wanted, password, given, draws)
    {
      hide Load, StatusFromFile, ActiveAccount, Put, Decrypt;
      if vars.session.None? {
        return Failed(WalletLocked);
      }
      var loaded := storage.LoadVaultFile(draws.migratedId);
      if loaded.None? {
        return Failed(CorruptVault);
      }
      if loaded.value.None? {
        return Failed(NoVault);
      }
      LoadTwice(old(storage.blob), draws.migratedId);
      var file := loaded.value.value;
      var key: Key;
      if password.Some? {
        key := Key(password.value, file.kdf);
        if Decrypt(key, ActiveAccount(file).payload).None? {
          return Failed(WrongPassword);
        }
      } else {
        var sessionKey := vars.RequireKey();
        if sessionKey.None? {
          return Failed(WalletLocked);
        }
        key := sessionKey.value;
      }
      if given.address.None? {
        return Failed(InvalidKey);
      }
      var payload := Encrypt(key, draws.Iv(0), given.secret);
      var account := MakeAccount(draws.id, NameFor(wanted, file.accounts), file.accounts[0].chain, given.secret,
                                 given.address.value, payload, vars.now);
      var updated := storage.UpdateVaultAtomic(Adding(account), draws.migratedId);
      var ok := vars.AddSessionAccount(Entry(draws.id, given.secret, account.address), true);
      r := Done(StatusFromFile(updated.next.value, false), given);
    }

    method SwitchAccount(id: string, draws: Draws) returns (r: Answer)
      requires draws.migratedId != ""
      modifies storage, vars
      ensures (State(), r) == DoSwitch(old(State()), id, draws)
    {
      hide Load, StatusFromFile, HasId;
      var loaded := storage.LoadVaultFile(draws.migratedId);
      if loaded.None? {
        return Failed(CorruptVault);
      }
      if loaded.value.None? {
        return Failed(NoVault);
      }
      LoadTwice(old(storage.blob), draws.migratedId);
      if !HasId(loaded.value.value.accounts, id) {
        return Failed(NoSuchAccount);
      }
      var updated := storage.UpdateVaultAtomic(Switching(id), draws.migratedId);
      if vars.session.Some? {
        var ok := vars.SetActiveAccount(id);
        if !ok {
          return Failed(NotInSession);
        }
      }
      r := StatusIs(StatusFromFile(updated.next.value, vars.session.None?));
    }

    method RenameAccount(id: string, wantedName: string, draws: Draws) returns (r: Answer)
      requires draws.migratedId != ""
      modifies storage
      ensures (State(), r) == DoRename(old(State()), id, wantedName, draws)
    {
      hide Load, StatusFromFile, HasId, Ascii.Trim;
      var trimmed := Ascii.Trim(wantedName);
      if trimmed == "" {
        return Failed(EmptyName);
      }
      if Load(storage.blob, draws.migratedId).result.Some? { LoadTwice(storage.blob, draws.migratedId); }
      var updated := storage.UpdateVaultAtomic(Renaming(id, trimmed, vars.now), draws.migratedId);
      if updated.Rejected? {
        return Failed(updated.error);
      }
      r := StatusIs(StatusFromFile(updated.next.value, vars.session.None?));
    }

    method RemoveAccount(id: string, draws: Draws) returns (r: Answer)
      requires draws.migratedId != ""
      modifies storage, vars
      ensures (State(), r) == DoRemove(old(State()), id, draws)
    {
      hide Load, StatusFromFile, HasId, WithoutId, Drop;
      var loaded := storage.LoadVaultFile(draws.migratedId);
      if loaded.None? {
        return Failed(CorruptVault);
      }
      if loaded.value.None? {
        return Failed(NoVault);
      }
      LoadTwice(old(storage.blob), draws.migratedId);
      if !HasId(loaded.value.value.accounts, id) {
        return Failed(NoSuchAccount);
      }
      if |loaded.value.value.accounts| <= 1 {
        return Failed(LastAccount);
      }
      var updated := storage.UpdateVaultAtomic(Removing(id), draws.migratedId);
      if updated.Rejected? {
        return Failed(updated.error);
      }
      var nextActiveId := updated.next.value.activeId;
      if vars.session.Some? {
        vars.RemoveSessionAccount(id, nextActiveId);
      }
      r := StatusIs(StatusFromFile(updated.next.value, vars.session.None?));
    }

    method DecryptEvery(key: Key, accounts: seq<Account>) returns (r: Option<seq<Entry>>)
      ensures r == DecryptAll(key, accounts)
    {
      hide Decrypt;
      var entries: seq<Entry> := [];
      for k := 0 to |accounts|
        invariant DecryptAll(key, accounts[..k]) == Some(entries)
      {
        assert accounts[..k + 1][..k] == accounts[..k];
        var a := accounts[k];
        var secret := Decrypt(key, a.payload);
        if secret.None? {
          DecryptStops(key, accounts, k + 1);
          return None;
        }
        entries := entries + [Entry(a.id, secret.value, a.address)];
      }
      assert accounts[..|accounts|] == accounts;
      r := Some(entries);
    }

    method Unlock(password: string, draws: Draws) returns (r: Answer)
      modifies storage, vars
      ensures (State(), r) == DoUnlock(old(State()), password, draws)
    {
      hide Load, StatusFromFile, DecryptAll, StartSession;
      var loaded := storage.LoadVaultFile(draws.migratedId);
      if loaded.None? {
        return Failed(CorruptVault);
      }
      if loaded.value.None? {
        return Failed(NoVault);
      }
      var file := loaded.value.value;
      var key := Key(password, file.kdf);
      var accounts := DecryptEvery(key, file.accounts);
      if accounts.None? {
        return Failed(WrongPassword);
      }
      LoadedHasAccounts(old(storage.blob), draws.migratedId);
      var ok := vars.StartSession(accounts.value, file.activeId, Some(key));
      r := StatusIs(StatusFromFile(file, false));
    }

    method ChangePassword(current: string, next: string, draws: Draws) returns (r: Answer)
      requires draws.migratedId != ""
      modifies storage, vars
      ensures (State(), r) == DoChangePassword(old(State()), current, next, draws)
    {
      hide Load, StatusFromFile, DecryptAll, Resealed, Collected;
      if |next| < 8 {
        return Failed(WeakPassphrase);
      }
      var loaded := storage.LoadVaultFile(draws.migratedId);
      if loaded.None? {
        return Failed(CorruptVault);
      }
      if loaded.value.None? {
        return Failed(NoVault);
      }
      LoadTwice(old(storage.blob), draws.migratedId);
      var file := loaded.value.value;
      var decrypted := DecryptEvery(Key(current, file.kdf), file.accounts);
      if decrypted.None? {
        return Failed(WrongPassword);
      }
      var kdfParams := KdfParams(Pbkdf2, draws.salt);
      var newKey := Key(next, kdfParams);
      var reencrypted := EncryptEvery(newKey, decrypted.value, draws);
      var updated := storage.UpdateVaultAtomic(Resealing(kdfParams, reencrypted, vars.now), draws.migratedId);
      if vars.session.Some? {
        var ok := vars.StartSession(decrypted.value, vars.session.value.activeId, Some(newKey));
      }
      r := StatusIs(StatusFromFile(updated.next.value, vars.session.None?));
    }

    method EncryptEvery(key: Key, entries: seq<Entry>, draws: Draws) returns (payloads: map<string, Payload>)
      ensures payloads == Reencrypted(key, draws, entries)
    {
      payloads := map[];
      for k := 0 to |entries|
        invariant payloads == Reencrypted(key, draws, entries[..k])
      {
        assert entries[..k + 1][..k] == entries[..k];
        payloads := payloads[entries[k].id := Encrypt(key, draws.Iv(k), entries[k].secret)];
      }
      assert entries[..|entries|] == entries;
    }

    method RevealSecretWithPassword(password: string, draws: Draws) returns (r: Answer)
      modifies storage
      ensures (State(), r) == DoReveal(old(State()), password, draws)
    {
      hide Load, ActiveAccount, Decrypt;
      var loaded := storage.LoadVaultFile(draws.migratedId);
      if loaded.None? {
        return Failed(CorruptVault);
      }
      if loaded.value.None? {
        return Failed(NoVault);
      }
      LoadedHasAccounts(old(storage.blob), draws.migratedId);
      var file := loaded.value.value;
      var secret := Decrypt(Key(password, file.kdf), ActiveAccount(file).payload);
      r := if secret.None? then Failed(WrongPassword) else Text(secret.value.Backup());
    }

    /** `signDraft` up to the signer. */
    method SigningSecret(password: string, draws: Draws) returns (r: Answer)
      modifies storage
      ensures (State(), r) == DoSignKey(old(State()), password, draws)
    {
      hide Load, ActiveAccount, Decrypt;
      var loaded := storage.LoadVaultFile(draws.migratedId);
      if loaded.None? {
        return Failed(CorruptVault);
      }
      if loaded.value.None? {
        return Failed(NoVault);
      }
      LoadedHasAccounts(old(storage.blob), draws.migratedId);
      var file := loaded.value.value;
      var account := ActiveAccount(file);
      if account.watchOnly {
        return Failed(WatchOnlyAccount);
      }
      var secret := Decrypt(Key(password, file.kdf), account.payload);
      if secret.None? {
        return Failed(WrongPassword);
      }
      r := if secret.value.WatchOnly? then Failed(WatchOnlyAccount) else Plaintext(secret.value);
    }

    method ExportSecret() returns (r: Answer)
      modifies vars
      ensures (State(), r) == DoExport(old(State()))
    {
      hide Get, SessionRules.TouchSession;
      if vars.session.None? {
        return Failed(WalletLocked);
      }
      var secret := vars.RequireSecret();
      r := if secret.None? then Failed(NotInSession) else Plaintext(secret.value);
    }

    method GetStatus(draws: Draws) returns (r: Answer)
      modifies storage
      ensures (State(), r) == DoGetStatus(old(State()), draws)
    {
      hide Load, StatusFromFile;
      var loaded := storage.LoadVaultFile(draws.migratedId);
      if loaded.None? {
        return Failed(CorruptVault);
      }
      if loaded.value.None? {
        return StatusIs(Status(false, true, None));
      }
      LoadedHasAccounts(old(storage.blob), draws.migratedId);
      r := StatusIs(StatusFromFile(loaded.value.value, vars.session.None?));
    }

    method SetTimeoutAndReport(ms: int, draws: Draws) returns (r: Answer)
      modifies storage, vars
      ensures (State(), r) == DoSetTimeout(old(State()), ms, draws)
    {
      hide Load, StatusFromFile, SessionRules.TouchSession;
      var ok := vars.SetAndPersistLockTimeout(ms);
      if !ok {
        return Failed(BadTimeout);
      }
      r := GetStatus(draws);
    }

    method LockVault() returns (r: Answer)
      modifies vars
      ensures (State(), r) == DoLock(old(State()))
    {
      vars.Lock();
      r := StatusIs(Status(true, true, None));
    }

    method DeleteVault() returns (r: Answer)
      modifies storage, vars
      ensures (State(), r) == DoDelete(old(State()))
    {
      vars.Lock();
      storage.DeleteVault();
      r := StatusIs(Status(false, true, None));
    }

    /** The dispatcher: restore the session, then the one handler. */
    method HandleMessage(op: Op, draws: Draws) returns (r: Answer)
      requires draws.migratedId != ""
      modifies storage, vars
      ensures (State(), r) == Manager.HandleMessage(old(State()), op, draws)
    {
      hide DoCreate, DoAddAccount, DoSwitch, DoRename, DoRemove, DoUnlock, DoLock, DoDelete, DoChangePassword, DoReveal, DoSignKey,
        DoExport, DoGetStatus, DoSetTimeout, SessionRules.EnsureRehydrated;
      vars.EnsureRehydrated();
      match op
      case Create(password, chain, given) => r := CreateFirstAccount(password, chain, given, draws);
      case AddAccount(wanted, password, given) => r := AddAccount(wanted, password, given, draws);
      case Switch(id) => r := SwitchAccount(id, draws);
      case Rename(id, wantedName) => r := RenameAccount(id, wantedName, draws);
      case Remove(id) => r := RemoveAccount(id, draws);
      case Unlock(password) => r := Unlock(password, draws);
      case Lock => r := LockVault();
      case Delete => r := DeleteVault();
      case ChangePassword(current, next) => r := ChangePassword(current, next, draws);
      case Reveal(password) => r := RevealSecretWithPassword(password, draws);
      case SignKey(password) => r := SigningSecret(password, draws);
      case Export => r := ExportSecret();
      case GetStatus => r := GetStatus(draws);
      case SetTimeout(ms) => r := SetTimeoutAndReport(ms, draws);
    }
  }

  lemma LoadedHasAccounts(blob: Blob, id: string)
    ensures var r := Load(blob, id).result; r.Some? && r.value.Some? ==> r.value.value.accounts != []
  {
    hide ValidRecord, ValidAccount;
  }

  lemma {:induction false} DecryptStops(key: Key, accounts: seq<Account>, k: nat)
    requires k <= |accounts| && DecryptAll(key, accounts[..k]).None?
    ensures DecryptAll(key, accounts).None?
    decreases |accounts| - k
  {
    if k == |accounts| {
      assert accounts[..k] == accounts;
    } else {
      assert accounts[..k + 1][..k] == accounts[..k];
      DecryptStops(key, accounts, k + 1);
    }
  }
}
