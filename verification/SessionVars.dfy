/**
  * The module variables of session.ts and the functions that update them in place.
  */
module SessionVars {
  import opened Wrappers
  import opened VaultTypes
  import opened SessionRules

  class Variables {
    var session: Option<Session>
    var lockTimer: Option<Timer>
    var timeoutMs: int
    var rehydrated: bool
    /** The injected store: what it holds survives the worker. */
    var storedSession: Option<Persisted>
    var storedTimeout: Option<int>
    /** `Date.now()`. */
    var now: int

    function State(): Runtime
      reads this
    {
      Runtime(session, lockTimer, timeoutMs, storedSession, storedTimeout, rehydrated, now)
    }

    constructor (storedSession: Option<Persisted>, storedTimeout: Option<int>, now: int)
      ensures State() == Runtime(None, None, DEFAULT_LOCK_TIMEOUT_MS, storedSession, storedTimeout, false, now)
    {
      session, lockTimer, timeoutMs, rehydrated := None, None, DEFAULT_LOCK_TIMEOUT_MS, false;
      this.storedSession, this.storedTimeout, this.now := storedSession, storedTimeout, now;
    }

    method ArmTimer()
      modifies this
      ensures State() == SessionRules.ArmTimer(old(State()))
    {
      lockTimer := None;
      if session.None? {
        return;
      }
      var delay := Max(0, session.value.lockAt - now);
      lockTimer := Some(Timer(now, now + delay));
    }

    method PersistCurrent()
      modifies this
      ensures State() == Persist(old(State()))
    {
      if session.None? {
        return;
      }
      var accounts: seq<Entry> := [];
      for k := 0 to |session.value.entries|
        invariant accounts == session.value.entries[..k] && State() == old(State())
      {
        var entry := session.value.entries[k];
        accounts := accounts + [Entry(entry.id, entry.secret, entry.address)];
      }
      assert accounts == session.value.entries;
      storedSession := Some(Persisted(accounts, session.value.activeId, session.value.lockAt));
    }

    method TouchSession()
      modifies this
      ensures State() == SessionRules.TouchSession(old(State()))
    {
      if session.None? {
        return;
      }
      session := Some(session.value.(lockAt := now + timeoutMs));
      ArmTimer();
      PersistCurrent();
    }

    /** The map of the given accounts. */
    static method BuildEntries(accounts: seq<Entry>) returns (entries: seq<Entry>)
      ensures entries == Collected(accounts)
    {
      entries := [];
      for k := 0 to |accounts|
        invariant entries == Collected(accounts[..k])
      {
        assert accounts[..k + 1][..k] == accounts[..k];
        entries := Put(entries, accounts[k]);
      }
      assert accounts[..|accounts|] == accounts;
    }

    method StartSession(accounts: seq<Entry>, activeId: string, key: Option<Key>) returns (ok: bool)
      modifies this
      ensures (State(), ok) == SessionRules.StartSession(old(State()), accounts, activeId, key)
    {
      hide Collected;
      if session.Some? && accounts == [] {
        session := Some(session.value.(entries := ZeroAll(session.value.entries)));
      }
      if accounts == [] {
        return false;
      }
      var entries := BuildEntries(accounts);
      session := Some(Session(entries, ActiveOr(entries, accounts, activeId), key, now + timeoutMs));
      ArmTimer();
      PersistCurrent();
      ok := true;
    }

    method SetActiveAccount(id: string) returns (ok: bool)
      modifies this
      ensures ok <==> SetActive(old(State()), id).Some?
      ensures State() == if ok then SetActive(old(State()), id).value else old(State())
    {
      if session.None? || !Has(session.value.entries, id) {
        return false;
      }
      session := Some(session.value.(activeId := id));
      TouchSession();
      ok := true;
    }

    method AddSessionAccount(account: Entry, makeActive: bool) returns (ok: bool)
      modifies this
      ensures ok <==> AddEntry(old(State()), account, makeActive).Some?
      ensures State() == if ok then AddEntry(old(State()), account, makeActive).value else old(State())
    {
      if session.None? {
        return false;
      }
      session := Some(session.value.(entries := Put(session.value.entries, account)));
      if makeActive {
        session := Some(session.value.(activeId := account.id));
      }
      TouchSession();
      ok := true;
    }

    method RemoveSessionAccount(id: string, fallbackActiveId: string)
      modifies this
      ensures State() == RemoveEntry(old(State()), id, fallbackActiveId)
    {
      if session.None? {
        return;
      }
      session := Some(session.value.(entries := Drop(session.value.entries, id)));
      if session.value.activeId == id {
        session := Some(session.value.(activeId := fallbackActiveId));
      }
      TouchSession();
    }

    method RequireKey() returns (key: Option<Key>)
      modifies this
      ensures (State(), key) == SessionRules.RequireKey(old(State()))
    {
      if session.None? || session.value.key.None? {
        return None;
      }
      TouchSession();
      key := session.value.key;
    }

    method RequireSecret() returns (secret: Option<Secret>)
      modifies this
      ensures (State(), secret) == SessionRules.RequireSecret(old(State()))
    {
      if session.None? {
        return None;
      }
      var entry := Get(session.value.entries, session.value.activeId);
      if entry.None? {
        return None;
      }
      TouchSession();
      secret := Some(entry.value.secret);
    }

    method Lock()
      modifies this
      ensures State() == LockNow(old(State()))
    {
      lockTimer := None;
      if session.Some? {
        session := None;
      }
      storedSession := None;
    }

    method Rehydrate()
      modifies this
      ensures State() == SessionRules.Rehydrate(old(State()))
    {
      hide Collected;
      if session.Some? || storedSession.None? {
        return;
      }
      var persisted := storedSession.value;
      if now >= persisted.expiresAt || persisted.accounts == [] {
        storedSession := None;
        return;
      }
      var entries := BuildEntries(persisted.accounts);
      session := Some(Session(entries, ActiveOr(entries, persisted.accounts, persisted.activeId), None, persisted.expiresAt));
      ArmTimer();
    }

    method EnsureRehydrated()
      modifies this
      ensures State() == SessionRules.EnsureRehydrated(old(State()))
    {
      if !rehydrated {
        Rehydrate();
        rehydrated := true;
      }
    }

    method EnforceLockTimeout()
      modifies this
      ensures State() == SessionRules.EnforceLockTimeout(old(State()))
    {
      EnsureRehydrated();
      if session.Some? && now >= session.value.lockAt {
        Lock();
      }
    }

    /** The callback of the pending timeout. */
    method OnTimer()
      requires lockTimer.Some?
      modifies this
      ensures State() == TimerFires(old(State()))
    {
      lockTimer := None;
      if session.Some? && now >= session.value.lockAt {
        Lock();
      } else if session.Some? {
        ArmTimer();
      }
    }

    method SetAndPersistLockTimeout(ms: int) returns (ok: bool)
      modifies this
      ensures ok <==> SetLockTimeout(old(State()), ms).Some?
      ensures State() == if ok then SetLockTimeout(old(State()), ms).value else old(State())
    {
      if ms <= 0 {
        return false;
      }
      timeoutMs := ms;
      TouchSession();
      storedTimeout := Some(ms);
      ok := true;
    }

    method LoadPersistedLockTimeout()
      modifies this
      ensures State() == SessionRules.LoadPersistedLockTimeout(old(State()))
    {
      if storedTimeout.Some? && storedTimeout.value > 0 {
        timeoutMs := storedTimeout.value;
        TouchSession();
      }
    }
  }
}
