/**
  * Whole runs of the background worker: messages, the clock, the lock timer, the alarm,
  * eviction, respawn and browser start, in any order. Every run is indistinguishable from a
  * run of the plain wallet.
  */
module VaultRuns {
  import opened Wrappers
  import opened VaultTypes
  import opened VaultStorage
  import opened SessionRules
  import opened Manager
  import opened PlainWallet
  import opened VaultInvariant
  import opened VaultRefinement
  import Ascii

  datatype Event =
    | Message(op: Op, draws: Draws)
    | ClockReads(time: int)
    | TimerEvent
    | AlarmEvent
    | Evicted
    | BrowserStarts
    | WorkerStarts(timeoutFirst: bool)

  /** What the event answers, if it is a message. */
  function EventStep(w: World, e: Event): (World, Option<Answer>) {
    match e
    case Message(op, draws) => var r := HandleMessage(w, op, draws); (r.0, Some(r.1))
    case ClockReads(time) => (World(w.blob, w.rt.(now := time)), None)
    case TimerEvent => (if w.rt.timer.Some? then World(w.blob, TimerFires(w.rt)) else w, None)
    case AlarmEvent => (World(w.blob, EnforceLockTimeout(w.rt)), None)
    case Evicted => (World(w.blob, Evict(w.rt)), None)
    case BrowserStarts => (World(w.blob, LockNow(w.rt)), None)
    case WorkerStarts(timeoutFirst) =>
      (if w.rt.rehydrated then w
       else if timeoutFirst then World(w.blob, EnsureRehydrated(LoadPersistedLockTimeout(w.rt)))
       else World(w.blob, LoadPersistedLockTimeout(EnsureRehydrated(w.rt))), None)
  }

  function LockedIfDue(p: Plain): Plain {
    if p.open.Some? && p.now >= p.open.value.lockAt then Locked(p) else p
  }

  function WithSavedTimeout(p: Plain): Plain {
    if p.savedTimeout.Some? then p.(timeoutMs := p.savedTimeout.value) else p
  }

  /** The same event for the plain wallet. */
  function PlainEvent(p: Plain, e: Event): (Plain, Option<Answer>)
    requires p.wallet.Some? ==> p.wallet.value.accounts != []
  {
    match e
    case Message(op, draws) => var r := PlainMessage(p, op, draws.id); (r.0, Some(r.1))
    case ClockReads(time) => (p.(now := time), None)
    case TimerEvent => (if p.awake then LockedIfDue(p) else p, None)
    case AlarmEvent => (LockedIfDue(Woken(p)), None)
    case Evicted =>
      (p.(awake := false, timeoutMs := DEFAULT_LOCK_TIMEOUT_MS,
          open := if p.open.Some? then Some(p.open.value.(hasKey := false)) else None), None)
    case BrowserStarts => (Locked(p), None)
    case WorkerStarts(timeoutFirst) =>
      (if p.awake then p
       else if timeoutFirst then Woken(WithSavedTimeout(p))
       else if p.savedTimeout.Some? then Touched(WithSavedTimeout(Woken(p))) else Woken(p), None)
  }

  /** Waking a worker keeps the invariant and opens the wallet only before its deadline. */
  lemma RefineWake(w: World)
    requires Inv(w)
    ensures Ready(World(w.blob, EnsureRehydrated(w.rt))) && Abs(World(w.blob, EnsureRehydrated(w.rt))) == Woken(Abs(w))
  {
    RehydrateKeeps(w.rt);
    if !w.rt.rehydrated && w.rt.persisted.Some? && w.rt.now < w.rt.persisted.value.expiresAt {
      var p := w.rt.persisted.value;
      CollectedDistinct(p.accounts);
      assert p.accounts != [];
    }
  }

  lemma RefineMessage(w: World, op: Op, draws: Draws)
    requires Inv(w) && Fresh(w, draws) && Sensible(op)
    ensures var r := HandleMessage(w, op, draws);
            var plain := PlainMessage(Abs(w), op, draws.id);
            Inv(r.0) && Abs(r.0) == plain.0 && r.1 == plain.1
  {
    RefineWake(w);
    var woken := World(w.blob, EnsureRehydrated(w.rt));
    ReadyFacts(woken);
    RefineHandle(woken, op, draws);
  }

  lemma AbsNonEmpty(w: World)
    requires Inv(w)
    ensures Abs(w).wallet.Some? ==> Abs(w).wallet.value.accounts != []
  {
    LoadOk(w.blob, "");
  }

  lemma RefineTimer(w: World)
    requires Inv(w) && w.rt.timer.Some?
    ensures var after := World(w.blob, TimerFires(w.rt));
            Inv(after) && w.rt.rehydrated && Abs(after) == LockedIfDue(Abs(w))
  {
    SmallStepKeeps(w.rt, FireTimer);
    assert w.rt.session.Some?;
  }

  lemma RefineAlarm(w: World)
    requires Inv(w)
    ensures var after := World(w.blob, EnforceLockTimeout(w.rt));
            Inv(after) && Abs(after) == LockedIfDue(Woken(Abs(w)))
  {
    RefineWake(w);
    var woken := World(w.blob, EnsureRehydrated(w.rt));
    AlarmKeeps(w.rt);
  }

  lemma RefineEviction(w: World)
    requires Inv(w)
    ensures Inv(World(w.blob, Evict(w.rt)))
    ensures Abs(World(w.blob, Evict(w.rt)))
            == Abs(w).(awake := false, timeoutMs := DEFAULT_LOCK_TIMEOUT_MS,
                       open := if Abs(w).open.Some? then Some(Abs(w).open.value.(hasKey := false)) else None)
  {
    SmallStepKeeps(w.rt, Eviction);
  }

  lemma RefineBrowserStart(w: World)
    requires Inv(w)
    ensures Inv(World(w.blob, LockNow(w.rt))) && Abs(World(w.blob, LockNow(w.rt))) == Locked(Abs(w))
  {
    hide SlotOk, KeyOf, EntriesOf, WalletOf, Distinct, Has;
  }

  lemma RefineClock(w: World, time: int)
    requires Inv(w)
    ensures Inv(World(w.blob, w.rt.(now := time))) && Abs(World(w.blob, w.rt.(now := time))) == Abs(w).(now := time)
  {
    hide SlotOk, KeyOf, EntriesOf, WalletOf, Distinct, Has;
  }

  lemma LoadTimeoutAsleep(w: World)
    requires Inv(w) && !w.rt.rehydrated
    ensures var after := World(w.blob, LoadPersistedLockTimeout(w.rt));
            Inv(after) && !after.rt.rehydrated && Abs(after) == WithSavedTimeout(Abs(w))
  {
    hide SlotOk, KeyOf, EntriesOf, WalletOf, Distinct, Has;
  }

  lemma LoadTimeoutAwake(w: World)
    requires Ready(w)
    ensures var after := World(w.blob, LoadPersistedLockTimeout(w.rt));
            && Inv(after)
            && Abs(after) == (if Abs(w).savedTimeout.Some? then Touched(WithSavedTimeout(Abs(w))) else Abs(w))
  {
    ReadyFacts(w);
    if w.rt.savedTimeout.Some? {
      TimeoutReady(w, w.rt.savedTimeout.value);
    }
    hide SlotOk, KeyOf, EntriesOf, WalletOf, Distinct, Has;
  }

  lemma RefineStart(w: World, timeoutFirst: bool)
    requires Inv(w) && !w.rt.rehydrated
    ensures var after := EventStep(w, WorkerStarts(timeoutFirst)).0;
            Inv(after) && Abs(after) == PlainEvent(Abs(w), WorkerStarts(timeoutFirst)).0
  {
    AbsNonEmpty(w);
    RefineWake(w);
    LoadTimeoutAsleep(w);
    if timeoutFirst {
      RefineWake(World(w.blob, LoadPersistedLockTimeout(w.rt)));
    } else {
      LoadTimeoutAwake(World(w.blob, EnsureRehydrated(w.rt)));
    }
    hide RuntimeOk, SlotOk, KeyOf, EntriesOf, WalletOf, EnsureRehydrated, LoadPersistedLockTimeout;
  }

  /** Any event, on any sound vault. */
  lemma RefineEvent(w: World, e: Event)
    requires Inv(w) && (e.Message? ==> Fresh(w, e.draws) && Sensible(e.op))
    ensures Inv(EventStep(w, e).0)
    ensures Abs(EventStep(w, e).0) == PlainEvent(Abs(w), e).0 && EventStep(w, e).1 == PlainEvent(Abs(w), e).1
  {
    AbsNonEmpty(w);
    match e
    case Message(op, draws) => RefineMessage(w, op, draws);
    case ClockReads(time) => RefineClock(w, time);
    case TimerEvent => if w.rt.timer.Some? { RefineTimer(w); } else { NoTimer(w); }
    case AlarmEvent => RefineAlarm(w);
    case Evicted => RefineEviction(w);
    case BrowserStarts => RefineBrowserStart(w);
    case WorkerStarts(timeoutFirst) => if !w.rt.rehydrated { RefineStart(w, timeoutFirst); }
  }

  lemma NoTimer(w: World)
    requires Inv(w) && w.rt.timer.None?
    ensures Abs(w).awake ==> Abs(w).open.None?
  {
    hide SlotOk, KeyOf, EntriesOf, WalletOf, Distinct, Has;
  }

  // ---------------------------------------------------------------- runs

  /** A run from `w`, with its answers in order. */
  function Run(w: World, events: seq<Event>): (World, seq<Option<Answer>>) {
    if events == [] then (w, [])
    else
      var before := Run(w, events[..|events| - 1]);
      var last := EventStep(before.0, events[|events| - 1]);
      (last.0, before.1 + [last.1])
  }

  /** Every message of the run drew unused ids, and the deriver behaved. */
  predicate UsableRun(w: World, events: seq<Event>) {
    events == []
    || (&& UsableRun(w, events[..|events| - 1])
        && var last := events[|events| - 1];
           last.Message? ==> Fresh(Run(w, events[..|events| - 1]).0, last.draws) && Sensible(last.op))
  }

  predicate NonEmptyWallet(p: Plain) { p.wallet.Some? ==> p.wallet.value.accounts != [] }

  /** The plain wallet's run: None if it ever reached a wallet without accounts. */
  function PlainRun(p: Plain, events: seq<Event>): Option<(Plain, seq<Option<Answer>>)> {
    if events == [] then Some((p, []))
    else
      match PlainRun(p, events[..|events| - 1])
      case None => None
      case Some(before) =>
        if !NonEmptyWallet(before.0) then None
        else
          var last := PlainEvent(before.0, events[|events| - 1]);
          Some((last.0, before.1 + [last.1]))
  }

  /**
    * The main theorem. Over any run from a sound vault, every answer is the plain wallet's
    * answer, the final vault stands for the plain wallet's final state, and the invariant holds.
    */
  lemma {:induction false} RunRefines(w: World, events: seq<Event>)
    requires Inv(w) && UsableRun(w, events)
    ensures var r := Run(w, events);
            Inv(r.0) && PlainRun(Abs(w), events) == Some((Abs(r.0), r.1))
  {
    hide Inv, Abs, EventStep, PlainEvent, Fresh, Sensible;
    if events != [] {
      var init := events[..|events| - 1];
      RunRefines(w, init);
      AbsNonEmpty(Run(w, init).0);
      RefineEvent(Run(w, init).0, events[|events| - 1]);
    }
  }

  /** A newly installed wallet. */
  const INSTALLED: World := World(Absent, FIRST_RUN)

  lemma InstalledSound()
    ensures Inv(INSTALLED)
  {
  }

  // ---------------------------------------------------------------- what the invariant means

  /**
    * One password, all accounts: every payload of the stored file opens under the key of the
    * file's password and its single parameters onto that account's own secret, and under no
    * other password; the account's public flags are those of its secret; the session key,
    * when there is one, is that key.
    */
  lemma OnePassword(w: World, k: nat, tried: string)
    requires Inv(w) && w.blob.V2? && k < |w.blob.file.accounts|
    ensures var f := w.blob.file;
            var unsealed := Decrypt(Key(tried, f.kdf), f.accounts[k].payload);
            && (unsealed.Some? <==> tried == PasswordOf(f) && SecretOf(f.accounts[k]).WellFormed())
            && (unsealed.Some? ==> unsealed.value == SecretOf(f.accounts[k]))
    ensures var a := w.blob.file.accounts[k];
            && a.watchOnly == (a.kind == WatchOnlyKind)
            && match SecretOf(a)
               case PrivateKey(_) => a.kind == PrivateKeyKind
               case Mnemonic(_, _) => a.kind == MnemonicKind
               case WatchOnly(_) => a.kind == WatchOnlyKind
    ensures w.rt.session.Some? && w.rt.session.value.key.Some? ==>
              w.rt.session.value.key.value == Key(PasswordOf(w.blob.file), w.blob.file.kdf)
  {
    var f := w.blob.file;
    assert AccountOk(KeyOf(f), f.accounts[k]);
    DecryptExactly(KeyOf(f), f.accounts[k], Key(tried, f.kdf));
  }

  /**
    * The open session holds exactly the file's accounts, in order, with their secrets, and the
    * same active account; the file has at least one account, distinct ids and its active id
    * among them.
    */
  lemma SessionAgreesWithFile(w: World)
    requires Inv(w)
    ensures w.rt.session.Some? ==>
              && w.blob.V2?
              && w.rt.session.value.entries == EntriesOf(w.blob.file.accounts)
              && w.rt.session.value.activeId == w.blob.file.activeId
    ensures w.blob.V2? ==>
              var accounts := w.blob.file.accounts;
              && accounts != [] && HasId(accounts, w.blob.file.activeId)
              && forall i, j :: 0 <= i < j < |accounts| ==> accounts[i].id != accounts[j].id
  {
    if w.rt.session.Some? { OpenFacts(w); }
    if w.blob.V2? { EntriesDistinctIds(w.blob.file.accounts); }
  }

  /** Whatever was saved loads again, unchanged, on the next load. */
  lemma SavedLoads(w: World, e: Event, id: string)
    requires Inv(w) && (e.Message? ==> Fresh(w, e.draws) && Sensible(e.op))
    ensures var after := EventStep(w, e).0.blob;
            Load(after, id) == Loaded(Some(if after.V2? then Some(after.file) else None), after)
  {
    RefineEvent(w, e);
    LoadOk(EventStep(w, e).0.blob, id);
  }

  /** Unlocking succeeds exactly with the current password and readable secrets; then every account is in the session. */
  lemma UnlockExactly(w: World, password: string, draws: Draws)
    requires Inv(w) && Fresh(w, draws)
    ensures var r := HandleMessage(w, Unlock(password), draws);
            if w.blob.Absent? then r.1 == Failed(NoVault)
            else if password == PasswordOf(w.blob.file) && AllReadable(WalletOf(w.blob.file)) then
              && r.1.StatusIs? && !r.1.status.locked
              && r.0.rt.session.Some? && r.0.rt.session.value.key == Some(KeyOf(w.blob.file)) && r.0.blob == w.blob
            else r.1 == Failed(WrongPassword)
  {
    var woken := World(w.blob, EnsureRehydrated(w.rt));
    RefineWake(w);
    ReadyFacts(woken);
    LoadOk(w.blob, draws.migratedId);
    if w.blob.V2? {
      OpeningAgrees(w.blob.file, password);
    }
  }

  // ---------------------------------------------------------------- what an event cannot do

  predicate SameSecret(a: PlainAccount, b: PlainAccount) { a.id == b.id && a.secret == b.secret && a.address == b.address }

  /** Each later account is an earlier one, up to its name, or carries the id drawn for a new one. */
  predicate Descends(before: seq<PlainAccount>, after: seq<PlainAccount>, drawn: string) {
    forall a :: a in after ==> a.id == drawn || exists b :: b in before && SameSecret(b, a)
  }

  lemma {:induction false} ForgetSubset(accounts: seq<PlainAccount>, id: string)
    ensures forall a :: a in Forget(accounts, id) ==> a in accounts
  {
    if accounts != [] { ForgetSubset(accounts[1..], id); }
  }

  lemma SubsetDescends(before: seq<PlainAccount>, after: seq<PlainAccount>, drawn: string)
    requires forall a :: a in after ==> a in before
    ensures Descends(before, after, drawn)
  {
    forall a | a in after ensures exists b :: b in before && SameSecret(b, a) {
      assert a in before && SameSecret(a, a);
    }
  }

  lemma RetitledDescends(before: seq<PlainAccount>, id: string, name: string, drawn: string)
    ensures Descends(before, Retitled(before, id, name), drawn)
  {
    var after := Retitled(before, id, name);
    forall a | a in after ensures exists b :: b in before && SameSecret(b, a) {
      var k :| 0 <= k < |after| && after[k] == a;
      assert before[k] in before && SameSecret(before[k], a);
    }
  }

  lemma AppendedDescends(before: seq<PlainAccount>, a: PlainAccount)
    ensures Descends(before, before + [a], a.id)
  {
    forall x | x in before + [a] && x.id != a.id ensures exists b :: b in before && SameSecret(b, x) {
      assert x in before && SameSecret(x, x);
    }
  }

  /** In the plain wallet the password changes only by its own operation, and secrets only come and go. */
  lemma PlainKeeps(p: Plain, op: Op, id: string)
    requires p.wallet.Some? && p.wallet.value.accounts != []
    ensures var r := PlainHandle(p, op, id);
            r.0.wallet.Some? ==>
              && (r.0.wallet.value.password != p.wallet.value.password ==>
                    && op.ChangePassword? && r.1.StatusIs?
                    && op.current == p.wallet.value.password && op.next == r.0.wallet.value.password)
              && Descends(p.wallet.value.accounts, r.0.wallet.value.accounts, id)
  {
    hide Active, StatusOf, PlainDone, Ascii.Trim, Secret.WellFormed, Descends, Forget, Retitled, AllReadable, Known;
    var before := p.wallet.value.accounts;
    SubsetDescends(before, before, id);
    if op.Remove? {
      ForgetSubset(before, op.id);
      SubsetDescends(before, Forget(before, op.id), id);
    } else if op.Rename? {
      RetitledDescends(before, op.id, Ascii.Trim(op.wantedName), id);
    } else if op.AddAccount? {
      var after := PlainHandle(p, op, id).0.wallet.value.accounts;
      if after != before { AppendedDescends(before, after[|before|]); }
    }
  }

  /**
    * No event but a password change with the current password changes the password, and none
    * changes the secret or the address of an account that stays.
    */
  lemma EventKeeps(w: World, e: Event)
    requires Inv(w) && (e.Message? ==> Fresh(w, e.draws) && Sensible(e.op)) && w.blob.V2?
    ensures var after := EventStep(w, e).0.blob;
            after.V2? ==>
              && (PasswordOf(after.file) != PasswordOf(w.blob.file) ==>
                    && e.Message? && e.op.ChangePassword?
                    && e.op.current == PasswordOf(w.blob.file) && e.op.next == PasswordOf(after.file))
              && forall i, j :: 0 <= i < |w.blob.file.accounts| && 0 <= j < |after.file.accounts|
                                && w.blob.file.accounts[i].id == after.file.accounts[j].id ==>
                   && SecretOf(w.blob.file.accounts[i]) == SecretOf(after.file.accounts[j])
                   && w.blob.file.accounts[i].address == after.file.accounts[j].address
  {
    hide Inv, FileOk, Fresh, Sensible, PasswordOf, PlainHandle, Descends, HandleMessage, SecretOf, PlainsOf;
    RefineEvent(w, e);
    AbsNonEmpty(w);
    SessionAgreesWithFile(w);
    var after := EventStep(w, e).0.blob;
    if e.Message? && after.V2? {
      FreshUnknown(w, e.draws);
      PlainKeeps(Woken(Abs(w)), e.op, e.draws.id);
      KeptByDescent(w.blob.file.accounts, after.file.accounts, e.draws.id);
    }
  }

  lemma FreshUnknown(w: World, draws: Draws)
    requires Fresh(w, draws) && w.blob.V2?
    ensures !HasId(w.blob.file.accounts, draws.id)
  {
  }

  lemma KeptByDescent(before: seq<Account>, after: seq<Account>, drawn: string)
    requires Descends(PlainsOf(before), PlainsOf(after), drawn) && !HasId(before, drawn)
    requires forall i, j :: 0 <= i < j < |before| ==> before[i].id != before[j].id
    ensures forall i, j :: 0 <= i < |before| && 0 <= j < |after| && before[i].id == after[j].id ==>
              SecretOf(before[i]) == SecretOf(after[j]) && before[i].address == after[j].address
  {
    hide SecretOf;
    forall i, j | 0 <= i < |before| && 0 <= j < |after| && before[i].id == after[j].id
      ensures SecretOf(before[i]) == SecretOf(after[j]) && before[i].address == after[j].address
    {
      var a := PlainsOf(after)[j];
      assert a in PlainsOf(after) && a.id != drawn;
      var b :| b in PlainsOf(before) && SameSecret(b, a);
      var k :| 0 <= k < |before| && PlainsOf(before)[k] == b;
      assert before[k].id == before[i].id;
    }
  }

  // ---------------------------------------------------------------- readable secrets

  /** Import and generation only hand over well-formed secrets. */
  predicate ImportsReadable(e: Event) {
    e.Message? ==> match e.op
                   case Create(_, _, given) => given.secret.WellFormed()
                   case AddAccount(_, _, given) => given.secret.WellFormed()
                   case _ => true
  }

  predicate PlainReadable(p: Plain) { p.wallet.Some? ==> AllReadable(p.wallet.value) }

  lemma {:induction false} ForgetReadable(accounts: seq<PlainAccount>, id: string)
    requires forall a :: a in accounts ==> a.secret.WellFormed()
    ensures forall a :: a in Forget(accounts, id) ==> a.secret.WellFormed()
  {
    hide Secret.WellFormed;
    if accounts != [] { ForgetReadable(accounts[1..], id); }
  }

  lemma ReadableEvent(p: Plain, e: Event)
    requires NonEmptyWallet(p) && PlainReadable(p) && ImportsReadable(e)
    ensures PlainReadable(PlainEvent(p, e).0)
  {
    hide Secret.WellFormed, Active, StatusOf, PlainDone, Ascii.Trim;
    if e.Message? && e.op.Remove? && p.wallet.Some? {
      ForgetReadable(p.wallet.value.accounts, e.op.id);
    }
  }

  lemma {:induction false} ReadableRun(p: Plain, events: seq<Event>)
    requires PlainReadable(p) && PlainRun(p, events).Some?
    requires forall k :: 0 <= k < |events| ==> ImportsReadable(events[k])
    ensures PlainReadable(PlainRun(p, events).value.0)
  {
    hide PlainEvent, ImportsReadable, PlainReadable, NonEmptyWallet;
    if events != [] {
      var init := events[..|events| - 1];
      assert forall k :: 0 <= k < |init| ==> init[k] == events[k];
      ReadableRun(p, init);
      ReadableEvent(PlainRun(p, init).value.0, events[|events| - 1]);
    }
  }

  /**
    * From installation, when only well-formed secrets were imported: whatever happened, unlock
    * succeeds exactly with the password that the plain wallet remembers.
    */
  lemma UnlockAfterRun(events: seq<Event>, password: string, draws: Draws)
    requires UsableRun(INSTALLED, events) && Fresh(Run(INSTALLED, events).0, draws)
    requires forall k :: 0 <= k < |events| ==> ImportsReadable(events[k])
    ensures PlainRun(Abs(INSTALLED), events).Some?
    ensures var answer := HandleMessage(Run(INSTALLED, events).0, Unlock(password), draws).1;
            var wallet := PlainRun(Abs(INSTALLED), events).value.0.wallet;
            if wallet.None? then answer == Failed(NoVault)
            else if password == wallet.value.password then answer.StatusIs? && !answer.status.locked
            else answer == Failed(WrongPassword)
  {
    hide HandleMessage, UsableRun, Run, Fresh, PlainRun, Inv, ImportsReadable, AllReadable, PlainsOf, PasswordOf;
    InstalledSound();
    RunRefines(INSTALLED, events);
    ReadableRun(Abs(INSTALLED), events);
    UnlockExactly(Run(INSTALLED, events).0, password, draws);
    SlotShape(Run(INSTALLED, events).0);
  }

  lemma SlotShape(w: World)
    requires Inv(w)
    ensures w.blob.Absent? || w.blob.V2?
  {
    hide RuntimeOk, FileOk;
  }

  /**
    * Creation does not apply the check that decryption applies: a secret that fails it makes a
    * wallet that opens at once and that its own password never opens again.
    */
  lemma UnreadableLocksOut(w: World, password: string, chain: Chain, given: NewSecret, draws: Draws, later: Draws)
    requires Inv(w) && Fresh(w, draws) && Sensible(Create(password, chain, given)) && !given.secret.WellFormed()
    requires var made := HandleMessage(w, Create(password, chain, given), draws);
             made.1 != Failed(WeakPassphrase) && made.1 != Failed(InvalidKey) && made.1 != Failed(VaultExists)
             && Fresh(made.0, later)
    ensures var made := HandleMessage(w, Create(password, chain, given), draws).0;
            made.rt.session.Some? && HandleMessage(made, Unlock(password), later).1 == Failed(WrongPassword)
  {
    var made := HandleMessage(w, Create(password, chain, given), draws).0;
    RefineMessage(w, Create(password, chain, given), draws);
    UnlockExactly(made, password, later);
    var accounts := WalletOf(made.blob.file).accounts;
    assert !accounts[0].secret.WellFormed();
  }

  // ---------------------------------------------------------------- a slot that does not load

  /**
    * A slot that does not load is never overwritten except by deletion: whatever is asked, it
    * stays as it is, and what needs the vault answers that it is corrupt.
    */
  lemma CorruptKept(w: World, op: Op, draws: Draws)
    requires Load(w.blob, draws.migratedId).result.None?
    ensures var r := HandleMessage(w, op, draws);
            && r.0.blob == (if op.Delete? then Absent else w.blob)
            && (op.Unlock? || op.Switch? || op.Remove? || op.Reveal? || op.SignKey? || op.GetStatus? ==> r.1 == Failed(CorruptVault))
            && (op.Create? || op.AddAccount? || op.Rename? || op.ChangePassword? ==> r.1.Failed?)
  {
    hide StartSession, AddEntry, SetActive, RemoveEntry, SetLockTimeout, EnsureRehydrated, ValidFile, ValidRecord, DecryptAll,
      Resealed, Reencrypted, StatusFromFile, WithoutId, Renamed, HasId, KeyForAdding, ActiveAccount, Decrypt, Ascii.Trim;
  }

  // ---------------------------------------------------------------- starting from a version 1 record

  /** A record as version 1 wrote it. */
  predicate RecordOk(r: Record, password: string, secret: Secret) {
    && ValidRecord(r) && r.payload == Encrypt(Key(password, r.kdf), r.payload.iv, secret)
    && r.kind == secret.Kind() && r.watchOnly == secret.WatchOnly?
  }

  /** Loading it makes a sound file: the plain wallet of the same password and the same one secret. */
  lemma MigratedSound(r: Record, password: string, secret: Secret, id: string)
    requires RecordOk(r, password, secret) && id != ""
    ensures var after := Load(V1(r), id).blob;
            && after.V2? && FileOk(after.file)
            && WalletOf(after.file) == Wallet(password, [PlainAccount(id, "Account 1", r.chain, r.address, secret)], id)
  {
    var file := MigrateRecordToFile(r, id);
    var a := file.accounts[0];
    SingleOk(file, Key(password, r.kdf), a);
    assert PasswordOf(file) == password by { assert KeyOf(file) == Key(password, r.kdf); }
  }

  /**
    * Every message answers and treats the session as if the record had been migrated before
    * it; the slot is migrated as well, or the message did not look at it.
    */
  lemma MigrationTransparent(w: World, op: Op, draws: Draws)
    requires w.blob.V1? && ValidRecord(w.blob.record) && draws.migratedId != ""
    ensures var migrated := World(Load(w.blob, draws.migratedId).blob, w.rt);
            var a := HandleMessage(w, op, draws);
            var b := HandleMessage(migrated, op, draws);
            && a.1 == b.1 && a.0.rt == b.0.rt
            && (a.0.blob == b.0.blob || (a.0.blob == w.blob && b.0.blob == migrated.blob))
  {
    hide StartSession, AddEntry, SetActive, RemoveEntry, SetLockTimeout, EnsureRehydrated, ValidFile, ValidRecord, Load, DecryptAll,
      Resealed, Reencrypted, StatusFromFile, WithoutId, Renamed, HasId, KeyForAdding, ActiveAccount, Decrypt;
    MigrationLossless(w.blob.record, draws.migratedId, draws.migratedId, "");
  }
}
