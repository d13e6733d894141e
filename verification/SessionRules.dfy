/**
  * The unlock session of session.ts as functions of its variables: the open session, the
  * pending lock timer, the configured timeout, the persisted copy and the clock.
  */
module SessionRules {
  import opened Wrappers
  import opened VaultTypes

  const DEFAULT_LOCK_TIMEOUT_MS: int := 300_000

  datatype Entry = Entry(id: string, secret: Secret, address: string)

  datatype Session = Session(entries: seq<Entry>, activeId: string, key: Option<Key>, lockAt: int)

  datatype Persisted = Persisted(accounts: seq<Entry>, activeId: string, expiresAt: int)

  /** A pending timeout: when it was set and when it is due. */
  datatype Timer = Timer(armedAt: int, due: int)

  datatype Runtime = Runtime(session: Option<Session>, timer: Option<Timer>, timeoutMs: int,
                             persisted: Option<Persisted>, savedTimeout: Option<int>, rehydrated: bool, now: int)

  // ---------------------------------------------------------------- entries: an insertion-ordered map

  predicate Has(entries: seq<Entry>, id: string) {
    exists k :: 0 <= k < |entries| && entries[k].id == id
  }

  /** `Map.set`: a known id keeps its place. */
  function Put(entries: seq<Entry>, e: Entry): seq<Entry> {
    if entries == [] then [e]
    else if entries[0].id == e.id then [e] + entries[1..]
    else [entries[0]] + Put(entries[1..], e)
  }

  /** `Map.delete`. */
  function Drop(entries: seq<Entry>, id: string): seq<Entry> {
    if entries == [] then []
    else (if entries[0].id == id then [] else [entries[0]]) + Drop(entries[1..], id)
  }

  /** `Map.get`. */
  function Get(entries: seq<Entry>, id: string): Option<Entry> {
    if entries == [] then None else if entries[0].id == id then Some(entries[0]) else Get(entries[1..], id)
  }

  /** The map that one `set` for each account builds. */
  function Collected(accounts: seq<Entry>): seq<Entry> {
    if accounts == [] then [] else Put(Collected(accounts[..|accounts| - 1]), accounts[|accounts| - 1])
  }

  predicate Distinct(entries: seq<Entry>) {
    forall i, j :: 0 <= i < j < |entries| ==> entries[i].id != entries[j].id
  }

  lemma {:induction false} PutNew(entries: seq<Entry>, e: Entry)
    requires !Has(entries, e.id)
    ensures Put(entries, e) == entries + [e]
  {
    if entries != [] {
      assert entries[0].id != e.id;
      assert !Has(entries[1..], e.id) by {
        assert forall k :: 0 <= k < |entries[1..]| ==> entries[1..][k] == entries[k + 1];
      }
      PutNew(entries[1..], e);
      assert entries == [entries[0]] + entries[1..];
    }
  }

  /** Accounts with distinct ids are kept as they are. */
  lemma {:induction false} CollectedDistinct(accounts: seq<Entry>)
    requires Distinct(accounts)
    ensures Collected(accounts) == accounts
  {
    if accounts != [] {
      var k := |accounts| - 1;
      CollectedDistinct(accounts[..k]);
      assert !Has(accounts[..k], accounts[k].id);
      PutNew(accounts[..k], accounts[k]);
      assert accounts == accounts[..k] + [accounts[k]];
    }
  }

  lemma {:induction false} PutHas(entries: seq<Entry>, e: Entry, id: string)
    ensures Has(Put(entries, e), id) <==> Has(entries, id) || id == e.id
  {
    if entries == [] {
      assert [e][0] == e;
    } else {
      HasCons(entries, id);
      if entries[0].id == e.id {
        HasCons([e] + entries[1..], id);
        assert ([e] + entries[1..])[1..] == entries[1..];
      } else {
        PutHas(entries[1..], e, id);
        var rest := Put(entries[1..], e);
        HasCons([entries[0]] + rest, id);
        assert ([entries[0]] + rest)[1..] == rest;
      }
    }
  }

  lemma HasCons(entries: seq<Entry>, id: string)
    requires entries != []
    ensures Has(entries, id) <==> entries[0].id == id || Has(entries[1..], id)
  {
    if k :| 0 <= k < |entries| && entries[k].id == id {
      assert k > 0 ==> entries[1..][k - 1].id == id;
    }
    if k :| 0 <= k < |entries[1..]| && entries[1..][k].id == id {
      assert entries[k + 1].id == id;
    }
  }

  predicate DistinctCons(entries: seq<Entry>) {
    entries == [] || (!Has(entries[1..], entries[0].id) && DistinctCons(entries[1..]))
  }

  lemma {:induction false} DistinctUnfolds(entries: seq<Entry>)
    ensures Distinct(entries) <==> DistinctCons(entries)
  {
    if entries != [] {
      var tail := entries[1..];
      DistinctUnfolds(tail);
      assert forall k :: 0 <= k < |tail| ==> tail[k] == entries[k + 1];
      if DistinctCons(entries) {
        forall i, j | 0 <= i < j < |entries|
          ensures entries[i].id != entries[j].id
        {
          assert entries[j] == tail[j - 1];
          if i > 0 { assert entries[i] == tail[i - 1]; }
        }
      }
    }
  }

  lemma {:induction false} PutDistinct(entries: seq<Entry>, e: Entry)
    requires DistinctCons(entries)
    ensures DistinctCons(Put(entries, e))
  {
    if entries == [] {
    } else if entries[0].id == e.id {
      assert ([e] + entries[1..])[1..] == entries[1..];
    } else {
      PutDistinct(entries[1..], e);
      PutHas(entries[1..], e, entries[0].id);
      var rest := Put(entries[1..], e);
      assert ([entries[0]] + rest)[1..] == rest;
    }
  }

  /** Whatever accounts are given, the map has distinct ids and exactly theirs. */
  lemma {:induction false} CollectedIsMap(accounts: seq<Entry>, id: string)
    ensures Distinct(Collected(accounts))
    ensures Has(Collected(accounts), id) <==> Has(accounts, id)
  {
    if accounts == [] {
    } else {
      var k := |accounts| - 1;
      var init := accounts[..k];
      CollectedIsMap(init, id);
      DistinctUnfolds(Collected(init));
      PutDistinct(Collected(init), accounts[k]);
      DistinctUnfolds(Collected(accounts));
      PutHas(Collected(init), accounts[k], id);
    }
  }

  lemma {:induction false} DropExactly(entries: seq<Entry>, id: string)
    requires DistinctCons(entries)
    ensures DistinctCons(Drop(entries, id))
    ensures forall other :: Has(Drop(entries, id), other) <==> Has(entries, other) && other != id
  {
    if entries != [] {
      DropExactly(entries[1..], id);
      var rest := Drop(entries[1..], id);
      assert ([entries[0]] + rest)[1..] == rest;
      assert Drop(entries, id) == if entries[0].id == id then rest else [entries[0]] + rest;
      forall other ensures Has(Drop(entries, id), other) <==> Has(entries, other) && other != id {
        HasCons(entries, other);
        HasCons([entries[0]] + rest, other);
      }
    }
  }

  // ---------------------------------------------------------------- the operations

  function Max(a: int, b: int): (m: int)
    ensures m >= a && m >= b && (m == a || m == b)
  {
    if a >= b then a else b
  }

  /** `armTimer`: the delay is never negative, so an overdue deadline is due at once. */
  function ArmTimer(rt: Runtime): Runtime {
    rt.(timer := if rt.session.Some? then Some(Timer(rt.now, Max(rt.now, rt.session.value.lockAt))) else None)
  }

  function CopyOf(s: Session): Persisted { Persisted(s.entries, s.activeId, s.lockAt) }

  /** `persistCurrent`, with a store that applies writes in order. */
  function Persist(rt: Runtime): Runtime {
    if rt.session.Some? then rt.(persisted := Some(CopyOf(rt.session.value))) else rt
  }

  function TouchSession(rt: Runtime): Runtime {
    if rt.session.None? then rt
    else Persist(ArmTimer(rt.(session := Some(rt.session.value.(lockAt := rt.now + rt.timeoutMs)))))
  }

  /** The id to mark active: the wanted one if it is unlocked, else the first. */
  function ActiveOr(entries: seq<Entry>, accounts: seq<Entry>, activeId: string): string
    requires accounts != []
  {
    if Has(entries, activeId) then activeId else accounts[0].id
  }

  function ZeroAll(entries: seq<Entry>): (r: seq<Entry>)
    ensures |r| == |entries|
  {
    seq(|entries|, k requires 0 <= k < |entries| => entries[k].(secret := entries[k].secret.Zeroed()))
  }

  /** `startSession`; false is its error on an empty list, thrown after the old secrets were zeroed. */
  function StartSession(rt: Runtime, accounts: seq<Entry>, activeId: string, key: Option<Key>): (Runtime, bool) {
    if accounts == [] then
      (if rt.session.Some? then rt.(session := Some(rt.session.value.(entries := ZeroAll(rt.session.value.entries)))) else rt, false)
    else
      var entries := Collected(accounts);
      var s := Session(entries, ActiveOr(entries, accounts, activeId), key, rt.now + rt.timeoutMs);
      (Persist(ArmTimer(rt.(session := Some(s)))), true)
  }

  /** `setActiveAccount`; None is its error. */
  function SetActive(rt: Runtime, id: string): Option<Runtime> {
    if rt.session.None? || !Has(rt.session.value.entries, id) then None
    else Some(TouchSession(rt.(session := Some(rt.session.value.(activeId := id)))))
  }

  /** `addSessionAccount`; None is its error. */
  function AddEntry(rt: Runtime, e: Entry, makeActive: bool): Option<Runtime> {
    if rt.session.None? then None
    else
      var s := rt.session.value;
      Some(TouchSession(rt.(session := Some(s.(entries := Put(s.entries, e), activeId := if makeActive then e.id else s.activeId)))))
  }

  /** `removeSessionAccount`. */
  function RemoveEntry(rt: Runtime, id: string, fallback: string): Runtime {
    if rt.session.None? then rt
    else
      var s := rt.session.value;
      TouchSession(rt.(session := Some(s.(entries := Drop(s.entries, id), activeId := if s.activeId == id then fallback else s.activeId))))
  }

  /** `requireKey`; None is its error. */
  function RequireKey(rt: Runtime): (Runtime, Option<Key>) {
    if rt.session.None? || rt.session.value.key.None? then (rt, None) else (TouchSession(rt), rt.session.value.key)
  }

  /** `requireSecret`; None is its error. */
  function RequireSecret(rt: Runtime): (Runtime, Option<Secret>) {
    if rt.session.None? then (rt, None)
    else match Get(rt.session.value.entries, rt.session.value.activeId)
      case None => (rt, None)
      case Some(e) => (TouchSession(rt), Some(e.secret))
  }

  function LockNow(rt: Runtime): Runtime { rt.(session := None, timer := None, persisted := None) }

  function Rehydrate(rt: Runtime): Runtime {
    if rt.session.Some? || rt.persisted.None? then rt
    else
      var p := rt.persisted.value;
      if rt.now >= p.expiresAt || p.accounts == [] then rt.(persisted := None)
      else
        var entries := Collected(p.accounts);
        ArmTimer(rt.(session := Some(Session(entries, ActiveOr(entries, p.accounts, p.activeId), None, p.expiresAt))))
  }

  /** `ensureRehydrated`: once in the life of a worker. */
  function EnsureRehydrated(rt: Runtime): Runtime {
    if rt.rehydrated then rt else Rehydrate(rt).(rehydrated := true)
  }

  function LockIfDue(rt: Runtime): Runtime {
    if rt.session.Some? && rt.now >= rt.session.value.lockAt then LockNow(rt) else rt
  }

  function EnforceLockTimeout(rt: Runtime): Runtime { LockIfDue(EnsureRehydrated(rt)) }

  /** The callback of a pending timer. */
  function TimerFires(rt: Runtime): Runtime
    requires rt.timer.Some?
  {
    if rt.session.None? then rt.(timer := None)
    else if rt.now >= rt.session.value.lockAt then LockNow(rt)
    else ArmTimer(rt)
  }

  /** `setAndPersistLockTimeout`; None is its error. */
  function SetLockTimeout(rt: Runtime, ms: int): Option<Runtime> {
    if ms <= 0 then None
    else Some(TouchSession(rt.(timeoutMs := ms)).(savedTimeout := Some(ms)))
  }

  function LoadPersistedLockTimeout(rt: Runtime): Runtime {
    if rt.savedTimeout.Some? && rt.savedTimeout.value > 0 then TouchSession(rt.(timeoutMs := rt.savedTimeout.value)) else rt
  }

  /** The worker is evicted: only what the stores hold survives. */
  function Evict(rt: Runtime): Runtime {
    rt.(session := None, timer := None, timeoutMs := DEFAULT_LOCK_TIMEOUT_MS, rehydrated := false)
  }

  // ---------------------------------------------------------------- what every operation keeps

  /**
    * An open session has a pending timer, due at the later of its arming time and the deadline,
    * and a persisted copy equal to it; a closed one has no timer and, once the worker has
    * looked, no copy.
    */
  predicate RuntimeOk(rt: Runtime) {
    && rt.timeoutMs > 0 && (rt.savedTimeout.Some? ==> rt.savedTimeout.value > 0)
    && (rt.session.Some? ==>
          var s := rt.session.value;
          && Distinct(s.entries) && Has(s.entries, s.activeId)
          && rt.timer.Some? && rt.timer.value.due == Max(rt.timer.value.armedAt, s.lockAt)
          && rt.persisted == Some(CopyOf(s)))
    && (rt.session.None? ==> rt.timer.None? && (rt.rehydrated ==> rt.persisted.None?))
    && (rt.persisted.Some? ==>
          Distinct(rt.persisted.value.accounts) && Has(rt.persisted.value.accounts, rt.persisted.value.activeId))
  }

  datatype SessionOp =
    | Start(accounts: seq<Entry>, activeId: string, key: Option<Key>)
    | Activate(id: string)
    | Add(entry: Entry, makeActive: bool)
    | Remove(id: string, fallback: string)
    | UseKey | UseSecret | Touch | Lock | Wake | Alarm | FireTimer
    | ChangeTimeout(ms: int) | LoadTimeout | Eviction | ClockIs(time: int)

  /** Any operation, at any time; an error leaves the state as the operation left it. */
  function SessionStep(rt: Runtime, op: SessionOp): Runtime {
    match op
    case Start(accounts, activeId, key) => StartSession(rt, accounts, activeId, key).0
    case Activate(id) => (match SetActive(rt, id) case None => rt case Some(r) => r)
    case Add(entry, makeActive) => (match AddEntry(rt, entry, makeActive) case None => rt case Some(r) => r)
    case Remove(id, fallback) => RemoveEntry(rt, id, fallback)
    case UseKey => RequireKey(rt).0
    case UseSecret => RequireSecret(rt).0
    case Touch => TouchSession(rt)
    case Lock => LockNow(rt)
    case Wake => EnsureRehydrated(rt)
    case Alarm => EnforceLockTimeout(rt)
    case FireTimer => if rt.timer.Some? then TimerFires(rt) else rt
    case ChangeTimeout(ms) => (match SetLockTimeout(rt, ms) case None => rt case Some(r) => r)
    case LoadTimeout => LoadPersistedLockTimeout(rt)
    case Eviction => Evict(rt)
    case ClockIs(time) => rt.(now := time)
  }

  /** What the two unchecked calls ask of their caller: accounts to start with, and a fallback that stays. */
  predicate Allowed(rt: Runtime, op: SessionOp) {
    match op
    case Start(accounts, _, _) => accounts != [] || rt.session.None? || ZeroAll(rt.session.value.entries) == rt.session.value.entries
    case Remove(id, fallback) =>
      rt.session.Some? && rt.session.value.activeId == id ==> Has(Drop(rt.session.value.entries, id), fallback)
    case _ => true
  }

  lemma TouchKeeps(rt: Runtime)
    requires rt.timeoutMs > 0 && (rt.savedTimeout.Some? ==> rt.savedTimeout.value > 0)
    requires rt.session.Some? && Distinct(rt.session.value.entries) && Has(rt.session.value.entries, rt.session.value.activeId)
    ensures RuntimeOk(TouchSession(rt))
  {
    hide Distinct, Has;
  }

  lemma StartKeeps(rt: Runtime, accounts: seq<Entry>, activeId: string, key: Option<Key>)
    requires RuntimeOk(rt) && accounts != []
    ensures RuntimeOk(StartSession(rt, accounts, activeId, key).0)
  {
    CollectedIsMap(accounts, accounts[0].id);
  }

  lemma RehydrateKeeps(rt: Runtime)
    requires RuntimeOk(rt)
    ensures RuntimeOk(EnsureRehydrated(rt))
  {
    if rt.persisted.Some? { CollectedDistinct(rt.persisted.value.accounts); }
  }

  lemma ActivateKeeps(rt: Runtime, id: string)
    requires RuntimeOk(rt) && SetActive(rt, id).Some?
    ensures RuntimeOk(SetActive(rt, id).value)
  {
    hide Distinct, Has;
    TouchKeeps(rt.(session := Some(rt.session.value.(activeId := id))));
  }

  lemma AddKeeps(rt: Runtime, e: Entry, makeActive: bool)
    requires RuntimeOk(rt) && rt.session.Some?
    ensures RuntimeOk(AddEntry(rt, e, makeActive).value)
  {
    var s := rt.session.value;
    DistinctUnfolds(s.entries);
    PutDistinct(s.entries, e);
    DistinctUnfolds(Put(s.entries, e));
    PutHas(s.entries, e, s.activeId);
    PutHas(s.entries, e, e.id);
    TouchKeeps(rt.(session := Some(s.(entries := Put(s.entries, e), activeId := if makeActive then e.id else s.activeId))));
  }

  lemma RemoveKeeps(rt: Runtime, id: string, fallback: string)
    requires RuntimeOk(rt) && rt.session.Some? && Allowed(rt, Remove(id, fallback))
    ensures RuntimeOk(RemoveEntry(rt, id, fallback))
  {
    var s := rt.session.value;
    DistinctUnfolds(s.entries);
    DropExactly(s.entries, id);
    DistinctUnfolds(Drop(s.entries, id));
    TouchKeeps(rt.(session := Some(s.(entries := Drop(s.entries, id), activeId := if s.activeId == id then fallback else s.activeId))));
  }

  lemma TimeoutKeeps(rt: Runtime, ms: int)
    requires RuntimeOk(rt) && ms > 0
    ensures RuntimeOk(TouchSession(rt.(timeoutMs := ms)))
    ensures RuntimeOk(TouchSession(rt.(timeoutMs := ms)).(savedTimeout := Some(ms)))
  {
    hide Distinct, Has;
  }

  /** Zeroing the open secrets in place leaves the persisted copy behind. */
  lemma EmptyStartKeeps(rt: Runtime, activeId: string, key: Option<Key>)
    requires RuntimeOk(rt)
    ensures RuntimeOk(StartSession(rt, [], activeId, key).0) <==> Allowed(rt, Start([], activeId, key))
  {
    if rt.session.Some? {
      var entries := rt.session.value.entries;
      if ZeroAll(entries) != entries {
        assert rt.persisted.value.accounts == entries;
      }
    }
  }

  lemma RemoveBreaks(rt: Runtime, id: string, fallback: string)
    requires RuntimeOk(rt) && !Allowed(rt, Remove(id, fallback))
    ensures !RuntimeOk(RemoveEntry(rt, id, fallback))
  {
    hide Distinct, Has, Drop;
  }

  /** Every operation, at any time, keeps the invariant exactly when it is allowed. */
  lemma StepKeeps(rt: Runtime, op: SessionOp)
    requires RuntimeOk(rt)
    ensures RuntimeOk(SessionStep(rt, op)) <==> Allowed(rt, op)
  {
    hide Distinct, Has, Drop, Put, Collected, ActiveOr, Get, ZeroAll;
    match op
    case Start(accounts, activeId, key) =>
      if accounts == [] { EmptyStartKeeps(rt, activeId, key); } else { StartKeeps(rt, accounts, activeId, key); }
    case Activate(id) => if SetActive(rt, id).Some? { ActivateKeeps(rt, id); }
    case Add(entry, makeActive) => if rt.session.Some? { AddKeeps(rt, entry, makeActive); }
    case Remove(id, fallback) =>
      if !Allowed(rt, op) { RemoveBreaks(rt, id, fallback); }
      else if rt.session.Some? { RemoveKeeps(rt, id, fallback); }
    case UseKey => if rt.session.Some? { TouchKeeps(rt); }
    case UseSecret => if rt.session.Some? { TouchKeeps(rt); }
    case Touch => if rt.session.Some? { TouchKeeps(rt); }
    case Wake => RehydrateKeeps(rt);
    case Alarm => AlarmKeeps(rt);
    case ChangeTimeout(ms) => if ms > 0 { TimeoutKeeps(rt, ms); }
    case LoadTimeout => if rt.savedTimeout.Some? { TimeoutKeeps(rt, rt.savedTimeout.value); }
    case _ => SmallStepKeeps(rt, op);
  }

  lemma AlarmKeeps(rt: Runtime)
    requires RuntimeOk(rt)
    ensures RuntimeOk(EnforceLockTimeout(rt))
  {
    hide Distinct, Has, Rehydrate;
    RehydrateKeeps(rt);
  }

  lemma SmallStepKeeps(rt: Runtime, op: SessionOp)
    requires RuntimeOk(rt) && (op.Lock? || op.FireTimer? || op.Eviction? || op.ClockIs?)
    ensures RuntimeOk(SessionStep(rt, op))
  {
    hide Distinct, Has;
  }

  // ---------------------------------------------------------------- runs

  function SessionRun(rt: Runtime, ops: seq<SessionOp>): Runtime {
    if ops == [] then rt else SessionStep(SessionRun(rt, ops[..|ops| - 1]), ops[|ops| - 1])
  }

  /** Every operation of the run was allowed where it happened. */
  predicate AllowedRun(rt: Runtime, ops: seq<SessionOp>) {
    ops == [] || (AllowedRun(rt, ops[..|ops| - 1]) && Allowed(SessionRun(rt, ops[..|ops| - 1]), ops[|ops| - 1]))
  }

  const FIRST_RUN: Runtime := Runtime(None, None, DEFAULT_LOCK_TIMEOUT_MS, None, None, false, 0)

  lemma {:induction false} RunKeeps(ops: seq<SessionOp>)
    requires AllowedRun(FIRST_RUN, ops)
    ensures RuntimeOk(SessionRun(FIRST_RUN, ops))
  {
    if ops != [] {
      RunKeeps(ops[..|ops| - 1]);
      StepKeeps(SessionRun(FIRST_RUN, ops[..|ops| - 1]), ops[|ops| - 1]);
    }
  }

  /** When the wallet locks by itself: the open session's deadline, or that of the copy a new worker would restore. */
  function Deadline(rt: Runtime): Option<int> {
    if rt.session.Some? then Some(rt.session.value.lockAt)
    else if !rt.rehydrated && rt.persisted.Some? then Some(rt.persisted.value.expiresAt)
    else None
  }

  predicate FullyLocked(rt: Runtime) { rt.session.None? && rt.timer.None? && rt.persisted.None? }

  /**
    * In every reachable state: a timer is pending exactly while a session is open, due at the
    * later of its arming time and the deadline. Fired at or after the deadline it locks for
    * good; fired before, it is armed again for the deadline and nothing else changes. The
    * alarm does the same for an evicted worker: past the deadline everything is cleared,
    * before it the session is open with the deadline it had.
    */
  lemma AutoLock(ops: seq<SessionOp>)
    requires AllowedRun(FIRST_RUN, ops)
    ensures
      var rt := SessionRun(FIRST_RUN, ops);
      && (rt.session.Some? <==> rt.timer.Some?)
      && (rt.timer.Some? ==>
            && rt.timer.value.due == Max(rt.timer.value.armedAt, rt.session.value.lockAt)
            && (rt.now >= rt.session.value.lockAt ==> FullyLocked(TimerFires(rt)))
            && (rt.now < rt.session.value.lockAt ==>
                  TimerFires(rt) == rt.(timer := Some(Timer(rt.now, rt.session.value.lockAt)))))
      && (var woken := EnforceLockTimeout(rt);
          if Deadline(rt).None? || rt.now >= Deadline(rt).value then FullyLocked(woken)
          else woken.session.Some? && Deadline(woken) == Deadline(rt))
  {
    RunKeeps(ops);
  }

  /**
    * Eviction followed by a respawn, at any time: before the deadline the session is back
    * exactly, but for its key, and no deadline moved; at or after it everything is cleared.
    */
  lemma EvictThenRehydrate(rt: Runtime, time: int)
    requires RuntimeOk(rt) && rt.session.Some?
    ensures var s := rt.session.value;
            var back := EnsureRehydrated(Evict(rt).(now := time));
            if time < s.lockAt then
              back.session == Some(s.(key := None)) && back.persisted == rt.persisted && back.timer == Some(Timer(time, s.lockAt))
            else FullyLocked(back)
  {
    var s := rt.session.value;
    CollectedDistinct(s.entries);
  }

  /** Locking clears the worker and the store: a worker respawned later, at any time, finds nothing. */
  lemma LockClearsBoth(rt: Runtime, time: int)
    requires RuntimeOk(rt)
    ensures FullyLocked(LockNow(rt)) && FullyLocked(EnsureRehydrated(Evict(LockNow(rt)).(now := time)))
  {
  }

  /**
    * At startup the saved timeout and the session are read without waiting for each other.
    * Read in that order, the restored deadline is the persisted one. Read the other way round,
    * restoring is followed by a touch: the deadline is kept exactly when no timeout was saved
    * or the touch happens to give the same one.
    */
  lemma StartupOrder(rt: Runtime, time: int)
    requires RuntimeOk(rt) && rt.session.Some? && time < rt.session.value.lockAt
    ensures
      var evicted := Evict(rt).(now := time);
      var timeoutFirst := EnsureRehydrated(LoadPersistedLockTimeout(evicted));
      var sessionFirst := LoadPersistedLockTimeout(EnsureRehydrated(evicted));
      && Deadline(timeoutFirst) == Deadline(rt)
      && (Deadline(sessionFirst) == Deadline(rt) <==>
          rt.savedTimeout.None? || time + rt.savedTimeout.value == rt.session.value.lockAt)
  {
    EvictThenRehydrate(rt, time);
  }
}
