/**
  * `updateVaultAtomic` of storage.ts, step by step: calls queue up, and a queued call loads,
  * mutates and saves in separate steps between which anything else may happen. No other
  * writer touches the slot.
  */
module MutationQueue {
  import opened Wrappers
  import opened VaultTypes
  import opened VaultStorage

  /** A caller's function on the current file: an error when it throws, None to delete the vault. */
  type Mutation = Option<File> -> Result<Option<File>, VaultError>

  datatype Outcome = Resolved(next: Option<File>) | Rejected(error: VaultError)

  /** Which of the two storage accesses failed, if any. */
  datatype Fault = NoFault | LoadFault | SaveFault

  datatype Phase = Queued | Loaded'(current: Option<File>) | Saving(next: Option<File>) | Settled(outcome: Outcome, fault: Fault)

  /** `id` is what a migration under this call would draw. */
  datatype Job = Job(mutate: Mutation, id: string, phase: Phase)

  datatype Queue = Queue(slot: Blob, jobs: seq<Job>)

  datatype Step = Call(mutate: Mutation, id: string) | LoadAt(k: nat, fails: bool) | MutateAt(k: nat) | SaveAt(k: nat, fails: bool)

  function Slot(next: Option<File>): Blob { if next.Some? then V2(next.value) else Absent }

  /** The promise chain: a call runs once every earlier one has settled, however it settled. */
  predicate MayRun(q: Queue, k: nat) {
    k < |q.jobs| && forall j :: 0 <= j < k ==> q.jobs[j].phase.Settled?
  }

  predicate Enabled(q: Queue, s: Step) {
    match s
    case Call(_, _) => true
    case LoadAt(k, _) => MayRun(q, k) && q.jobs[k].phase.Queued?
    case MutateAt(k) => k < |q.jobs| && q.jobs[k].phase.Loaded'?
    case SaveAt(k, _) => k < |q.jobs| && q.jobs[k].phase.Saving?
  }

  function At(q: Queue, k: nat, slot: Blob, phase: Phase): Queue
    requires k < |q.jobs|
  {
    Queue(slot, q.jobs[k := q.jobs[k].(phase := phase)])
  }

  function Take(q: Queue, s: Step): Queue
    requires Enabled(q, s)
  {
    match s
    case Call(mutate, id) => Queue(q.slot, q.jobs + [Job(mutate, id, Queued)])
    case LoadAt(k, fails) =>
      if fails then At(q, k, q.slot, Settled(Rejected(StorageFailed), LoadFault))
      else
        var loaded := Load(q.slot, q.jobs[k].id);
        if loaded.result.None? then At(q, k, loaded.blob, Settled(Rejected(CorruptVault), NoFault))
        else At(q, k, loaded.blob, Loaded'(loaded.result.value))
    case MutateAt(k) =>
      (match q.jobs[k].mutate(q.jobs[k].phase.current)
       case Err(error) => At(q, k, q.slot, Settled(Rejected(error), NoFault))
       case Ok(next) => At(q, k, q.slot, Saving(next)))
    case SaveAt(k, fails) =>
      var next := q.jobs[k].phase.next;
      if fails then At(q, k, q.slot, Settled(Rejected(StorageFailed), SaveFault))
      else At(q, k, Slot(next), Settled(Resolved(next), NoFault))
  }

  // ---------------------------------------------------------------- the sequential reading

  /** One mutation on its own, start to end: the slot it leaves and its outcome. */
  function Alone(slot: Blob, mutate: Mutation, id: string, fault: Fault): (Blob, Outcome) {
    var loaded := Load(slot, id);
    if fault == LoadFault then (slot, Rejected(StorageFailed))
    else if loaded.result.None? then (loaded.blob, Rejected(CorruptVault))
    else match mutate(loaded.result.value)
      case Err(error) => (loaded.blob, Rejected(error))
      case Ok(next) => if fault == SaveFault then (loaded.blob, Rejected(StorageFailed)) else (Slot(next), Resolved(next))
  }

  function FaultOf(j: Job): Fault { if j.phase.Settled? then j.phase.fault else NoFault }

  /** The fold of the mutations in call order. */
  function Folded(slot: Blob, jobs: seq<Job>): Blob {
    if jobs == [] then slot
    else
      var j := jobs[|jobs| - 1];
      Alone(Folded(slot, jobs[..|jobs| - 1]), j.mutate, j.id, FaultOf(j)).0
  }

  /** A settled call's outcome is the one of the fold. */
  predicate OutcomeFits(slot: Blob, jobs: seq<Job>, k: nat)
    requires k < |jobs|
  {
    var j := jobs[k];
    j.phase.Settled? ==> j.phase.outcome == Alone(Folded(slot, jobs[..k]), j.mutate, j.id, j.phase.fault).1
  }

  /** The call in progress has seen the fold of those before it, and only migrated it. */
  predicate RunningFits(slot: Blob, before: Blob, j: Job) {
    match j.phase
    case Queued => slot == before
    case Loaded'(current) => Load(before, j.id) == Loaded(Some(current), slot)
    case Saving(next) =>
      var loaded := Load(before, j.id);
      loaded.result.Some? && loaded.blob == slot && j.mutate(loaded.result.value) == Ok(next)
    case Settled(_, _) => false
  }

  /** The first `n` calls have settled, the next may be in progress, and the rest wait. */
  predicate Linear(start: Blob, q: Queue, n: nat) {
    && n <= |q.jobs|
    && (forall k :: 0 <= k < n ==> q.jobs[k].phase.Settled? && OutcomeFits(start, q.jobs, k))
    && (forall k :: n < k < |q.jobs| ==> q.jobs[k].phase.Queued?)
    && (if n == |q.jobs| then q.slot == Folded(start, q.jobs)
        else RunningFits(q.slot, Folded(start, q.jobs[..n]), q.jobs[n]))
  }

  lemma PrefixesKept(start: Blob, jobs: seq<Job>, jobs': seq<Job>, n: nat)
    requires n <= |jobs| && n <= |jobs'| && jobs'[..n] == jobs[..n]
    ensures forall k :: 0 <= k < n ==> jobs'[k] == jobs[k] && (OutcomeFits(start, jobs', k) <==> OutcomeFits(start, jobs, k))
  {
    hide Folded, Alone;
    forall k | 0 <= k < n
      ensures jobs'[k] == jobs[k] && jobs'[..k] == jobs[..k]
    {
      assert jobs'[..n][k] == jobs[..n][k];
      assert jobs'[..n][..k] == jobs'[..k] && jobs[..n][..k] == jobs[..k];
    }
  }

  lemma HasSettled(start: Blob, q: Queue, q': Queue, n: nat)
    requires Linear(start, q, n) && n < |q.jobs| == |q'.jobs| && q'.jobs == q.jobs[n := q'.jobs[n]]
    requires q'.jobs[n].phase.Settled?
    requires var j := q'.jobs[n];
             Alone(Folded(start, q.jobs[..n]), j.mutate, j.id, j.phase.fault) == (q'.slot, j.phase.outcome)
    ensures Linear(start, q', n + 1)
  {
    hide Folded, OutcomeFits, Alone, Load;
    assert q'.jobs[..n] == q.jobs[..n];
    PrefixesKept(start, q.jobs, q'.jobs, n);
    SettledFolds(start, q, q', n);
  }

  /** The step of a call in progress: it moves on, or it settles with the outcome of the fold. */
  lemma RunningStep(start: Blob, q: Queue, n: nat, s: Step)
    requires Linear(start, q, n) && n < |q.jobs| && Enabled(q, s) && !s.Call? && s.k == n
    ensures var q' := Take(q, s);
            Linear(start, q', if q'.jobs[n].phase.Settled? then n + 1 else n)
  {
    hide Folded, OutcomeFits, Load, Slot;
    var q' := Take(q, s);
    assert q'.jobs == q.jobs[n := q'.jobs[n]];
    if q'.jobs[n].phase.Settled? {
      HasSettled(start, q, q', n);
    } else {
      StillRunning(start, q, q', n);
    }
  }

  lemma StillRunning(start: Blob, q: Queue, q': Queue, n: nat)
    requires Linear(start, q, n) && n < |q.jobs| == |q'.jobs| && q'.jobs == q.jobs[n := q'.jobs[n]]
    requires RunningFits(q'.slot, Folded(start, q.jobs[..n]), q'.jobs[n])
    ensures Linear(start, q', n)
  {
    hide Folded, OutcomeFits, Alone, Load;
    assert q'.jobs[..n] == q.jobs[..n];
    PrefixesKept(start, q.jobs, q'.jobs, n);
  }

  lemma SettledFolds(start: Blob, q: Queue, q': Queue, n: nat)
    requires n < |q.jobs| == |q'.jobs| && q'.jobs[n].phase.Settled? && q'.jobs[..n] == q.jobs[..n]
    requires var j := q'.jobs[n];
             Alone(Folded(start, q.jobs[..n]), j.mutate, j.id, j.phase.fault) == (q'.slot, j.phase.outcome)
    ensures OutcomeFits(start, q'.jobs, n) && Folded(start, q'.jobs[..n + 1]) == q'.slot
    ensures n + 1 == |q'.jobs| ==> Folded(start, q'.jobs) == q'.slot
  {
    hide Alone;
    assert q'.jobs[..n + 1][..n] == q.jobs[..n];
    if n + 1 == |q'.jobs| { assert q'.jobs[..n + 1] == q'.jobs; }
  }

  /** Only the first call that has not settled can take a step. */
  lemma OnlyTheNext(start: Blob, q: Queue, n: nat, s: Step)
    requires Linear(start, q, n) && Enabled(q, s) && !s.Call?
    ensures s.k == n < |q.jobs|
  {
    hide Folded, Alone, Load, OutcomeFits;
  }

  lemma CallStep(start: Blob, q: Queue, n: nat, s: Step)
    requires Linear(start, q, n) && s.Call?
    ensures Linear(start, Take(q, s), n)
  {
    hide Folded, Alone, Load, OutcomeFits;
    var q' := Take(q, s);
    assert q'.jobs[..n] == q.jobs[..n];
    PrefixesKept(start, q.jobs, q'.jobs, n);
    assert n == |q.jobs| ==> q.jobs[..n] == q.jobs;
  }

  // ---------------------------------------------------------------- runs

  function TakeAll(q: Queue, steps: seq<Step>): Option<Queue> {
    if steps == [] then Some(q)
    else
      match TakeAll(q, steps[..|steps| - 1])
      case None => None
      case Some(before) => if Enabled(before, steps[|steps| - 1]) then Some(Take(before, steps[|steps| - 1])) else None
  }

  /**
    * However calls and steps interleave, the settled calls are a prefix in call order, each has
    * the outcome of the fold, and once all have settled the slot is the fold of all mutations.
    */
  lemma {:induction false} Linearizable(start: Blob, steps: seq<Step>) returns (n: nat)
    requires TakeAll(Queue(start, []), steps).Some?
    ensures Linear(start, TakeAll(Queue(start, []), steps).value, n)
  {
    if steps == [] {
      n := 0;
    } else {
      var init, last := steps[..|steps| - 1], steps[|steps| - 1];
      var m := Linearizable(start, init);
      var q := TakeAll(Queue(start, []), init).value;
      if last.Call? {
        CallStep(start, q, m, last);
        n := m;
      } else {
        OnlyTheNext(start, q, m, last);
        RunningStep(start, q, m, last);
        n := if Take(q, last).jobs[m].phase.Settled? then m + 1 else m;
      }
    }
  }

  /** After a resolved call, the next load returns just what its mutation returned, if that is a valid file. */
  lemma ResolvedIsLoaded(slot: Blob, mutate: Mutation, id: string, later: string)
    requires Load(slot, id).result.Some? && mutate(Load(slot, id).result.value).Ok?
    ensures var next := mutate(Load(slot, id).result.value).value;
            && Alone(slot, mutate, id, NoFault).1 == Resolved(next)
            && (next.None? || ValidFile(next.value) ==>
                  Load(Alone(slot, mutate, id, NoFault).0, later) == Loaded(Some(next), Alone(slot, mutate, id, NoFault).0))
  {
    hide ValidFile, ValidRecord;
    var next := mutate(Load(slot, id).result.value).value;
    assert Alone(slot, mutate, id, NoFault).0 == Slot(next);
  }

  /** A call that throws, or whose file is corrupt, leaves the slot as its load left it. */
  lemma RejectedIsIdentity(slot: Blob, mutate: Mutation, id: string, fault: Fault)
    requires Alone(slot, mutate, id, fault).1.Rejected?
    ensures Alone(slot, mutate, id, fault).0 == slot || Alone(slot, mutate, id, fault).0 == Load(slot, id).blob
    ensures !slot.V1? ==> Alone(slot, mutate, id, fault).0 == slot
  {
  }

  function Remaining(p: Phase): nat {
    match p
    case Queued => 3
    case Loaded'(_) => 2
    case Saving(_) => 1
    case Settled(_, _) => 0
  }

  function Work(jobs: seq<Job>): nat {
    if jobs == [] then 0 else Work(jobs[..|jobs| - 1]) + Remaining(jobs[|jobs| - 1].phase)
  }

  lemma {:induction false} WorkAt(jobs: seq<Job>, k: nat, j: Job)
    requires k < |jobs|
    ensures Work(jobs[k := j]) == Work(jobs) - Remaining(jobs[k].phase) + Remaining(j.phase)
  {
    var last := |jobs| - 1;
    if k < last {
      WorkAt(jobs[..last], k, j);
      assert jobs[k := j][..last] == jobs[..last][k := j];
    } else {
      assert jobs[k := j][..last] == jobs[..last];
    }
  }

  /**
    * Nothing is ever stuck: while a call has not settled some step other than a new call is
    * enabled, and every such step leaves less to do, so a rejected call never blocks a later one.
    */
  lemma Progress(start: Blob, q: Queue, n: nat)
    requires Linear(start, q, n) && n < |q.jobs|
    ensures Enabled(q, LoadAt(n, false)) || Enabled(q, MutateAt(n)) || Enabled(q, SaveAt(n, false))
    ensures forall s :: Enabled(q, s) && !s.Call? ==> Work(Take(q, s).jobs) < Work(q.jobs)
  {
    hide Folded, Alone, Load, Work;
    forall s | Enabled(q, s) && !s.Call?
      ensures Work(Take(q, s).jobs) < Work(q.jobs)
    {
      WorkAt(q.jobs, s.k, Take(q, s).jobs[s.k]);
    }
  }
}
