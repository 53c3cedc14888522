/**
 * Workers, heartbeats, reapers and cancellations over one lease store, interleaved at every store call.
 * No lease is ever removed, as in the runtime. The queue may hand any task to any worker, any number of times.
 */
module WorkerProtocol {
  import opened Core
  import opened Leases

  type ProcId = int

  datatype Verdict = Complete | Retry | Abandon

  /** Where a process stands; a snapshot is a lease read from the store and about to be written back. */
  datatype Proc =
    | WorkerIdle(id: WorkerId)
    | WorkerLeasing(id: WorkerId, task: TaskId, attempt: nat)
    | WorkerExecuting(id: WorkerId, task: TaskId, attempt: nat)
    | WorkerReading(id: WorkerId, task: TaskId, attempt: nat, verdict: Verdict)
    | WorkerWriting(id: WorkerId, task: TaskId, attempt: nat, verdict: Verdict, snapshot: Lease)
    | WorkerRequeueing(id: WorkerId, task: TaskId, attempt: nat)
    | HeartbeatChecking(task: TaskId)
    | HeartbeatReading(task: TaskId)
    | HeartbeatWriting(task: TaskId, snapshot: Lease)
    | HeartbeatStopped
    | ReaperIdle
    | ReaperReading(todo: seq<Lease>, expired: seq<Lease>)
    | ReaperWriting(snapshot: Lease, todo: seq<Lease>, expired: seq<Lease>)
    | ReaperRequeueing(expired: seq<Lease>)
    | CancelChecking(task: TaskId)
    | CancelReading(task: TaskId)
    | CancelWriting(snapshot: Lease)
    | CancelDiscarding(task: TaskId)

  datatype Sys = Sys(store: Store, procs: map<ProcId, Proc>)

  datatype Event =
    | Handed(p: ProcId, task: TaskId, attempt: nat)
    | Lacking(p: ProcId)
    | Insert(p: ProcId, heartbeat: ProcId, leaseId: int, ttl: nat, now: int)
    | Exit(p: ProcId, verdict: Verdict)
    | Crash(p: ProcId)
    | Read(p: ProcId, ttl: nat, now: int)
    | Write(p: ProcId)
    | Listed(p: ProcId, active: seq<Lease>)
    | Requeue(p: ProcId)
    | CancelRequest(p: ProcId, task: TaskId)

  ghost predicate Init(s: Sys) {
    s.store == map[] && forall p :: p in s.procs ==> s.procs[p].WorkerIdle? || s.procs[p].ReaperIdle?
  }

  function Final(verdict: Verdict, attempt: nat): LeaseState {
    match verdict
    case Complete => Completed
    case Retry => Failed(attempt + 1)
    case Abandon => Failed(attempt)
  }

  /** The process after it has read the store. */
  function AfterRead(store: Store, proc: Proc, ttl: nat, now: int): Option<Proc> {
    match proc
    case WorkerReading(id, task, attempt, verdict) =>
      if task in store then Some(WorkerWriting(id, task, attempt, verdict,
          store[task].(state := Final(verdict, attempt))))
      else Some(WorkerIdle(id))
    case HeartbeatChecking(task) =>
      if task in store then Some(HeartbeatReading(task)) else Some(HeartbeatStopped)
    case HeartbeatReading(task) =>
      if task in store then Some(HeartbeatWriting(task, store[task].Renewed(now, ttl)))
          else Some(HeartbeatChecking(task))
    case ReaperReading(todo, expired) =>
      if todo == [] then Some(ReaperRequeueing(expired))
      else if todo[0].IsExpired(now) && todo[0].task in store && store[todo[0].task].Overdue(now) then
        Some(ReaperWriting(store[todo[0].task].(state := Expired), todo[1..], expired))
      else Some(ReaperReading(todo[1..], expired))
    case CancelChecking(task) =>
      if task in store then Some(CancelReading(task)) else Some(CancelDiscarding(task))
    case CancelReading(task) =>
      if task in store then Some(CancelWriting(store[task].(state := Cancelled))) else Some(CancelDiscarding(task))
    case _ => None
  }

  predicate Writes(proc: Proc) {
    proc.WorkerWriting? || proc.HeartbeatWriting? || proc.ReaperWriting? || proc.CancelWriting?
  }

  /** The process after it has written its snapshot back. */
  function AfterWrite(proc: Proc): Proc
    requires Writes(proc)
  {
    match proc
    case WorkerWriting(id, task, attempt, verdict, _) =>
      if verdict == Retry then WorkerRequeueing(id, task, attempt + 1) else WorkerIdle(id)
    case HeartbeatWriting(task, _) => HeartbeatChecking(task)
    case ReaperWriting(snapshot, todo, expired) => ReaperReading(todo, expired + [snapshot])
    case CancelWriting(snapshot) => CancelDiscarding(snapshot.task)
  }

  /** A write succeeds only while the lease is still there. */
  function Written(store: Store, snapshot: Lease): Store {
    if snapshot.task in store then store[snapshot.task := snapshot] else store
  }

  ghost predicate Step(s: Sys, e: Event, s': Sys) {
    match e
    case Handed(p, task, attempt) =>
      && p in s.procs && s.procs[p].WorkerIdle?
      && s' == s.(procs := s.procs[p := WorkerLeasing(s.procs[p].id, task, attempt)])
    case Lacking(p) =>
      // not enough resources: the task is requeued
      && p in s.procs && s.procs[p].WorkerLeasing?
      && s' == s.(procs := s.procs[p := WorkerIdle(s.procs[p].id)])
    case Insert(p, heartbeat, leaseId, ttl, now) =>
      && p in s.procs && s.procs[p].WorkerLeasing? && heartbeat !in s.procs
      && var WorkerLeasing(id, task, attempt) := s.procs[p];
         if task in s.store then s' == s.(procs := s.procs[p := WorkerIdle(id)])
         else s' == Sys(s.store[task := NewLease(leaseId, task, id, ttl, attempt, now)],
                        s.procs[p := WorkerExecuting(id, task, attempt)][heartbeat := HeartbeatChecking(task)])
    case Exit(p, verdict) =>
      && p in s.procs && s.procs[p].WorkerExecuting?
      && s' == s.(procs := s.procs[p := WorkerReading(s.procs[p].id, s.procs[p].task, s.procs[p].attempt, verdict)])
    case Crash(p) =>
      // the executor returns an error: the worker goes on, the lease and its heartbeat stay
      && p in s.procs && s.procs[p].WorkerExecuting?
      && s' == s.(procs := s.procs[p := WorkerIdle(s.procs[p].id)])
    case Read(p, ttl, now) =>
      && p in s.procs && AfterRead(s.store, s.procs[p], ttl, now).Some?
      && s' == s.(procs := s.procs[p := AfterRead(s.store, s.procs[p], ttl, now).value])
    case Write(p) =>
      && p in s.procs && Writes(s.procs[p])
      && s' == Sys(Written(s.store, s.procs[p].snapshot), s.procs[p := AfterWrite(s.procs[p])])
    case Listed(p, active) =>
      && p in s.procs && s.procs[p].ReaperIdle?
      && Distinct(active)
      && (forall l :: l in active <==> l.task in s.store && s.store[l.task] == l && l.state == Active)
      && s' == s.(procs := s.procs[p := ReaperReading(active, [])])
    case Requeue(p) =>
      && p in s.procs && (s.procs[p].WorkerRequeueing? || s.procs[p].ReaperRequeueing? || s.procs[p].CancelDiscarding?)
      && s' == s.(procs := match s.procs[p]
                           case WorkerRequeueing(id, _, _) => s.procs[p := WorkerIdle(id)]
                           case ReaperRequeueing(_) => s.procs[p := ReaperIdle]
                           case CancelDiscarding(_) => s.procs - {p})
    case CancelRequest(p, task) =>
      && p !in s.procs
      && s' == s.(procs := s.procs[p := CancelChecking(task)])
  }

  ghost predicate Behaviour(states: seq<Sys>, events: seq<Event>) {
    && |states| == |events| + 1 && Init(states[0])
    && forall i :: 0 <= i < |events| ==> Step(states[i], events[i], states[i + 1])
  }

  // ----- at most one execution -----

  /** The process is between a successful acquire and the end of its handling of the task. */
  predicate Holds(proc: Proc, task: TaskId) {
    (proc.WorkerExecuting? || proc.WorkerReading? || proc.WorkerWriting? || proc.WorkerRequeueing?) && proc.task == task
  }

  predicate Acquires(s: Sys, e: Event, task: TaskId) {
    e.Insert? && e.p in s.procs && s.procs[e.p].WorkerLeasing? && s.procs[e.p].task == task && task !in s.store
  }

  lemma {:induction false} LeasesStay(states: seq<Sys>, events: seq<Event>, i: nat, j: nat, t: TaskId)
    requires Behaviour(states, events) && i <= j < |states| && t in states[i].store
    ensures t in states[j].store
    decreases j - i
  {
    if i < j {
      LeasesStay(states, events, i, j - 1, t);
      assert Step(states[j - 1], events[j - 1], states[j]);
    }
  }

  /** At most one acquire of a task ever succeeds, however often the task is requeued or handed out. */
  lemma AcquiredOnce(states: seq<Sys>, events: seq<Event>, i: nat, j: nat, t: TaskId)
    requires Behaviour(states, events) && i < j < |events| && Acquires(states[i], events[i], t)
    ensures !Acquires(states[j], events[j], t)
  {
    assert Step(states[i], events[i], states[i + 1]);
    LeasesStay(states, events, i + 1, j, t);
  }

  /** A lease on file was acquired by an earlier event. */
  lemma {:induction false} OnFileWasAcquired(states: seq<Sys>, events: seq<Event>, j: nat, t: TaskId) returns (i: nat)
    requires Behaviour(states, events) && j < |states| && t in states[j].store
    ensures i < j && Acquires(states[i], events[i], t)
    decreases j
  {
    assert Init(states[0]);
    var k := j - 1;
    assert Step(states[k], events[k], states[j]);
    if t in states[k].store {
      i := OnFileWasAcquired(states, events, k, t);
    } else {
      i := k;
    }
  }

  ghost predicate AcquiredBefore(states: seq<Sys>, events: seq<Event>, j: nat, t: TaskId)
    requires j <= |events| < |states|
  {
    exists i :: 0 <= i < j && Acquires(states[i], events[i], t)
  }

  /** A worker gets a task it has been handed if and only if no worker ever got it before. */
  lemma AcquiresExactly(states: seq<Sys>, events: seq<Event>, j: nat, t: TaskId)
    requires Behaviour(states, events) && j < |events| && events[j].Insert? && events[j].p in states[j].procs
    requires states[j].procs[events[j].p].WorkerLeasing? && states[j].procs[events[j].p].task == t
    ensures Acquires(states[j], events[j], t) <==> !AcquiredBefore(states, events, j, t)
    ensures events[j].p in states[j + 1].procs
    ensures states[j + 1].procs[events[j].p].WorkerExecuting? <==> !AcquiredBefore(states, events, j, t)
    ensures states[j + 1].procs[events[j].p].WorkerIdle? <==> AcquiredBefore(states, events, j, t)
  {
    assert Step(states[j], events[j], states[j + 1]);
    if t in states[j].store {
      var i := OnFileWasAcquired(states, events, j, t);
    }
    if AcquiredBefore(states, events, j, t) {
      var i :| 0 <= i < j && Acquires(states[i], events[i], t);
      AcquiredOnce(states, events, i, j, t);
    }
  }

  lemma InitHoldsNothing(states: seq<Sys>, events: seq<Event>, p: ProcId, t: TaskId)
    requires Behaviour(states, events)
    ensures p in states[0].procs ==> !Holds(states[0].procs[p], t)
  {
    assert Init(states[0]);
  }

  /** So a task that was acquired once and requeued, for a retry or by a reaper, is refused to every later worker. */
  lemma RequeuedTaskIsRefused(states: seq<Sys>, events: seq<Event>, i: nat, j: nat, t: TaskId)
    requires Behaviour(states, events) && i < j < |events| && Acquires(states[i], events[i], t)
    requires events[j].Insert? && events[j].p in states[j].procs && states[j].procs[events[j].p].WorkerLeasing?
    requires states[j].procs[events[j].p].task == t
    ensures states[j + 1].store == states[j].store
    ensures events[j].p in states[j + 1].procs && states[j + 1].procs[events[j].p].WorkerIdle?
  {
    assert Step(states[i], events[i], states[i + 1]);
    LeasesStay(states, events, i + 1, j, t);
    assert Step(states[j], events[j], states[j + 1]);
  }

  /** A process that holds a task acquired it earlier. */
  lemma {:induction false} HoldersAcquired(states: seq<Sys>, events: seq<Event>, j: nat, p: ProcId, t: TaskId)
      returns (i: nat)
    requires Behaviour(states, events) && j < |states| && p in states[j].procs && Holds(states[j].procs[p], t)
    ensures i < j && Acquires(states[i], events[i], t) && events[i].p == p
    decreases j
  {
    InitHoldsNothing(states, events, p, t);
    var k := j - 1;
    assert Step(states[k], events[k], states[j]);
    if p in states[k].procs && Holds(states[k].procs[p], t) {
      i := HoldersAcquired(states, events, k, p, t);
    } else {
      i := k;
    }
  }

  /** No two processes hold the same task, at the same or at different moments of a run. */
  lemma OneExecution(states: seq<Sys>, events: seq<Event>, i: nat, j: nat, p: ProcId, q: ProcId, t: TaskId)
    requires Behaviour(states, events) && i < |states| && j < |states|
    requires p in states[i].procs && Holds(states[i].procs[p], t)
    requires q in states[j].procs && Holds(states[j].procs[q], t)
    ensures p == q
  {
    var a := HoldersAcquired(states, events, i, p, t);
    var b := HoldersAcquired(states, events, j, q, t);
    if a < b {
      AcquiredOnce(states, events, a, b, t);
    } else if b < a {
      AcquiredOnce(states, events, b, a, t);
    }
  }

  // ----- lost updates -----

  predicate SameLease(a: Lease, b: Lease) {
    a.leaseId == b.leaseId && a.task == b.task && a.worker == b.worker && a.attempt == b.attempt
        && a.acquiredAt == b.acquiredAt
  }

  /** Snapshots belong to the lease on file; only a heartbeat writes a lease back as Active. */
  ghost predicate ProtocolInv(s: Sys) {
    && Filed(s.store)
    && forall p {:trigger s.procs[p]} :: p in s.procs && Writes(s.procs[p]) ==>
         && s.procs[p].snapshot.task in s.store
         && SameLease(s.procs[p].snapshot, s.store[s.procs[p].snapshot.task])
         && (s.procs[p].snapshot.state == Active ==> s.procs[p].HeartbeatWriting?)
  }

  lemma StepKeepsInv(s: Sys, e: Event, s': Sys)
    requires ProtocolInv(s) && Step(s, e, s')
    ensures ProtocolInv(s')
    ensures forall t :: t in s.store ==> t in s'.store && SameLease(s.store[t], s'.store[t])
  {
  }

  lemma {:induction false} BehaviourKeepsInv(states: seq<Sys>, events: seq<Event>, i: nat)
    requires Behaviour(states, events) && i < |states|
    ensures ProtocolInv(states[i])
    decreases i
  {
    if i > 0 {
      BehaviourKeepsInv(states, events, i - 1);
      assert Step(states[i - 1], events[i - 1], states[i]);
      StepKeepsInv(states[i - 1], events[i - 1], states[i]);
    }
  }

  predicate Revives(s: Sys, s': Sys, t: TaskId) {
    t in s.store && t in s'.store && s.store[t].state != Active && s'.store[t].state == Active
  }

  /** At k a heartbeat of the task reads the lease, Active; it writes at i, and not in between. */
  ghost predicate RenewsAcross(states: seq<Sys>, events: seq<Event>, k: nat, i: nat, p: ProcId, t: TaskId)
    requires k < i < |events| < |states|
  {
    && events[k].Read? && events[k].p == p && p in states[k].procs && states[k].procs[p] == HeartbeatReading(t)
    && t in states[k].store && states[k].store[t].state == Active
    && (forall m :: k < m < i ==> events[m] != Write(p))
    && events[i] == Write(p)
  }

  /** The lease leaves Active between k and i. */
  ghost predicate LeftActive(states: seq<Sys>, k: nat, i: nat, t: TaskId)
    requires k < i < |states|
  {
    exists m :: k <= m < i && t in states[m].store && states[m].store[t].state == Active
                && t in states[m + 1].store && states[m + 1].store[t].state != Active
  }

  /** What a heartbeat is about to write it read some time ago, and it has done nothing since. */
  lemma {:induction false} HeartbeatReadEarlier(states: seq<Sys>, events: seq<Event>, i: nat, p: ProcId)
      returns (k: nat)
    requires Behaviour(states, events) && i < |states| && p in states[i].procs && states[i].procs[p].HeartbeatWriting?
    ensures var t := states[i].procs[p].task;
            && k < i && events[k].Read? && events[k].p == p && p in states[k].procs
                && states[k].procs[p] == HeartbeatReading(t)
            && t in states[k].store && states[i].procs[p].snapshot ==
                states[k].store[t].Renewed(events[k].now, events[k].ttl)
            && forall m :: k < m < i ==> events[m] != Write(p)
    decreases i
  {
    assert Init(states[0]);
    var j := i - 1;
    assert Step(states[j], events[j], states[i]);
    if p in states[j].procs && states[j].procs[p] == states[i].procs[p] {
      k := HeartbeatReadEarlier(states, events, j, p);
    } else {
      k := j;
    }
  }

  /** What a heartbeat has read it keeps until it writes. */
  lemma {:induction false} SnapshotWaits(states: seq<Sys>, events: seq<Event>, k: nat, i: nat, p: ProcId)
    requires Behaviour(states, events) && k <= i < |states| && p in states[k].procs
        && states[k].procs[p].HeartbeatWriting?
    requires forall m :: k <= m < i ==> events[m] != Write(p)
    ensures p in states[i].procs && states[i].procs[p] == states[k].procs[p]
    decreases i - k
  {
    if k < i {
      SnapshotWaits(states, events, k, i - 1, p);
      assert Step(states[i - 1], events[i - 1], states[i]);
    }
  }

  lemma {:induction false} LeavesActive(states: seq<Sys>, events: seq<Event>, k: nat, i: nat, t: TaskId)
    requires Behaviour(states, events) && k < i < |states| && t in states[k].store && states[k].store[t].state == Active
    requires t in states[i].store && states[i].store[t].state != Active
    ensures LeftActive(states, k, i, t)
    decreases i - k
  {
    hide Step;
    var m := i - 1;
    LeasesStay(states, events, k, m, t);
    if states[m].store[t].state == Active {
      assert t in states[m + 1].store;
    } else {
      LeavesActive(states, events, k, m, t);
      var n :| k <= n < m && t in states[n].store && states[n].store[t].state == Active
               && t in states[n + 1].store && states[n + 1].store[t].state != Active;
    }
  }

  /** The write puts back an Active lease of the task: it is the write of a heartbeat. */
  lemma RevivingWrite(states: seq<Sys>, events: seq<Event>, i: nat, t: TaskId)
    requires Behaviour(states, events) && i < |events| && Revives(states[i], states[i + 1], t)
    ensures events[i].Write? && events[i].p in states[i].procs
    ensures var proc := states[i].procs[events[i].p];
            proc.HeartbeatWriting? && proc.snapshot.task == t && proc.snapshot.state == Active
  {
    BehaviourKeepsInv(states, events, i);
    assert Step(states[i], events[i], states[i + 1]);
  }

  /**
   * With reads and writes interleaved a lease that has left Active can become Active again. It does exactly when a
   * heartbeat read it while it was Active, it has left Active since, and the heartbeat now writes back what it read.
   */
  lemma RevivedExactly(states: seq<Sys>, events: seq<Event>, i: nat, t: TaskId)
    requires Behaviour(states, events) && i < |events|
    ensures Revives(states[i], states[i + 1], t) <==>
            t in states[i].store && states[i].store[t].state != Active
            && exists k: nat, p :: k < i && RenewsAcross(states, events, k, i, p, t) && LeftActive(states, k, i, t)
  {
    hide Step;
    if Revives(states[i], states[i + 1], t) {
      RevivingWrite(states, events, i, t);
      var p := events[i].p;
      var k := HeartbeatReadEarlier(states, events, i, p);
      BehaviourKeepsInv(states, events, k);
      assert RenewsAcross(states, events, k, i, p, t);
      LeavesActive(states, events, k, i, t);
    }
    forall k: nat, p | k < i && RenewsAcross(states, events, k, i, p, t) && t in states[i].store
        && states[i].store[t].state != Active
      ensures Revives(states[i], states[i + 1], t)
    {
      RenewalRevives(states, events, k, i, p, t);
    }
  }

  lemma RenewalRevives(states: seq<Sys>, events: seq<Event>, k: nat, i: nat, p: ProcId, t: TaskId)
    requires Behaviour(states, events) && k < i < |events| && RenewsAcross(states, events, k, i, p, t)
    requires t in states[i].store && states[i].store[t].state != Active
    ensures Revives(states[i], states[i + 1], t)
  {
    assert Step(states[k], events[k], states[k + 1]) && Step(states[i], events[i], states[i + 1]);
    BehaviourKeepsInv(states, events, k);
    SnapshotWaits(states, events, k + 1, i, p);
  }

  // ----- what a lease says -----

  /** A worker that is about to lease a task was handed it, with that attempt. */
  lemma {:induction false} LeasingWasHanded(states: seq<Sys>, events: seq<Event>, j: nat, p: ProcId) returns (i: nat)
    requires Behaviour(states, events) && j < |states| && p in states[j].procs && states[j].procs[p].WorkerLeasing?
    ensures i < j && events[i] == Handed(p, states[j].procs[p].task, states[j].procs[p].attempt)
    decreases j
  {
    assert Init(states[0]);
    assert Step(states[j - 1], events[j - 1], states[j]);
    if p in states[j - 1].procs && states[j - 1].procs[p] == states[j].procs[p] {
      i := LeasingWasHanded(states, events, j - 1, p);
    } else {
      i := j - 1;
    }
  }

  /** The lease names the worker, the attempt, the id and the time of the acquire at event i. */
  ghost predicate NamesAcquire(states: seq<Sys>, events: seq<Event>, i: nat, t: TaskId, l: Lease)
    requires i < |events| && i < |states| && Acquires(states[i], events[i], t)
  {
    && l.task == t && l.worker == states[i].procs[events[i].p].id && l.attempt == states[i].procs[events[i].p].attempt
    && l.leaseId == events[i].leaseId && l.acquiredAt == events[i].now
  }

  /**
    A lease on file names, for as long as it is there, the acquire that put it there; it was Active then, up to the
    time to live.
   */
  lemma {:induction false} LeaseNamesAcquire(states: seq<Sys>, events: seq<Event>, j: nat, t: TaskId) returns (i: nat)
    requires Behaviour(states, events) && j < |states| && t in states[j].store
    ensures i < j && Acquires(states[i], events[i], t) && NamesAcquire(states, events, i, t, states[j].store[t])
    ensures t in states[i + 1].store && states[i + 1].store[t].state == Active
    ensures states[i + 1].store[t].expiresAt == events[i].now + Span(events[i].ttl)
    decreases j
  {
    assert Init(states[0]);
    BehaviourKeepsInv(states, events, j - 1);
    assert Step(states[j - 1], events[j - 1], states[j]);
    StepKeepsInv(states[j - 1], events[j - 1], states[j]);
    if t in states[j - 1].store {
      i := LeaseNamesAcquire(states, events, j - 1, t);
      assert SameLease(states[j - 1].store[t], states[j].store[t]);
    } else {
      i := j - 1;
    }
  }

  /** A worker executes, and ends, the attempt that it acquired; only a retry requeues with the next one. */
  lemma {:induction false} HolderKeepsAttempt(states: seq<Sys>, events: seq<Event>, j: nat, p: ProcId, t: TaskId)
      returns (i: nat)
    requires Behaviour(states, events) && j < |states| && p in states[j].procs && Holds(states[j].procs[p], t)
    ensures i < j && Acquires(states[i], events[i], t) && events[i].p == p
    ensures var before, now := states[i].procs[p], states[j].procs[p];
            now.id == before.id && now.attempt == before.attempt + if now.WorkerRequeueing? then 1 else 0
    decreases j
  {
    InitHoldsNothing(states, events, p, t);
    var k := j - 1;
    assert Step(states[k], events[k], states[j]);
    if p in states[k].procs && Holds(states[k].procs[p], t) {
      i := HolderKeepsAttempt(states, events, k, p, t);
    } else {
      i := k;
    }
  }

  // ----- what ends up on file -----

  /** What a snapshot was made to say: how the execution ended, that the lease expired, or that it was cancelled. */
  ghost predicate SaysItsEnd(proc: Proc) {
    match proc
    case WorkerWriting(_, task, attempt, verdict, snapshot) =>
      && snapshot.task == task
      && snapshot.state == (match verdict
                            case Complete => Completed
                            case Retry => Failed(attempt + 1)
                            case Abandon => Failed(attempt))
    case ReaperWriting(snapshot, _, _) => snapshot.state == Expired
    case CancelWriting(snapshot) => snapshot.state == Cancelled
    case _ => true
  }

  ghost predicate SnapshotsSayEnds(s: Sys) {
    && Filed(s.store)
    && forall p {:trigger s.procs[p]} :: p in s.procs ==> SaysItsEnd(s.procs[p])
  }

  lemma StepKeepsEnds(s: Sys, e: Event, s': Sys)
    requires SnapshotsSayEnds(s) && Step(s, e, s')
    ensures SnapshotsSayEnds(s')
  {
  }

  lemma {:induction false} SnapshotsKeepEnds(states: seq<Sys>, events: seq<Event>, i: nat)
    requires Behaviour(states, events) && i < |states|
    ensures SnapshotsSayEnds(states[i])
    decreases i
  {
    if i > 0 {
      SnapshotsKeepEnds(states, events, i - 1);
      assert Step(states[i - 1], events[i - 1], states[i]);
      StepKeepsEnds(states[i - 1], events[i - 1], states[i]);
    }
  }

  /**
    Every write puts the end on file that the process came to: Completed, Failed with the attempts made, Expired or
    Cancelled. After a failure that is to be retried the worker requeues the task with the next attempt.
   */
  lemma EndIsOnFile(states: seq<Sys>, events: seq<Event>, i: nat)
    requires Behaviour(states, events) && i < |events| && events[i].Write?
    ensures events[i].p in states[i].procs && Writes(states[i].procs[events[i].p])
    ensures var p, proc := events[i].p, states[i].procs[events[i].p];
            && proc.snapshot.task in states[i + 1].store
            && var lease := states[i + 1].store[proc.snapshot.task];
               && lease == proc.snapshot
               && (proc.ReaperWriting? ==> lease.state == Expired)
               && (proc.CancelWriting? ==> lease.state == Cancelled)
               && (proc.WorkerWriting? ==>
                     && lease.task == proc.task && p in states[i + 1].procs
                     && match proc.verdict
                        case Complete => lease.state == Completed && states[i + 1].procs[p].WorkerIdle?
                        case Retry =>
                          && lease.state == Failed(proc.attempt + 1)
                          && states[i + 1].procs[p] == WorkerRequeueing(proc.id, proc.task, proc.attempt + 1)
                        case Abandon => lease.state == Failed(proc.attempt) && states[i + 1].procs[p].WorkerIdle?)
  {
    SnapshotsKeepEnds(states, events, i);
    BehaviourKeepsInv(states, events, i);
    assert Step(states[i], events[i], states[i + 1]);
  }

  /** What a reaper is about to expire it found Active and past its expiry some time ago. */
  lemma {:induction false} ReaperFoundOverdue(states: seq<Sys>, events: seq<Event>, i: nat, p: ProcId) returns (k: nat)
    requires Behaviour(states, events) && i < |states| && p in states[i].procs && states[i].procs[p].ReaperWriting?
    ensures k < i && events[k].Read? && events[k].p == p
    ensures var t := states[i].procs[p].snapshot.task;
            && t in states[k].store && states[k].store[t].state == Active
            && events[k].now > states[k].store[t].expiresAt
            && states[i].procs[p].snapshot == states[k].store[t].(state := Expired)
    decreases i
  {
    assert Init(states[0]);
    BehaviourKeepsInv(states, events, i - 1);
    assert Step(states[i - 1], events[i - 1], states[i]);
    if p in states[i - 1].procs && states[i - 1].procs[p] == states[i].procs[p] {
      k := ReaperFoundOverdue(states, events, i - 1, p);
    } else {
      k := i - 1;
    }
  }

  // ----- heartbeats -----

  /** A heartbeat of the task that has not stopped. */
  predicate Beats(proc: Proc, task: TaskId) {
    (proc.HeartbeatChecking? || proc.HeartbeatReading? || proc.HeartbeatWriting?) && proc.task == task
  }

  /** Every heartbeat has a lease to renew, and none has stopped. */
  ghost predicate HeartbeatsRun(s: Sys) {
    forall p {:trigger s.procs[p]} :: p in s.procs ==>
      s.procs[p] != HeartbeatStopped && forall t :: Beats(s.procs[p], t) ==> t in s.store
  }

  lemma StepKeepsHeartbeats(s: Sys, e: Event, s': Sys)
    requires HeartbeatsRun(s) && Step(s, e, s')
    ensures HeartbeatsRun(s')
    ensures forall p, t :: p in s.procs && Beats(s.procs[p], t) ==> p in s'.procs && Beats(s'.procs[p], t)
  {
    assert forall t :: t in s.store ==> t in s'.store;
  }

  /** No heartbeat ever stops, whatever becomes of the lease, the worker or the task. */
  lemma {:induction false} NoHeartbeatStops(states: seq<Sys>, events: seq<Event>, i: nat)
    requires Behaviour(states, events) && i < |states|
    ensures HeartbeatsRun(states[i])
    decreases i
  {
    if i == 0 {
      assert Init(states[0]);
    } else {
      NoHeartbeatStops(states, events, i - 1);
      assert Step(states[i - 1], events[i - 1], states[i]);
      StepKeepsHeartbeats(states[i - 1], events[i - 1], states[i]);
    }
  }

  /** The heartbeat that an acquire starts goes on checking, reading and renewing the lease for ever after. */
  lemma {:induction false} HeartbeatGoesOn(states: seq<Sys>, events: seq<Event>, i: nat, j: nat, t: TaskId)
    requires Behaviour(states, events) && i < j < |states| && i < |events| && Acquires(states[i], events[i], t)
    ensures t in states[j].store
    ensures events[i].heartbeat in states[j].procs && Beats(states[j].procs[events[i].heartbeat], t)
    decreases j
  {
    assert Step(states[j - 1], events[j - 1], states[j]);
    if i < j - 1 {
      HeartbeatGoesOn(states, events, i, j - 1, t);
      NoHeartbeatStops(states, events, j - 1);
      StepKeepsHeartbeats(states[j - 1], events[j - 1], states[j]);
      LeasesStay(states, events, j - 1, j, t);
    }
  }

  // A run in which worker 0 completes task 0 between the two halves of a renewal by its heartbeat, process 1.

  const TAKEN: Lease := NewLease(0, 0, 0, 30, 0, 0)

  function Scene(i: nat): Sys {
    var w, beat := WorkerExecuting(0, 0, 0), HeartbeatWriting(0, TAKEN.Renewed(5, 30));
    var held, done := map[0 := TAKEN], TAKEN.(state := Completed);
    match i
    case 0 => Sys(map[], map[0 := WorkerIdle(0)])
    case 1 => Sys(map[], map[0 := WorkerLeasing(0, 0, 0)])
    case 2 => Sys(held, map[0 := w, 1 := HeartbeatChecking(0)])
    case 3 => Sys(held, map[0 := w, 1 := HeartbeatReading(0)])
    case 4 => Sys(held, map[0 := w, 1 := beat])
    case 5 => Sys(held, map[0 := WorkerReading(0, 0, 0, Complete), 1 := beat])
    case 6 => Sys(held, map[0 := WorkerWriting(0, 0, 0, Complete, done), 1 := beat])
    case 7 => Sys(map[0 := done], map[0 := WorkerIdle(0), 1 := beat])
    case _ => Sys(map[0 := TAKEN.Renewed(5, 30)], map[0 := WorkerIdle(0), 1 := HeartbeatChecking(0)])
  }

  function Script(i: nat): Event {
    match i
    case 0 => Handed(0, 0, 0)
    case 1 => Insert(0, 1, 0, 30, 0)
    case 2 => Read(1, 30, 5)
    case 3 => Read(1, 30, 5)
    case 4 => Exit(0, Complete)
    case 5 => Read(0, 0, 6)
    case 6 => Write(0)
    case _ => Write(1)
  }

  lemma SceneAdvances(i: nat)
    requires i < 8
    ensures Step(Scene(i), Script(i), Scene(i + 1))
  {
    var s, e, s' := Scene(i), Script(i), Scene(i + 1);
    match i
    case 0 => assert s'.procs == s.procs[0 := WorkerLeasing(0, 0, 0)];
    case 1 => assert s'.procs == s.procs[0 := WorkerExecuting(0, 0, 0)][1 := HeartbeatChecking(0)];
    case 2 => assert s'.procs == s.procs[1 := HeartbeatReading(0)];
    case 3 => assert s'.procs == s.procs[1 := AfterRead(s.store, s.procs[1], 30, 5).value];
    case 4 => assert s'.procs == s.procs[0 := WorkerReading(0, 0, 0, Complete)];
    case 5 => assert s'.procs == s.procs[0 := AfterRead(s.store, s.procs[0], 0, 6).value];
    case 6 => assert s'.store == Written(s.store, s.procs[0].snapshot)
        && s'.procs == s.procs[0 := AfterWrite(s.procs[0])];
    case _ => assert s'.store == Written(s.store, s.procs[1].snapshot)
        && s'.procs == s.procs[1 := AfterWrite(s.procs[1])];
  }

  lemma RevivalHappens() returns (states: seq<Sys>, events: seq<Event>)
    ensures Behaviour(states, events) && |events| == 8
    ensures 0 in states[7].store && states[7].store[0].state == Completed && Revives(states[7], states[8], 0)
  {
    hide Step;
    states, events := seq(9, i requires 0 <= i => Scene(i)), seq(8, i requires 0 <= i => Script(i));
    forall i | 0 <= i < 8
      ensures Step(states[i], events[i], states[i + 1])
    {
      SceneAdvances(i);
      assert states[i] == Scene(i) && events[i] == Script(i) && states[i + 1] == Scene(i + 1);
    }
  }
}
