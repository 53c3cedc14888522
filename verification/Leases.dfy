/** Leases: the in-memory store and the manager, each manager operation taken as one step. */
module Leases {
  import opened Core

  datatype LeaseState = Active | Completed | Failed(attempts: nat) | Expired | Cancelled

  /** Times are in milliseconds. */
  datatype Lease = Lease(leaseId: int, task: TaskId, worker: WorkerId, state: LeaseState, acquiredAt: int,
      expiresAt: int, attempt: nat) {
    predicate IsExpired(now: int) {
      now > expiresAt
    }

    predicate Overdue(now: int) {
      state == Active && IsExpired(now)
    }

    function Renewed(now: int, ttl: nat): Lease {
      this.(expiresAt := now + Span(ttl))
    }
  }

  // The longest duration that the time library converts; longer ones become zero.
  const MAX_SPAN: nat := 9223372036854775807

  function Span(ttl: nat): nat {
    if ttl <= MAX_SPAN then ttl else 0
  }

  function NewLease(leaseId: int, task: TaskId, worker: WorkerId, ttl: nat, attempt: nat, now: int): Lease {
    Lease(leaseId, task, worker, Active, now, now + Span(ttl), attempt)
  }

  type Store = map<TaskId, Lease>

  datatype LeaseError = AlreadyLeased | LeaseNotFound

  /** Each lease is filed under its own task. */
  ghost predicate Filed(store: Store) {
    forall t {:trigger store[t]} :: t in store ==> store[t].task == t
  }

  ghost function OverdueTasks(store: Store, now: int): set<TaskId> {
    set t | t in store && store[t].Overdue(now)
  }

  /** The store after the overdue leases have expired. */
  ghost function Swept(store: Store, now: int): Store {
    map t | t in store :: if store[t].Overdue(now) then store[t].(state := Expired) else store[t]
  }

  class InMemoryLeaseStore {
    var leases: Store

    constructor ()
      ensures leases == map[]
    {
      leases := map[];
    }

    method Insert(lease: Lease) returns (error: Option<LeaseError>)
      modifies this
      ensures lease.task in old(leases) ==> error == Some(AlreadyLeased) && leases == old(leases)
      ensures lease.task !in old(leases) ==> error == None && leases == old(leases)[lease.task := lease]
    {
      if lease.task in leases {
        return Some(AlreadyLeased);
      }
      leases := leases[lease.task := lease];
      error := None;
    }

    method Get(task: TaskId) returns (lease: Option<Lease>)
      ensures lease == if task in leases then Some(leases[task]) else None
    {
      lease := if task in leases then Some(leases[task]) else None;
    }

    method Update(lease: Lease) returns (error: Option<LeaseError>)
      modifies this
      ensures lease.task !in old(leases) ==> error == Some(LeaseNotFound) && leases == old(leases)
      ensures lease.task in old(leases) ==> error == None && leases == old(leases)[lease.task := lease]
    {
      if lease.task !in leases {
        return Some(LeaseNotFound);
      }
      leases := leases[lease.task := lease];
      error := None;
    }

    method Remove(task: TaskId)
      modifies this
      ensures leases == old(leases) - {task}
    {
      leases := leases - {task};
    }

    /** The active leases, in no particular order. */
    method ActiveLeases() returns (active: seq<Lease>)
      requires Filed(leases)
      ensures Distinct(active)
      ensures forall l :: l in active <==> l.task in leases && leases[l.task] == l && l.state == Active
    {
      active := [];
      var todo := leases.Keys;
      while todo != {}
        invariant todo <= leases.Keys && Distinct(active)
        invariant forall l :: l in active <==>
            l.task in leases && l.task !in todo && leases[l.task] == l && l.state == Active
        decreases todo
      {
        var t := Any(todo);
        todo := todo - {t};
        if leases[t].state == Active {
          active := active + [leases[t]];
        }
      }
    }
  }

  class LeaseManager {
    const store: InMemoryLeaseStore

    constructor (store: InMemoryLeaseStore)
      ensures this.store == store
    {
      this.store := store;
    }

    method Acquire(lease: Lease) returns (error: Option<LeaseError>)
      requires Filed(store.leases)
      modifies store
      ensures Filed(store.leases) && ManagerStep(old(store.leases), Acquired(lease, error), store.leases)
    {
      error := store.Insert(lease);
    }

    method Renew(task: TaskId, ttl: nat, now: int) returns (error: Option<LeaseError>)
      requires Filed(store.leases)
      modifies store
      ensures Filed(store.leases) && ManagerStep(old(store.leases), RenewedAt(task, ttl, now, error), store.leases)
    {
      var lease := store.Get(task);
      if lease.None? {
        return Some(LeaseNotFound);
      }
      error := store.Update(lease.value.Renewed(now, ttl));
    }

    /** Completes, fails or cancels. */
    method Finish(task: TaskId, state: LeaseState) returns (error: Option<LeaseError>)
      requires Filed(store.leases) && state != Active && state != Expired
      modifies store
      ensures Filed(store.leases) && ManagerStep(old(store.leases), Finished(task, state, error), store.leases)
    {
      var lease := store.Get(task);
      if lease.None? {
        return Some(LeaseNotFound);
      }
      error := store.Update(lease.value.(state := state));
    }

    /** Expires every overdue lease and returns it once. */
    method CollectExpired(now: int) returns (expired: seq<Lease>)
      requires Filed(store.leases)
      modifies store
      ensures Filed(store.leases) && ManagerStep(old(store.leases), Collected(now, expired), store.leases)
      ensures |expired| == |OverdueTasks(old(store.leases), now)|
    {
      var active := store.ActiveLeases();
      expired := [];
      ghost var before := store.leases;
      ghost var tasks: seq<TaskId> := [];
      for i := 0 to |active|
        invariant Filed(store.leases)
        invariant CollectedSoFar(before, now, active, i, store.leases, expired)
      {
        CollectStep(before, now, active, i, store.leases, expired);
        if active[i].IsExpired(now) {
          var current := store.Get(active[i].task);
          if current.Some? && current.value.state == Active && current.value.IsExpired(now) {
            var lease := current.value.(state := Expired);
            var error := store.Update(lease);
            expired := expired + [lease];
          }
        }
      }
      CollectedAll(before, now, active, store.leases, expired);
    }
  }

  /** What collect_expired has done after the first i active leases. */
  ghost predicate CollectedSoFar(before: Store, now: int, active: seq<Lease>, i: nat, store: Store,
      expired: seq<Lease>) {
    && i <= |active| && Distinct(active)
    && (forall l :: l in active <==> l.task in before && before[l.task] == l && l.state == Active)
    && store == (map t | t in before :: if before[t].Overdue(now) && before[t] in active[..i]
        then before[t].(state := Expired) else before[t])
    && Distinct(expired)
    && (forall l {:trigger l in expired} :: l in expired <==>
          l.task in before && before[l.task].Overdue(now) && before[l.task] in active[..i]
              && l == before[l.task].(state := Expired))
  }

  lemma CollectStep(before: Store, now: int, active: seq<Lease>, i: nat, store: Store, expired: seq<Lease>)
    requires Filed(before) && i < |active| && CollectedSoFar(before, now, active, i, store, expired)
    ensures active[i].task in store && store[active[i].task] == active[i]
    ensures var l := active[i].(state := Expired);
            if active[i].IsExpired(now)
            then CollectedSoFar(before, now, active, i + 1, store[l.task := l], expired + [l])
            else CollectedSoFar(before, now, active, i + 1, store, expired)
  {
    var a := active[i];
    assert a in active && before[a.task] == a;
    assert active[..i + 1] == active[..i] + [a];
    assert a !in active[..i];
    var l := a.(state := Expired);
    if a.IsExpired(now) {
      assert l !in expired;
      forall t | t in before
        ensures before[t] in active[..i + 1] <==> before[t] in active[..i] || t == a.task
      {
        assert before[t].task == t;
      }
    } else {
      forall t | t in before && before[t].Overdue(now)
        ensures before[t] in active[..i + 1] <==> before[t] in active[..i]
      {
        assert before[t].task == t;
      }
    }
  }

  lemma CollectedAll(before: Store, now: int, active: seq<Lease>, store: Store, expired: seq<Lease>)
    requires Filed(before) && CollectedSoFar(before, now, active, |active|, store, expired)
    ensures ManagerStep(before, Collected(now, expired), store) && |expired| == |OverdueTasks(before, now)|
  {
    assert active[..|active|] == active;
    forall t | t in before && before[t].Overdue(now)
      ensures before[t] in active
    {
      assert before[t].task == t;
    }
    assert store == Swept(before, now);
    ExpiredTasks(before, now, expired);
  }

  ghost function TasksOf(leases: seq<Lease>): seq<TaskId> {
    seq(|leases|, i requires 0 <= i < |leases| => leases[i].task)
  }

  lemma ExpiredTasks(before: Store, now: int, expired: seq<Lease>)
    requires Filed(before) && Distinct(expired)
    requires forall l {:trigger l in expired} :: l in expired <==>
               l.task in before && before[l.task].Overdue(now) && l == before[l.task].(state := Expired)
    ensures |expired| == |OverdueTasks(before, now)|
  {
    var tasks := TasksOf(expired);
    forall i, j | 0 <= i < j < |tasks|
      ensures tasks[i] != tasks[j]
    {
      assert expired[i] in expired && expired[j] in expired;
    }
    forall t
      ensures t in Elements(tasks) <==> t in OverdueTasks(before, now)
    {
      if t in OverdueTasks(before, now) {
        var l := before[t].(state := Expired);
        assert l in expired;
        var i :| 0 <= i < |expired| && expired[i] == l;
        assert tasks[i] == t;
      }
      if t in tasks {
        var i :| 0 <= i < |tasks| && tasks[i] == t;
        assert expired[i] in expired;
      }
    }
    assert Elements(tasks) == OverdueTasks(before, now);
    ElementsCardinality(tasks);
  }

  // ----- runs of manager operations -----

  datatype ManagerOp =
    | Acquired(lease: Lease, acquireError: Option<LeaseError>)
    | RenewedAt(task: TaskId, ttl: nat, now: int, renewError: Option<LeaseError>)
    | Finished(task: TaskId, state: LeaseState, finishError: Option<LeaseError>)
    | Collected(now: int, expired: seq<Lease>)

  /** One manager operation, as a relation between the stores before and after. */
  ghost predicate ManagerStep(store: Store, op: ManagerOp, store': Store) {
    match op
    case Acquired(lease, error) =>
      if lease.task in store then error == Some(AlreadyLeased) && store' == store
      else error == None && store' == store[lease.task := lease]
    case RenewedAt(task, ttl, now, error) =>
      if task in store then error == None && store' == store[task := store[task].Renewed(now, ttl)]
      else error == Some(LeaseNotFound) && store' == store
    case Finished(task, state, error) =>
      state != Active && state != Expired
      && if task in store then error == None && store' == store[task := store[task].(state := state)]
         else error == Some(LeaseNotFound) && store' == store
    case Collected(now, expired) =>
      && store' == Swept(store, now)
      && (forall l {:trigger l in expired} :: l in expired <==>
            l.task in store && store[l.task].Overdue(now) && l == store[l.task].(state := Expired))
      && Distinct(expired)
  }

  /** A run from an empty store; workers acquire the leases they have just created. */
  ghost predicate ManagerRun(stores: seq<Store>, ops: seq<ManagerOp>) {
    && |stores| == |ops| + 1 && stores[0] == map[]
    && (forall i :: 0 <= i < |ops| ==> ManagerStep(stores[i], ops[i], stores[i + 1]))
    && (forall i :: 0 <= i < |ops| && ops[i].Acquired? ==> FreshLease(ops[i].lease))
  }

  ghost predicate FreshLease(l: Lease) {
    exists ttl: nat :: l == NewLease(l.leaseId, l.task, l.worker, ttl, l.attempt, l.acquiredAt)
  }

  lemma {:induction false} RunIsFiled(stores: seq<Store>, ops: seq<ManagerOp>, i: nat)
    requires ManagerRun(stores, ops) && i < |stores|
    ensures Filed(stores[i])
    decreases i
  {
    if i > 0 {
      RunIsFiled(stores, ops, i - 1);
      assert ManagerStep(stores[i - 1], ops[i - 1], stores[i]);
    }
  }

  /** A lease stays, with its identity; once it has left Active it never becomes Active again. */
  lemma {:induction false} NeverActiveAgain(stores: seq<Store>, ops: seq<ManagerOp>, i: nat, j: nat, t: TaskId)
    requires ManagerRun(stores, ops) && i <= j < |stores| && t in stores[i]
    ensures t in stores[j] && stores[j][t].leaseId == stores[i][t].leaseId && stores[j][t].worker == stores[i][t].worker
    ensures stores[i][t].state != Active ==> stores[j][t].state != Active
    decreases j - i
  {
    if i < j {
      NeverActiveAgain(stores, ops, i, j - 1, t);
      assert ManagerStep(stores[j - 1], ops[j - 1], stores[j]);
    }
  }

  predicate Collects(op: ManagerOp, t: TaskId) {
    op.Collected? && exists l :: l in op.expired && l.task == t
  }

  /** collect_expired returns exactly the leases that are Active and past their expiry, and expires them. */
  lemma CollectsExactly(stores: seq<Store>, ops: seq<ManagerOp>, i: nat, t: TaskId)
    requires ManagerRun(stores, ops) && i < |ops| && ops[i].Collected?
    ensures Collects(ops[i], t) <==>
              t in stores[i] && stores[i][t].state == Active && ops[i].now > stores[i][t].expiresAt
    ensures Collects(ops[i], t) ==> stores[i + 1][t].state == Expired
  {
    RunIsFiled(stores, ops, i);
    assert ManagerStep(stores[i], ops[i], stores[i + 1]);
    if t in OverdueTasks(stores[i], ops[i].now) {
      var l := stores[i][t].(state := Expired);
      assert l in ops[i].expired && l.task == t;
    }
  }

  /** Each lease is returned by at most one collection. */
  lemma CollectedOnce(stores: seq<Store>, ops: seq<ManagerOp>, i: nat, j: nat, t: TaskId)
    requires ManagerRun(stores, ops) && i < j < |ops| && ops[i].Collected? && Collects(ops[i], t)
    ensures !Collects(ops[j], t)
  {
    CollectsExactly(stores, ops, i, t);
    NeverActiveAgain(stores, ops, i + 1, j, t);
    if ops[j].Collected? {
      CollectsExactly(stores, ops, j, t);
    }
  }

  predicate Extends(op: ManagerOp, t: TaskId) {
    (op.RenewedAt? && op.task == t) || (op.Acquired? && op.lease.task == t && op.acquireError == None)
  }

  /** The expiry time is set by the last operation that extended the lease. */
  lemma {:induction false} ExpiryFollowsRenewal(stores: seq<Store>, ops: seq<ManagerOp>, k: nat, j: nat, t: TaskId)
    requires ManagerRun(stores, ops) && k < j < |stores| && t in stores[k + 1] && Extends(ops[k], t)
    requires forall i :: k < i < j ==> !Extends(ops[i], t)
    ensures t in stores[j]
    ensures stores[j][t].expiresAt == if ops[k].RenewedAt? then ops[k].now + Span(ops[k].ttl)
        else ops[k].lease.expiresAt
    ensures ops[k].Acquired? ==>
              exists ttl: nat :: ops[k].lease.expiresAt == ops[k].lease.acquiredAt + Span(ttl)
    decreases j
  {
    assert ManagerStep(stores[j - 1], ops[j - 1], stores[j]);
    if j > k + 1 {
      ExpiryFollowsRenewal(stores, ops, k, j - 1, t);
    }
  }

  /** A lease is never collected within the ttl of its last renewal. */
  lemma NotCollectedWithinTtl(stores: seq<Store>, ops: seq<ManagerOp>, k: nat, j: nat, t: TaskId)
    requires ManagerRun(stores, ops) && k < j < |ops| && ops[k].RenewedAt? && ops[k].task == t && t in stores[k]
    requires forall i :: k < i < j ==> !Extends(ops[i], t)
    requires ops[j].Collected? && ops[j].now <= ops[k].now + Span(ops[k].ttl)
    ensures !Collects(ops[j], t)
  {
    assert ManagerStep(stores[k], ops[k], stores[k + 1]);
    ExpiryFollowsRenewal(stores, ops, k, j, t);
    CollectsExactly(stores, ops, j, t);
  }

  // ----- the lease of one task, by the history -----

  /** What one operation makes of the lease of t. A time to live too long for the time library counts as zero. */
  ghost function LeaseNext(before: Option<Lease>, op: ManagerOp, t: TaskId): Option<Lease> {
    if before.None? then if op.Acquired? && op.lease.task == t then Some(op.lease) else None
    else
      var l := before.value;
      match op
      case Acquired(_, _) => before
      case RenewedAt(task, ttl, now, _) =>
        if task == t then Some(l.(expiresAt := now + if ttl > 9_223_372_036_854_775_807 then 0 else ttl)) else before
      case Finished(task, state, _) => if task == t then Some(l.(state := state)) else before
      case Collected(now, _) => if l.state == Active && now > l.expiresAt then Some(l.(state := Expired)) else before
  }

  ghost function LeaseAfter(ops: seq<ManagerOp>, i: nat, t: TaskId): Option<Lease>
    requires i <= |ops|
  {
    if i == 0 then None else LeaseNext(LeaseAfter(ops, i - 1, t), ops[i - 1], t)
  }

  ghost function OnFile(store: Store, t: TaskId): Option<Lease> {
    if t in store then Some(store[t]) else None
  }

  lemma LeaseStep(store: Store, op: ManagerOp, store': Store, t: TaskId)
    requires ManagerStep(store, op, store')
    ensures OnFile(store', t) == LeaseNext(OnFile(store, t), op, t)
  {
  }

  /**
    The lease of a task is what its first acquire made it, and later renewals, endings and collections of it say,
    whatever happens to the leases of others.
   */
  lemma {:induction false} LeaseFollowsHistory(stores: seq<Store>, ops: seq<ManagerOp>, i: nat, t: TaskId)
    requires ManagerRun(stores, ops) && i < |stores|
    ensures OnFile(stores[i], t) == LeaseAfter(ops, i, t)
  {
    if i > 0 {
      LeaseFollowsHistory(stores, ops, i - 1, t);
      assert ManagerStep(stores[i - 1], ops[i - 1], stores[i]);
      LeaseStep(stores[i - 1], ops[i - 1], stores[i], t);
    }
  }
}
