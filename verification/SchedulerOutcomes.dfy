/**
 * What the operations of the scheduler do, in terms that do not depend on how they do it: statuses, amounts, priorities
 * by name, and the clock readings of the history.
 */
module SchedulerOutcomes {
  import opened Core
  import opened SchedulerModel
  import opened SchedulerInvariant
  import opened SchedulerSteps
  import opened SchedulerRuns

  // ----- priorities by name -----

  function Up(p: Priority): Priority {
    match p
    case Low => Normal
    case Normal => High
    case High => Critical
    case Critical => Critical
  }

  function RaisedBy(p: Priority, levels: nat): Priority
    decreases levels
  {
    if levels == 0 then p else RaisedBy(Up(p), levels - 1)
  }

  /** The eight-bit sum wraps around from 253 levels on Critical, 254 on High, 255 on Normal: to Low or a bit above. */
  function Boost(p: Priority, levels: nat): Priority {
    if p == Critical && levels >= 253 then RaisedBy(Low, levels - 253)
    else if p == High && levels >= 254 then RaisedBy(Low, levels - 254)
    else if p == Normal && levels >= 255 then RaisedBy(Low, levels - 255)
    else RaisedBy(p, levels)
  }

  lemma {:induction false} RaisedLevel(p: Priority, levels: nat)
    ensures RaisedBy(p, levels).Level() == if p.Level() + levels > 3 then 3 else p.Level() + levels
    decreases levels
  {
    if levels > 0 {
      RaisedLevel(Up(p), levels - 1);
    }
  }

  lemma BoostByName(p: Priority, levels: nat)
    requires levels < 256
    ensures Boosted(p, levels) == Boost(p, levels)
  {
    RaisedLevel(p, levels);
    if levels >= 253 {
      RaisedLevel(Low, levels - 253);
    }
    if levels >= 254 {
      RaisedLevel(Low, levels - 254);
    }
    if levels >= 255 {
      RaisedLevel(Low, levels - 255);
    }
    LevelsByName(Boosted(p, levels), Boost(p, levels));
  }

  predicate WaitedLongEnough(m: Meta, fairness: FairnessPolicy, aging: nat) {
    fairness.thresholdMs > 0 && aging >= m.since + fairness.thresholdMs
  }

  predicate Overdue(m: Meta, starvation: StarvationPolicy, deadline: nat) {
    starvation.enforce && starvation.maxWaitMs > 0 && deadline >= m.since + starvation.maxWaitMs
  }

  function PriorityAged(m: Meta, fairness: FairnessPolicy, aging: nat): Priority {
    if WaitedLongEnough(m, fairness, aging) then Boost(m.effective, fairness.boostLevels) else m.effective
  }

  /** The priority at which a waiting task takes part in a dequeue that reads the clock for it twice. */
  function DuePriority(m: Meta, fairness: FairnessPolicy, starvation: StarvationPolicy, aging: nat,
                       deadline: nat): Priority {
    var aged := PriorityAged(m, fairness, aging);
    if aged == Low && Overdue(m, starvation, deadline) then Normal else aged
  }

  ghost function Due(s: Sched, t: TaskId, now: Readings): Priority
    requires t in s.nodes
  {
    DuePriority(s.nodes[t].meta, s.fairness, s.starvation, now.aging(t), now.deadline(t))
  }

  lemma RefreshedIsDue(m: Meta, fairness: FairnessPolicy, starvation: StarvationPolicy, aging: nat, deadline: nat)
    requires fairness.Valid()
    ensures Refreshed(m, fairness, starvation, aging, deadline)
         == Meta(m.since, DuePriority(m, fairness, starvation, aging, deadline))
  {
    BoostByName(m.effective, fairness.boostLevels);
    hide Boosted, Boost;
  }

  /** What the metrics count: heap entries that aging raises, and those at Low after aging that are overdue. */
  lemma CountedByName(s: Sched, now: Readings, t: TaskId)
    requires s.fairness.Valid() && t in s.nodes
    ensures var m, aged := s.nodes[t].meta, PriorityAged(s.nodes[t].meta, s.fairness, now.aging(t));
            && (t in Raised(s, now) <==> s.nodes[t].queued && Lower(m.effective, aged))
            && (t in Enforced(s, now) <==>
                s.nodes[t].queued && aged == Low && Overdue(m, s.starvation, now.deadline(t)))
  {
    var m := s.nodes[t].meta;
    BoostByName(m.effective, s.fairness.boostLevels);
    LevelsByName(m.effective, PriorityAged(m, s.fairness, now.aging(t)));
    hide Boosted, Boost;
  }

  // ----- dequeue -----

  predicate Room(pool: Option<Pool>, need: Resources) {
    pool.Some? ==>
      && pool.value.used.cpu + need.cpu <= pool.value.capacity.cpu
      && pool.value.used.memory + need.memory <= pool.value.capacity.memory
      && pool.value.used.gpu + need.gpu <= pool.value.capacity.gpu
  }

  /** Ready, and with room in each of the three amounts. */
  ghost predicate Candidate(s: Sched, t: TaskId) {
    t in s.nodes && s.nodes[t].status == Ready && Room(s.pool, s.nodes[t].task.resources)
  }

  lemma AgedIsDue(s: Sched, now: Readings, t: TaskId)
    requires Inv(s) && t in s.nodes
    ensures var n := AgedState(s, now).nodes[t];
            && n == s.nodes[t].(meta := n.meta)
            && n.meta == if s.nodes[t].queued then Meta(s.nodes[t].meta.since, Due(s, t, now)) else s.nodes[t].meta
    ensures Runnable(AgedState(s, now), t) <==> Candidate(s, t)
    ensures s.nodes[t].status == Ready ==> s.nodes[t].queued
  {
    RefreshedIsDue(s.nodes[t].meta, s.fairness, s.starvation, now.aging(t), now.deadline(t));
    assert s.nodes[t].task.id == t && NodeOk(s.nodes[t]);
    hide Inv, Refreshed, DuePriority;
  }

  /** A candidate that no other outranks: greatest priority by name, and among those the greatest id. */
  ghost predicate FirstChoice(s: Sched, t: TaskId, now: Readings) {
    && Candidate(s, t)
    && forall u :: Candidate(s, u) && u != t ==>
         Lower(Due(s, u, now), Due(s, t, now)) || (Due(s, u, now) == Due(s, t, now) && u < t)
  }

  lemma DequeueChoice(s: Sched, now: Readings, s': Sched, result: Option<Task>)
    requires Inv(s) && Next(s, Op.Dequeue(now, result), s')
    ensures result.None? ==> forall t :: !Candidate(s, t)
    ensures result.Some? ==> FirstChoice(s, result.value.id, now) && result.value == s.nodes[result.value.id].task
  {
    var a := AgedState(s, now);
    hide Inv, AgedState, Candidate, Due, Runnable, Started, Swept;
    forall t
      ensures Runnable(a, t) <==> Candidate(s, t)
    {
      CandidateAged(s, now, t);
    }
    if result.Some? {
      var id := result.value.id;
      CandidateAged(s, now, id);
      forall u | Candidate(s, u) && u != id
        ensures u in s.nodes
        ensures Lower(Due(s, u, now), Due(s, id, now)) || (Due(s, u, now) == Due(s, id, now) && u < id)
      {
        CandidateAged(s, now, u);
        LevelsByName(Due(s, u, now), Due(s, id, now));
      }
    }
  }

  lemma CandidateAged(s: Sched, now: Readings, t: TaskId)
    requires Inv(s)
    ensures Runnable(AgedState(s, now), t) <==> Candidate(s, t)
    ensures Candidate(s, t) ==>
              && t in s.nodes && t in AgedState(s, now).nodes
              && AgedState(s, now).nodes[t].meta.effective == Due(s, t, now)
  {
    if t in s.nodes { AgedIsDue(s, now, t); }
    hide Inv, Due;
  }

  // ----- priorities over runs -----

  lemma DequeueMeta(s: Sched, now: Readings, s': Sched, result: Option<Task>, t: TaskId)
    requires Inv(s) && Next(s, Op.Dequeue(now, result), s') && t in s.nodes
    ensures t in s'.nodes
    ensures s.nodes[t].status == Ready && s'.nodes[t].status == Ready ==>
              s'.nodes[t].meta == Meta(s.nodes[t].meta.since, Due(s, t, now))
  {
    AgedIsDue(s, now, t);
    hide Inv, Due, Best, Runnable;
  }

  /** The policies in force are the last ones that were set. */
  ghost function FairnessSet(first: FairnessPolicy, ops: seq<Op>, i: nat): FairnessPolicy
    requires i <= |ops|
  {
    if i == 0 then first
    else if ops[i - 1].SetFairness? then ops[i - 1].fairness
    else FairnessSet(first, ops, i - 1)
  }

  ghost function StarvationSet(first: StarvationPolicy, ops: seq<Op>, i: nat): StarvationPolicy
    requires i <= |ops|
  {
    if i == 0 then first
    else if ops[i - 1].SetStarvation? then ops[i - 1].starvation
    else StarvationSet(first, ops, i - 1)
  }

  lemma {:induction false} PoliciesInForce(states: seq<Sched>, ops: seq<Op>, i: nat)
    requires Run(states, ops) && i < |states|
    ensures states[i].fairness == FairnessSet(states[0].fairness, ops, i)
    ensures states[i].starvation == StarvationSet(states[0].starvation, ops, i)
    decreases i
  {
    if i > 0 {
      PoliciesInForce(states, ops, i - 1);
      assert Next(states[i - 1], ops[i - 1], states[i]);
    }
  }

  ghost predicate IsReady(s: Sched, t: TaskId) {
    t in s.nodes && s.nodes[t].status == Ready
  }

  /** The operation after which t is Ready: its enqueue, the completion of a dependency, or its requeue. */
  ghost predicate Readies(s: Sched, op: Op, t: TaskId, clock: nat) {
    match op
    case Enqueue(task, now) => t !in s.nodes && task.id == t && clock == now
    case Complete(id, now) => t in s.nodes && id in s.nodes[t].task.dependencies && clock == now(t)
    case Requeue(id, _, now) => id == t && clock == now
    case _ => false
  }

  lemma BecomesReady(s: Sched, op: Op, s': Sched, t: TaskId)
    requires Inv(s) && Next(s, op, s') && IsReady(s', t) && !IsReady(s, t)
    ensures Readies(s, op, t, s'.nodes[t].meta.since)
    ensures s'.nodes[t].meta.effective == s'.nodes[t].task.priority
  {
  }

  lemma StaysReadyMeta(s: Sched, op: Op, s': Sched, t: TaskId)
    requires Inv(s) && Next(s, op, s') && IsReady(s', t) && IsReady(s, t)
    ensures s'.nodes[t].meta == if op.Dequeue? then Meta(s.nodes[t].meta.since, Due(s, t, op.now)) else s.nodes[t].meta
    ensures s'.nodes[t].task.priority == s.nodes[t].task.priority
  {
    if op.Dequeue? {
      DequeueMeta(s, op.now, s', op.result, t);
      TaskStays(s, op, s', t);
    } else {
      OtherKeepsMeta(s, op, s', t);
    }
    hide Inv, Next;
  }

  lemma OtherKeepsMeta(s: Sched, op: Op, s': Sched, t: TaskId)
    requires Next(s, op, s') && !op.Dequeue? && IsReady(s', t) && IsReady(s, t)
    ensures s'.nodes[t].meta == s.nodes[t].meta && s'.nodes[t].task.priority == s.nodes[t].task.priority
  {
  }

  /**
    The priority of t just before operation i, when after operation k it became Ready at time since: its own at first,
    then what each dequeue makes of it under the policies in force.
   */
  ghost function Effective(states: seq<Sched>, ops: seq<Op>, own: Priority, since: nat, k: nat, i: nat,
                           t: TaskId): Priority
    requires k < i < |states| == |ops| + 1
  {
    if i == k + 1 then own
    else
      var p, s, op := Effective(states, ops, own, since, k, i - 1, t), states[i - 1], ops[i - 1];
      if op.Dequeue? then DuePriority(Meta(since, p), s.fairness, s.starvation, op.now.aging(t), op.now.deadline(t))
      else p
  }

  ghost predicate ReadyFrom(states: seq<Sched>, k: nat, i: nat, t: TaskId)
    requires k < i < |states|
  {
    !IsReady(states[k], t) && forall m :: k < m <= i ==> IsReady(states[m], t)
  }

  /** The priority and the waiting time of t in s are those of a task that became Ready after operation k. */
  ghost predicate MetaSince(states: seq<Sched>, ops: seq<Op>, k: nat, i: nat, t: TaskId)
    requires k < i < |states| == |ops| + 1
  {
    t in states[i].nodes &&
    var n := states[i].nodes[t];
    && Readies(states[k], ops[k], t, n.meta.since)
    && n.meta.effective == Effective(states, ops, n.task.priority, n.meta.since, k, i, t)
  }

  /**
    A Ready task has been Ready since some operation k: its enqueue, the completion of a dependency, or its requeue.
    It waits since the clock reading of that operation, and starts with its own priority.
   */
  lemma {:induction false} ReadySince(states: seq<Sched>, ops: seq<Op>, i: nat, t: TaskId) returns (k: nat)
    requires Run(states, ops) && i < |states| && IsReady(states[i], t)
    ensures |states| == |ops| + 1 && k < i && ReadyFrom(states, k, i, t) && MetaSince(states, ops, k, i, t)
    decreases i
  {
    hide Run, Inv, Next, IsReady, MetaSince;
    NotReadyAtFirst(states, ops, t);
    RunStep(states, ops, i - 1);
    if IsReady(states[i - 1], t) {
      k := ReadySince(states, ops, i - 1, t);
      MetaStep(states, ops, k, i, t);
    } else {
      k := i - 1;
      MetaStart(states, ops, k, t);
    }
  }

  lemma MetaStart(states: seq<Sched>, ops: seq<Op>, k: nat, t: TaskId)
    requires |states| == |ops| + 1 && k < |ops| && Inv(states[k]) && Next(states[k], ops[k], states[k + 1])
    requires !IsReady(states[k], t) && IsReady(states[k + 1], t)
    ensures MetaSince(states, ops, k, k + 1, t)
  {
    BecomesReady(states[k], ops[k], states[k + 1], t);
    hide Inv, Next, Readies;
  }

  lemma MetaStep(states: seq<Sched>, ops: seq<Op>, k: nat, i: nat, t: TaskId)
    requires k + 1 < i < |states| == |ops| + 1 && Inv(states[i - 1]) && Next(states[i - 1], ops[i - 1], states[i])
    requires IsReady(states[i - 1], t) && IsReady(states[i], t) && MetaSince(states, ops, k, i - 1, t)
    ensures MetaSince(states, ops, k, i, t)
  {
    var n := states[i - 1].nodes[t];
    StaysReadyMeta(states[i - 1], ops[i - 1], states[i], t);
    EffectiveStep(states, ops, n.task.priority, n.meta.since, k, i, t);
    hide Inv, Next, Readies, Effective, Due;
  }

  lemma NotReadyAtFirst(states: seq<Sched>, ops: seq<Op>, t: TaskId)
    requires Run(states, ops)
    ensures |states| == |ops| + 1 && !IsReady(states[0], t)
  {
  }

  lemma EffectiveStep(states: seq<Sched>, ops: seq<Op>, own: Priority, since: nat, k: nat, i: nat, t: TaskId)
    requires k + 1 < i < |states| == |ops| + 1 && t in states[i - 1].nodes
    requires states[i - 1].nodes[t].meta == Meta(since, Effective(states, ops, own, since, k, i - 1, t))
    ensures Effective(states, ops, own, since, k, i, t) ==
            if ops[i - 1].Dequeue? then Due(states[i - 1], t, ops[i - 1].now)
            else Effective(states, ops, own, since, k, i - 1, t)
  {
    hide DuePriority;
  }

  lemma RunStep(states: seq<Sched>, ops: seq<Op>, i: nat)
    requires Run(states, ops) && i < |ops|
    ensures Inv(states[i]) && Next(states[i], ops[i], states[i + 1]) && Inv(states[i + 1])
  {
    RunKeepsInv(states, ops, i);
    RunKeepsInv(states, ops, i + 1);
  }

  /** Until a dequeue finds that it has waited long enough, or is overdue at Low, a task keeps its own priority. */
  lemma {:induction false} KeepsOwnPriority(states: seq<Sched>, ops: seq<Op>, own: Priority, since: nat, k: nat,
                                            i: nat, t: TaskId)
    requires k < i < |states| == |ops| + 1
    requires forall m {:trigger ops[m]} :: k < m < i && ops[m].Dequeue? ==>
               && !WaitedLongEnough(Meta(since, own), states[m].fairness, ops[m].now.aging(t))
               && !(own == Low && Overdue(Meta(since, own), states[m].starvation, ops[m].now.deadline(t)))
    ensures Effective(states, ops, own, since, k, i, t) == own
    decreases i
  {
    if k + 1 < i {
      KeepsOwnPriority(states, ops, own, since, k, i - 1, t);
      var op := ops[i - 1];
    }
  }

  ghost predicate OwnPriority(n: Node) {
    n.status == Pending || n.status == Running || n.status == Completed ==> n.meta.effective == n.task.priority
  }

  /** A task that waits for others, runs or has completed is at its own priority. */
  lemma {:induction false} OwnPriorityUnlessReady(states: seq<Sched>, ops: seq<Op>, i: nat, t: TaskId)
    requires Run(states, ops) && i < |states| && t in states[i].nodes
    ensures OwnPriority(states[i].nodes[t])
    decreases i
  {
    if i > 0 {
      RunStep(states, ops, i - 1);
      if t in states[i - 1].nodes {
        OwnPriorityUnlessReady(states, ops, i - 1, t);
      }
      OwnPriorityStep(states[i - 1], ops[i - 1], states[i], t);
    }
  }

  lemma OwnPriorityStep(s: Sched, op: Op, s': Sched, t: TaskId)
    requires Inv(s) && Next(s, op, s') && t in s'.nodes && (t in s.nodes ==> OwnPriority(s.nodes[t]))
    ensures OwnPriority(s'.nodes[t])
  {
    if op.Dequeue? {
      AgedIsDue(s, op.now, t);
      assert NodeOk(s.nodes[t]);
      hide Inv, Due, Best, Runnable;
    } else {
      OtherOwnPriority(s, op, s', t);
    }
  }

  lemma OtherOwnPriority(s: Sched, op: Op, s': Sched, t: TaskId)
    requires Next(s, op, s') && !op.Dequeue? && t in s'.nodes && (t in s.nodes ==> OwnPriority(s.nodes[t]))
    ensures OwnPriority(s'.nodes[t])
  {
  }

  // ----- tasks over runs -----

  /** The attempt of the last of these requeues of t, or the first one. */
  ghost function AttemptAfter(ops: seq<Op>, k: nat, i: nat, t: TaskId, first: nat): nat
    requires k <= i <= |ops|
  {
    if i == k then first
    else if ops[i - 1].Requeue? && ops[i - 1].id == t then ops[i - 1].attempt
    else AttemptAfter(ops, k, i - 1, t, first)
  }

  predicate HasEnded(status: Status) {
    status == Completed || status == Failed || status == DependencyFailed
  }

  /** The dependencies of the task that have ended in s. */
  ghost function EndedIn(s: Sched, task: Task): set<TaskId> {
    set d | d in task.dependencies && d in s.nodes && HasEnded(s.nodes[d].status)
  }

  lemma TaskAppears(s: Sched, op: Op, s': Sched, t: TaskId)
    requires Next(s, op, s') && t !in s.nodes && t in s'.nodes
    ensures op.Enqueue? && op.task.id == t && s'.nodes[t].task == op.task && s'.nodes[t].early == EndedIn(s, op.task)
  {
    forall d
      ensures d in Ended(s.nodes, op.task.dependencies) <==> d in EndedIn(s, op.task)
    {
    }
    assert Ended(s.nodes, op.task.dependencies) == EndedIn(s, op.task);
  }

  lemma TaskStays(s: Sched, op: Op, s': Sched, t: TaskId)
    requires Next(s, op, s') && t in s.nodes
    ensures t in s'.nodes && s'.nodes[t].early == s.nodes[t].early
    ensures s'.nodes[t].task == if op.Requeue? && op.id == t then s.nodes[t].task.(attempt := op.attempt)
                                else s.nodes[t].task
  {
  }

  /** Every task is the one that was enqueued, with the attempt of its last requeue. */
  lemma {:induction false} TaskIsAsEnqueued(states: seq<Sched>, ops: seq<Op>, i: nat, t: TaskId) returns (k: nat)
    requires Run(states, ops) && i < |states| && t in states[i].nodes
    ensures k < i && t !in states[k].nodes && ops[k].Enqueue? && ops[k].task.id == t
    ensures var task := ops[k].task;
            && states[i].nodes[t].task == task.(attempt := AttemptAfter(ops, k + 1, i, t, task.attempt))
            && states[i].nodes[t].early == EndedIn(states[k], task)
    decreases i
  {
    assert states[0].nodes == map[];
    RunStep(states, ops, i - 1);
    hide Run, Inv, Next, EndedIn;
    if t in states[i - 1].nodes {
      k := TaskIsAsEnqueued(states, ops, i - 1, t);
      TaskStays(states[i - 1], ops[i - 1], states[i], t);
    } else {
      k := i - 1;
      TaskAppears(states[k], ops[k], states[i], t);
    }
  }

  /** So is every task that is handed out. */
  lemma HandedOutAsEnqueued(states: seq<Sched>, ops: seq<Op>, i: nat) returns (k: nat)
    requires Run(states, ops) && i < |ops| && ops[i].Dequeue? && ops[i].result.Some?
    ensures k < i && ops[k].Enqueue? && ops[k].task.id == ops[i].result.value.id
    ensures var task := ops[k].task;
            ops[i].result.value == task.(attempt := AttemptAfter(ops, k + 1, i, task.id, task.attempt))
  {
    RunStep(states, ops, i);
    DequeueChoice(states[i], ops[i].now, states[i + 1], ops[i].result);
    k := TaskIsAsEnqueued(states, ops, i, ops[i].result.value.id);
  }

  // ----- statuses -----

  /** t depends on id, directly or through Pending tasks, and is Pending itself. */
  ghost predicate PendingBehind(nodes: Nodes, id: TaskId, t: TaskId) {
    exists p :: PendingPath(nodes, id, p) && p[|p| - 1] == t
  }

  ghost predicate PendingPath(nodes: Nodes, id: TaskId, p: seq<TaskId>) {
    && |p| >= 2 && p[0] == id
    && forall k :: 1 <= k < |p| ==>
         p[k] in nodes && nodes[p[k]].status == Pending && p[k - 1] in nodes[p[k]].task.dependencies
  }

  /** Listed once each, none ended at the enqueue, and all but id completed. */
  ghost predicate WaitsForOnly(nodes: Nodes, t: TaskId, id: TaskId)
    requires t in nodes
  {
    var n := nodes[t];
    && n.status == Pending && id in n.task.dependencies && Distinct(n.task.dependencies) && n.early == {}
    && forall d :: d in n.task.dependencies && d != id ==> d in nodes && nodes[d].status == Completed
  }

  ghost predicate CanEnd(nodes: Nodes, id: TaskId) {
    id in nodes && (nodes[id].status == Pending || nodes[id].status == Ready || nodes[id].status == Running)
  }

  ghost predicate IsRunning(nodes: Nodes, id: TaskId) {
    id in nodes && nodes[id].status == Running
  }

  /** The transition table of one task. */
  ghost function StatusAfter(nodes: Nodes, op: Op, t: TaskId): Status
    requires t in nodes
  {
    var before := nodes[t].status;
    match op
    case Complete(id, _) =>
      if !IsRunning(nodes, id) then before
      else if t == id then Completed
      else if WaitsForOnly(nodes, t, id) then Ready
      else before
    case Fail(id) => StatusAfterFailure(nodes, id, t)
    case Discard(id) => StatusAfterFailure(nodes, id, t)
    case Dequeue(_, result) => if result.Some? && result.value.id == t then Running else before
    case Requeue(id, _, _) => if t == id && before == Running then Ready else before
    case _ => before
  }

  ghost function StatusAfterFailure(nodes: Nodes, id: TaskId, t: TaskId): Status
    requires t in nodes
  {
    if !CanEnd(nodes, id) then nodes[t].status
    else if t == id then Failed
    else if PendingBehind(nodes, id, t) then DependencyFailed
    else nodes[t].status
  }

  lemma {:induction false} PendingPathCascades(nodes: Nodes, id: TaskId, p: seq<TaskId>)
    requires PendingPath(nodes, id, p) && p[|p| - 1] != id
    ensures Cascades(nodes, id, p[|p| - 1])
    decreases |p|
  {
    if i :| 1 <= i < |p| && p[i] == id {
      PendingPathCascades(nodes, id, p[i..]);
    } else {
      forall i | 1 <= i < |p|
        ensures DependsOn(nodes, p[i], p[i - 1])
      {
      }
      assert CascadePath(nodes, id, p);
    }
  }

  lemma CascadeIsPendingPath(s: Sched, id: TaskId, p: seq<TaskId>)
    requires Inv(s) && CanFail(s, id) && CascadePath(s.nodes, id, p) && |p| >= 2
    ensures PendingPath(s.nodes, id, p)
  {
    forall k | 1 <= k < |p|
      ensures p[k] in s.nodes && s.nodes[p[k]].status == Pending && p[k - 1] in s.nodes[p[k]].task.dependencies
    {
      assert DependsOn(s.nodes, p[k], p[k - 1]);
      var q := p[..k + 1];
      assert CascadePath(s.nodes, id, q) && q[|q| - 1] == p[k];
      CascadeMeetsPending(s.nodes, id, p[k]);
    }
  }

  lemma CascadeIsPendingBehind(s: Sched, id: TaskId, t: TaskId)
    requires Inv(s) && CanFail(s, id) && t != id
    ensures Cascades(s.nodes, id, t) <==> PendingBehind(s.nodes, id, t)
  {
    if PendingBehind(s.nodes, id, t) {
      var p :| PendingPath(s.nodes, id, p) && p[|p| - 1] == t;
      PendingPathCascades(s.nodes, id, p);
    }
    if Cascades(s.nodes, id, t) {
      var p :| CascadePath(s.nodes, id, p) && |p| >= 2 && p[|p| - 1] == t;
      CascadeIsPendingPath(s, id, p);
    }
  }

  lemma FailureStatus(s: Sched, op: Op, s': Sched, t: TaskId)
    requires Inv(s) && Next(s, op, s') && (op.Fail? || op.Discard?) && t in s.nodes
    ensures t in s'.nodes && s'.nodes[t].status == StatusAfterFailure(s.nodes, op.id, t)
    ensures CanFail(s, op.id) <==> CanEnd(s.nodes, op.id)
  {
    var id := op.id;
    if CanFail(s, id) && t != id {
      CascadeIsPendingBehind(s, id, t);
    }
    hide Inv, Cascades, PendingBehind;
  }

  /** A zero counter, with none of the dependencies ended at the enqueue. */
  lemma CountedDown(nodes: Nodes, t: TaskId)
    requires Counted(nodes) && t in nodes
    ensures nodes[t].inDegree == 0 <==>
            && Distinct(nodes[t].task.dependencies) && nodes[t].early == {}
            && forall d :: d in nodes[t].task.dependencies ==> d in nodes && nodes[d].status == Completed
  {
    CountLemma(nodes, t);
    if nodes[t].early != {} {
      var d := SomeMember(nodes[t].early);
      assert DependsOn(nodes, t, d);
    }
  }

  lemma DependentStatus(s: Sched, id: TaskId, now: TaskId -> nat, t: TaskId)
    requires Inv(s) && CanComplete(s, id) && DependsOn(s.nodes, t, id) && t != id
    ensures t in s.nodes
    ensures CompletedNode(s.nodes, id, t, now).status ==
            if WaitsForOnly(s.nodes, t, id) then Ready else s.nodes[t].status
  {
    CompleteKeepsInv(s, id, now);
    var nodes' := CompletedState(s, id, now).nodes;
    assert nodes'[t] == CompletedNode(s.nodes, id, t, now);
    assert NodeOk(s.nodes[t]) && NodeOk(nodes'[t]);
    CountedDown(nodes', t);
    CompletedNow(s.nodes, id, t, now);
    forall d | d in s.nodes
      ensures nodes'[d].status == Completed <==> d == id || s.nodes[d].status == Completed
    {
      CompletedNow(s.nodes, id, d, now);
    }
    hide Inv;
  }

  lemma CompletionStatus(s: Sched, op: Op, s': Sched, t: TaskId)
    requires Inv(s) && Next(s, op, s') && op.Complete? && t in s.nodes
    ensures t in s'.nodes && s'.nodes[t].status == StatusAfter(s.nodes, op, t)
  {
    if CanComplete(s, op.id) && DependsOn(s.nodes, t, op.id) && t != op.id {
      DependentStatus(s, op.id, op.completedAt, t);
    }
    hide Inv;
  }

  lemma DequeueStatus(s: Sched, op: Op, s': Sched, t: TaskId)
    requires Inv(s) && Next(s, op, s') && op.Dequeue? && t in s.nodes
    ensures t in s'.nodes && s'.nodes[t].status == StatusAfter(s.nodes, op, t)
  {
    AgedIsDue(s, op.now, t);
    hide Inv, Due, Runnable, Best;
  }

  lemma OtherStatus(s: Sched, op: Op, s': Sched, t: TaskId)
    requires Next(s, op, s') && !op.Complete? && !op.Fail? && !op.Discard? && !op.Dequeue? && t in s.nodes
    ensures t in s'.nodes && s'.nodes[t].status == StatusAfter(s.nodes, op, t)
  {
  }

  /** Accepted: new, and all of its dependencies are known. */
  ghost predicate IsNew(nodes: Nodes, op: Op) {
    op.Enqueue? && op.task.id !in nodes && forall d :: d in op.task.dependencies ==> d in nodes
  }

  lemma NewStatus(s: Sched, op: Op, s': Sched)
    requires Next(s, op, s')
    ensures s'.nodes.Keys == if IsNew(s.nodes, op) then s.nodes.Keys + {op.task.id} else s.nodes.Keys
    ensures IsNew(s.nodes, op) ==>
              s'.nodes[op.task.id].status == if op.task.dependencies == [] then Ready else Pending
  {
    hide AgedNode, FailedNode, CompletedNode;
  }

  /**
    In every run each operation changes the statuses exactly as the table says, and only an enqueue of a new task whose
    dependencies are known adds one: Ready if it has no dependencies, Pending otherwise.
   */
  lemma StatusTable(states: seq<Sched>, ops: seq<Op>, i: nat)
    requires Run(states, ops) && i < |ops|
    ensures var s, op, s' := states[i], ops[i], states[i + 1];
            && s'.nodes.Keys == (if IsNew(s.nodes, op) then s.nodes.Keys + {op.task.id} else s.nodes.Keys)
            && (forall t :: t in s.nodes ==> s'.nodes[t].status == StatusAfter(s.nodes, op, t))
            && (IsNew(s.nodes, op) ==>
                s'.nodes[op.task.id].status == if op.task.dependencies == [] then Ready else Pending)
  {
    RunStep(states, ops, i);
    var s, op, s' := states[i], ops[i], states[i + 1];
    NewStatus(s, op, s');
    hide Run, Inv, Next;
    forall t | t in s.nodes
      ensures s'.nodes[t].status == StatusAfter(s.nodes, op, t)
    {
      if op.Fail? || op.Discard? {
        FailureStatus(s, op, s', t);
      } else if op.Complete? {
        CompletionStatus(s, op, s', t);
      } else if op.Dequeue? {
        DequeueStatus(s, op, s', t);
      } else {
        OtherStatus(s, op, s', t);
      }
    }
  }
}
