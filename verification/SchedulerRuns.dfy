/** What holds over every run of the scheduler, whatever the order of the operations. */
module SchedulerRuns {
  import opened Core
  import opened TaskGraph
  import opened SchedulerModel
  import opened SchedulerInvariant
  import opened SchedulerSteps

  /** states[i + 1] is the state after ops[i]; the first state is an empty scheduler. */
  ghost predicate Run(states: seq<Sched>, ops: seq<Op>) {
    && |states| == |ops| + 1
    && (exists pool, fairness: FairnessPolicy, starvation ::
        fairness.Valid() && states[0] == Empty(pool, fairness, starvation))
    && forall i :: 0 <= i < |ops| ==> Next(states[i], ops[i], states[i + 1])
  }

  lemma {:induction false} RunKeepsInv(states: seq<Sched>, ops: seq<Op>, i: nat)
    requires Run(states, ops) && i < |states|
    ensures Inv(states[i])
    decreases i
  {
    if i == 0 {
      var pool, fairness: FairnessPolicy, starvation :| fairness.Valid()
          && states[0] == Empty(pool, fairness, starvation);
      EmptyInv(states[0], pool, fairness, starvation);
    } else {
      RunKeepsInv(states, ops, i - 1);
      assert Next(states[i - 1], ops[i - 1], states[i]);
      NextKeepsInv(states[i - 1], ops[i - 1], states[i]);
    }
  }

  // ----- the stored graph -----

  ghost function TasksOf(nodes: Nodes): Tasks {
    map t | t in nodes :: nodes[t].task
  }

  /** The stored graph never has a cycle. */
  lemma RunIsAcyclic(states: seq<Sched>, ops: seq<Op>, i: nat)
    requires Run(states, ops) && i < |states|
    ensures Closed(TasksOf(states[i].nodes)) && !HasCycle(TasksOf(states[i].nodes))
  {
    RunKeepsInv(states, ops, i);
    OrderedIsAcyclic(states[i].nodes, states[i].order);
  }

  lemma OrderedIsAcyclic(nodes: Nodes, order: seq<TaskId>)
    requires Ordered(nodes, order)
    ensures Closed(TasksOf(nodes)) && Topological(TasksOf(nodes), order) && !HasCycle(TasksOf(nodes))
  {
    var tasks := TasksOf(nodes);
    forall t, d | t in tasks && d in tasks[t].dependencies
      ensures d in tasks
    {
      assert DependsOn(nodes, t, d);
      DependencyKnown(nodes, order, t, d);
    }
    forall i, d | 0 <= i < |order| && d in tasks[order[i]].dependencies
      ensures Before(order, i, d)
    {
      assert DependsOn(nodes, order[i], d);
    }
    TopologicalIsAcyclic(tasks, order);
  }

  // ----- what never changes -----

  /** A step keeps every task, its dependencies and its history, and never leaves a terminal status. */
  ghost predicate Grows(nodes: Nodes, nodes': Nodes) {
    forall t {:trigger nodes'[t]} {:trigger t in nodes'} :: t in nodes ==>
      t in nodes' && SameEdges(nodes[t], nodes'[t])
      && (nodes[t].status.Terminal() ==> nodes'[t].status == nodes[t].status)
  }

  lemma NextGrows(s: Sched, op: Op, s': Sched)
    requires Next(s, op, s')
    ensures Grows(s.nodes, s'.nodes)
  {
    match op {
      case Fail(id) =>
        if CanFail(s, id) { FailGrows(s, id); }
      case Discard(id) =>
        if CanFail(s, id) { FailGrows(s, id); }
      case Dequeue(now, result) =>
        DequeueGrows(s, now, s', result);
      case _ =>
        hide Grows;
        OtherGrows(s, op, s');
    }
  }

  lemma OtherGrows(s: Sched, op: Op, s': Sched)
    requires Next(s, op, s') && !op.Fail? && !op.Discard? && !op.Dequeue?
    ensures Grows(s.nodes, s'.nodes)
  {
  }

  lemma DequeueGrows(s: Sched, now: Readings, s': Sched, result: Option<Task>)
    requires Dequeued(s, now, s', result)
    ensures Grows(s.nodes, s'.nodes)
  {
  }

  lemma FailGrows(s: Sched, id: TaskId)
    requires CanFail(s, id)
    ensures Grows(s.nodes, FailedState(s, id).nodes)
  {
    forall t | t in s.nodes && Cascades(s.nodes, id, t)
      ensures !s.nodes[t].status.Terminal()
    {
      var d := CascadeStep(s.nodes, id, t);
    }
  }

  lemma {:induction false} RunGrows(states: seq<Sched>, ops: seq<Op>, i: nat, j: nat)
    requires Run(states, ops) && i <= j < |states|
    ensures Grows(states[i].nodes, states[j].nodes)
    decreases j - i
  {
    if i < j {
      RunGrows(states, ops, i, j - 1);
      RunKeepsInv(states, ops, j - 1);
      assert Next(states[j - 1], ops[j - 1], states[j]);
      NextGrows(states[j - 1], ops[j - 1], states[j]);
      var a, b, c := states[i].nodes, states[j - 1].nodes, states[j].nodes;
      forall t | t in a
        ensures t in c && SameEdges(a[t], c[t]) && (a[t].status.Terminal() ==> c[t].status == a[t].status)
      {
        assert t in b && SameEdges(a[t], b[t]);
      }
    }
  }

  // ----- prerequisites -----

  lemma {:induction false} AncestorsDone(s: Sched, p: seq<TaskId>, j: nat)
    requires Inv(s) && IsPath(TasksOf(s.nodes), p) && s.nodes[p[0]].status.Unblocked() && 1 <= j < |p|
    ensures p[j] in s.nodes && s.nodes[p[j]].status == Completed
    decreases j
  {
    var k := j - 1;
    assert p[k + 1] in TasksOf(s.nodes)[p[k]].dependencies;
    assert DependsOn(s.nodes, p[k], p[j]);
    if k > 0 {
      AncestorsDone(s, p, k);
    }
    UnblockedMeansDone(s.nodes, p[k]);
  }

  /** A task that is Ready, Running or Completed has all of its transitive dependencies Completed. */
  lemma PrerequisitesFirst(states: seq<Sched>, ops: seq<Op>, i: nat, p: seq<TaskId>, j: nat)
    requires Run(states, ops) && i < |states|
    requires IsPath(TasksOf(states[i].nodes), p) && states[i].nodes[p[0]].status.Unblocked() && 1 <= j < |p|
    ensures p[j] in states[i].nodes && states[i].nodes[p[j]].status == Completed
  {
    RunKeepsInv(states, ops, i);
    AncestorsDone(states[i], p, j);
  }

  /** A transitive dependent of a task that fails, before or after, never becomes Ready, Running or Completed. */
  lemma DependentsOfFailedNeverRun(states: seq<Sched>, ops: seq<Op>, i: nat, j: nat, p: seq<TaskId>)
    requires Run(states, ops) && i < |states| && j < |states|
    requires IsPath(TasksOf(states[j].nodes), p) && |p| >= 2
    requires p[|p| - 1] in states[i].nodes && states[i].nodes[p[|p| - 1]].status.Dead()
    ensures !states[j].nodes[p[0]].status.Unblocked()
  {
    if states[j].nodes[p[0]].status.Unblocked() {
      PrerequisitesFirst(states, ops, j, p, |p| - 1);
      CompletedNeverDead(states, ops, i, j, p[|p| - 1]);
    }
  }

  lemma CompletedNeverDead(states: seq<Sched>, ops: seq<Op>, i: nat, j: nat, t: TaskId)
    requires Run(states, ops) && i < |states| && j < |states| && t in states[i].nodes && t in states[j].nodes
    requires states[j].nodes[t].status == Completed
    ensures !states[i].nodes[t].status.Dead()
  {
    if i <= j {
      RunGrows(states, ops, i, j);
    } else {
      RunGrows(states, ops, j, i);
    }
    var before, after := states[i].nodes[t].status, states[j].nodes[t].status;
  }

  /** The in-degree is exact and no decrement underflows. */
  lemma InDegreeExact(states: seq<Sched>, ops: seq<Op>, i: nat, t: TaskId)
    requires Run(states, ops) && i < |states| && t in states[i].nodes
    ensures var nodes := states[i].nodes;
            nodes[t].inDegree == |nodes[t].task.dependencies| - |DoneSince(nodes, t)| && nodes[t].inDegree >= 0
    ensures i < |ops| && ops[i].Complete? && CanComplete(states[i], ops[i].id) ==>
              DependsOn(states[i].nodes, t, ops[i].id) ==> states[i].nodes[t].inDegree >= 1
  {
    RunKeepsInv(states, ops, i);
    var nodes := states[i].nodes;
    CountLemma(nodes, t);
    var count := DoneSince(nodes, t);
  }

  /**
   * Once its dependencies are all Completed, a waiting task is Ready if and only if it listed them without
   * repetition and none of them had already ended when it was enqueued. Otherwise it stays Pending for good.
   */
  lemma ReadyExactly(states: seq<Sched>, ops: seq<Op>, i: nat, t: TaskId)
    requires Run(states, ops) && i < |states| && t in states[i].nodes
    requires forall d :: d in states[i].nodes[t].task.dependencies ==>
        d in states[i].nodes && states[i].nodes[d].status == Completed
    requires states[i].nodes[t].status.Open()
    ensures states[i].nodes[t].status == Ready <==>
        Distinct(states[i].nodes[t].task.dependencies) && states[i].nodes[t].early == {}
  {
    RunKeepsInv(states, ops, i);
    var nodes := states[i].nodes;
    CountLemma(nodes, t);
    if nodes[t].early != {} {
      var d := SomeMember(nodes[t].early);
      assert DependsOn(nodes, t, d);
    }
  }

  lemma StuckForever(states: seq<Sched>, ops: seq<Op>, i: nat, j: nat, t: TaskId)
    requires Run(states, ops) && i <= j < |states| && t in states[i].nodes
    requires !Distinct(states[i].nodes[t].task.dependencies) || states[i].nodes[t].early != {}
    ensures t in states[j].nodes && !states[j].nodes[t].status.Unblocked()
  {
    RunGrows(states, ops, i, j);
    RunKeepsInv(states, ops, j);
    var nodes := states[j].nodes;
    assert SameEdges(states[i].nodes[t], nodes[t]);
    CountLemma(nodes, t);
    if nodes[t].early != {} {
      var d := SomeMember(nodes[t].early);
      assert DependsOn(nodes, t, d);
    }
  }

  /** A failure reaches every Pending task that was enqueued before it. */
  lemma FailureReachesPending(states: seq<Sched>, ops: seq<Op>, i: nat, t: TaskId, d: TaskId)
    requires Run(states, ops) && i < |states| && DependsOn(states[i].nodes, t, d) && d in states[i].nodes
    requires states[i].nodes[d].status.Dead() && states[i].nodes[t].status == Pending
    ensures d in states[i].nodes[t].early
  {
    RunKeepsInv(states, ops, i);
  }

  /** Every DependencyFailed task has a transitive dependency that Failed itself. */
  lemma RootCause(states: seq<Sched>, ops: seq<Op>, i: nat, t: TaskId) returns (p: seq<TaskId>)
    requires Run(states, ops) && i < |states| && t in states[i].nodes && states[i].nodes[t].status == DependencyFailed
    ensures IsPath(TasksOf(states[i].nodes), p) && p[0] == t && states[i].nodes[p[|p| - 1]].status == Failed
  {
    RunKeepsInv(states, ops, i);
    var k :| 0 <= k < |states[i].order| && states[i].order[k] == t;
    p := FailedAncestor(states[i].nodes, states[i].order, k);
  }

  lemma {:induction false} FailedAncestor(nodes: Nodes, order: seq<TaskId>, k: nat) returns (p: seq<TaskId>)
    requires Ordered(nodes, order) && FailuresSpread(nodes) && k < |order| && nodes[order[k]].status.Dead()
    ensures IsPath(TasksOf(nodes), p) && p[0] == order[k] && nodes[p[|p| - 1]].status == Failed
    decreases k
  {
    var t := order[k];
    p := [t];
    if nodes[t].status == DependencyFailed {
      assert DeadDependency(nodes, t);
      var d :| DependsOn(nodes, t, d) && d in nodes && nodes[d].status.Dead();
      assert Before(order, k, d);
      var m :| 0 <= m < k && order[m] == d;
      var q := FailedAncestor(nodes, order, m);
      p := [t] + q;
      forall i | 0 <= i < |p| - 1
        ensures p[i + 1] in TasksOf(nodes)[p[i]].dependencies
      {
        if i > 0 {
          assert q[i - 1 + 1] in TasksOf(nodes)[q[i - 1]].dependencies;
        }
      }
    }
  }

  // ----- one execution per enqueue or requeue -----

  predicate Requeues(op: Op, t: TaskId) {
    op.Requeue? && op.id == t
  }

  predicate HandsOut(op: Op, t: TaskId) {
    op.Dequeue? && op.result.Some? && op.result.value.id == t
  }

  ghost predicate Taken(s: Sched, t: TaskId) {
    t in s.nodes && (s.nodes[t].status == Running || s.nodes[t].status.Terminal())
  }

  lemma NextKeepsTaken(states: seq<Sched>, ops: seq<Op>, i: nat, t: TaskId)
    requires Run(states, ops) && i < |ops| && Taken(states[i], t) && !Requeues(ops[i], t)
    ensures Taken(states[i + 1], t)
  {
    var s, op, s' := states[i], ops[i], states[i + 1];
    RunKeepsInv(states, ops, i);
    assert Next(s, op, s');
    NextGrows(s, op, s');
    hide Run;
    if op.Dequeue? {
      DequeueKeepsTaken(s, op, s', t);
    } else {
      OtherKeepsTaken(s, op, s', t);
    }
  }

  lemma DequeueKeepsTaken(s: Sched, op: Op, s': Sched, t: TaskId)
    requires Inv(s) && Next(s, op, s') && op.Dequeue? && Taken(s, t)
    ensures Taken(s', t)
  {
    hide Inv, Runnable, KeyLess;
  }

  lemma OtherKeepsTaken(s: Sched, op: Op, s': Sched, t: TaskId)
    requires Inv(s) && Next(s, op, s') && !op.Dequeue? && !Requeues(op, t) && Taken(s, t)
    ensures Taken(s', t)
  {
    if s.nodes[t].status == Running { assert NodeOk(s.nodes[t]); }
    hide Inv;
  }

  lemma {:induction false} RunKeepsTaken(states: seq<Sched>, ops: seq<Op>, i: nat, j: nat, t: TaskId)
    requires Run(states, ops) && i <= j < |states| && Taken(states[i], t)
    requires forall k :: i <= k < j ==> !Requeues(ops[k], t)
    ensures Taken(states[j], t)
    decreases j - i
  {
    if i < j {
      NextKeepsTaken(states, ops, i, t);
      RunKeepsTaken(states, ops, i + 1, j, t);
    }
  }

  /** The scheduler hands out a task twice only if it was requeued in between. */
  lemma HandedOutOnce(states: seq<Sched>, ops: seq<Op>, i: nat, j: nat, t: TaskId)
    requires Run(states, ops) && i < j < |ops|
    requires HandsOut(ops[i], t) && HandsOut(ops[j], t)
    ensures exists k :: i < k < j && Requeues(ops[k], t)
  {
    assert Next(states[i], ops[i], states[i + 1]) && Next(states[j], ops[j], states[j + 1]);
    if forall k :: i < k < j ==> !Requeues(ops[k], t) {
      RunKeepsTaken(states, ops, i + 1, j, t);
    }
  }

  // ----- resources -----

  datatype Kind = Cpu | Memory | Gpu

  function Amount(r: Resources, kind: Kind): int {
    match kind
    case Cpu => r.cpu
    case Memory => r.memory
    case Gpu => r.gpu
  }

  /** The sum of one amount over the Running ones of the first n tasks of ids. */
  ghost function RunningSum(nodes: Nodes, ids: seq<TaskId>, n: nat, kind: Kind): int
    requires n <= |ids|
  {
    if n == 0 then 0
    else
      var t := ids[n - 1];
      RunningSum(nodes, ids, n - 1, kind)
        + if t in nodes && nodes[t].status == Running then Amount(nodes[t].task.resources, kind) else 0
  }

  ghost function RunningTotal(s: Sched, kind: Kind): int {
    RunningSum(s.nodes, s.order, |s.order|, kind)
  }

  /** The sum of one amount over the first i operations that requeue a Running task. */
  ghost function RequeuedTotal(states: seq<Sched>, ops: seq<Op>, i: nat, kind: Kind): int
    requires i <= |ops| < |states|
  {
    if i == 0 then 0
    else
      var nodes, op := states[i - 1].nodes, ops[i - 1];
      RequeuedTotal(states, ops, i - 1, kind)
        + if op.Requeue? && op.id in nodes && nodes[op.id].status == Running
          then Amount(nodes[op.id].task.resources, kind) else 0
  }

  /** The order of the enqueues lists every task once. */
  ghost predicate ListsTasks(nodes: Nodes, order: seq<TaskId>) {
    Distinct(order) && Elements(order) == nodes.Keys
  }

  /**
    Of each amount, what is used is the sum over the Running tasks and over the requeues of Running tasks so far, and it
    is within the capacity, which is the one the scheduler was made with.
   */
  lemma ResourceSafety(states: seq<Sched>, ops: seq<Op>, i: nat)
    requires Run(states, ops) && i < |states| && states[i].pool.Some?
    ensures states[0].pool.Some? && ListsTasks(states[i].nodes, states[i].order)
    ensures var s, pool, limit := states[i], states[i].pool.value, states[0].pool.value.capacity;
            && pool.used.cpu == RunningTotal(s, Cpu) + RequeuedTotal(states, ops, i, Cpu) <= limit.cpu
            && pool.used.memory == RunningTotal(s, Memory) + RequeuedTotal(states, ops, i, Memory) <= limit.memory
            && pool.used.gpu == RunningTotal(s, Gpu) + RequeuedTotal(states, ops, i, Gpu) <= limit.gpu
  {
    RunKeepsInv(states, ops, i);
    LeakIsRequeued(states, ops, i);
    var s := states[i];
    UsageSums(s.nodes, s.order, |s.order|);
    assert Elements(s.order) == s.nodes.Keys;
  }

  lemma {:induction false} UsageSums(nodes: Nodes, ids: seq<TaskId>, n: nat)
    requires n <= |ids|
    ensures var total := Usage(nodes, ids, n);
            && total.cpu == RunningSum(nodes, ids, n, Cpu)
            && total.memory == RunningSum(nodes, ids, n, Memory)
            && total.gpu == RunningSum(nodes, ids, n, Gpu)
  {
    if n > 0 {
      UsageSums(nodes, ids, n - 1);
    }
  }

  lemma {:induction false} LeakIsRequeued(states: seq<Sched>, ops: seq<Op>, i: nat)
    requires Run(states, ops) && i < |states| && states[i].pool.Some?
    ensures states[0].pool.Some? && states[i].pool.value.capacity == states[0].pool.value.capacity
    ensures states[i].leaked.cpu == RequeuedTotal(states, ops, i, Cpu)
    ensures states[i].leaked.memory == RequeuedTotal(states, ops, i, Memory)
    ensures states[i].leaked.gpu == RequeuedTotal(states, ops, i, Gpu)
    decreases i
  {
    if i > 0 {
      assert Next(states[i - 1], ops[i - 1], states[i]);
      LeakIsRequeued(states, ops, i - 1);
    }
  }

  lemma {:induction false} NoRequeueNoLeak(states: seq<Sched>, ops: seq<Op>, i: nat)
    requires Run(states, ops) && i < |states| && forall k :: 0 <= k < i ==> !ops[k].Requeue?
    ensures states[i].leaked == NOTHING
    decreases i
  {
    if i > 0 {
      NoRequeueNoLeak(states, ops, i - 1);
      assert Next(states[i - 1], ops[i - 1], states[i]);
    }
  }

  lemma {:induction false} LeakGrows(states: seq<Sched>, ops: seq<Op>, i: nat, j: nat)
    requires Run(states, ops) && i <= j < |states|
    ensures states[i].leaked.FitsIn(states[j].leaked)
    ensures states[i].pool.Some? ==>
              states[j].pool.Some? && states[j].pool.value.capacity == states[i].pool.value.capacity
    decreases j - i
  {
    if i < j {
      LeakGrows(states, ops, i, j - 1);
      assert Next(states[j - 1], ops[j - 1], states[j]);
    }
  }

  /** One of the amounts of t does not fit beside what the first i operations have requeued while running. */
  ghost predicate LeakedOut(states: seq<Sched>, ops: seq<Op>, i: nat, t: TaskId)
    requires i <= |ops| < |states| && states[i].pool.Some? && t in states[i].nodes
  {
    exists kind ::
      RequeuedTotal(states, ops, i, kind) + Amount(states[i].nodes[t].task.resources, kind)
        > Amount(states[i].pool.value.capacity, kind)
  }

  /** What requeues have leaked never comes back: a task that no longer fits beside it is never handed out again. */
  lemma LeakBlocksForever(states: seq<Sched>, ops: seq<Op>, i: nat, j: nat, t: TaskId)
    requires Run(states, ops) && i <= j < |ops| && states[i].pool.Some? && t in states[i].nodes
    requires LeakedOut(states, ops, i, t) && ops[j].Dequeue?
    ensures !HandsOut(ops[j], t)
  {
    LeakIsRequeued(states, ops, i);
    LeakGrows(states, ops, i, j);
    RunGrows(states, ops, i, j);
    RunKeepsInv(states, ops, j);
    assert SameEdges(states[i].nodes[t], states[j].nodes[t]);
    assert Next(states[j], ops[j], states[j + 1]);
    var a := AgedState(states[j], ops[j].now);
    assert a.nodes[t].task == states[j].nodes[t].task;
    assert RunningUsage(states[j]).NonNegative();
  }

  // ----- runs in which these things happen -----

  const ONE_CORE: Resources := Amounts(1000, 0, 0)
  const AGING: FairnessPolicy := FairnessPolicy(0, 1)
  const DEADLINE: StarvationPolicy := StarvationPolicy(false, 0)

  function Plain(id: TaskId, dependencies: seq<TaskId>): Task {
    Task(id, Normal, dependencies, ONE_CORE, 0)
  }

  /** Enqueue and dequeue of a task without dependencies, over any pool it fits in. */
  lemma FirstHandOut(pool: Option<Resources>) returns (states: seq<Sched>, ops: seq<Op>)
    requires pool.Some? ==> ONE_CORE.FitsIn(pool.value)
    ensures Run(states, ops) && |ops| == 2 && HandsOut(ops[1], 0)
    ensures states[2].nodes.Keys == {0} && states[2].nodes[0].status == Running
        && states[2].nodes[0].task == Plain(0, [])
    ensures states[2].pool.Some? == pool.Some? && (pool.Some? ==> states[2].pool.value.capacity == pool.value)
  {
    var t := Plain(0, []);
    var s0 := Empty(pool, AGING, DEADLINE);
    var s1 := Enqueued(s0, t, 0);
    var now := Readings(_ => 0, _ => 0);
    var a := AgedState(s1, now);
    assert Accepted(s0.nodes, t) && a.nodes.Keys == {0} && a.nodes[0].status == Ready;
    assert Best(a, 0);
    var s2 := Started(a, 0);
    states, ops := [s0, s1, s2], [Op.Enqueue(t, 0), Op.Dequeue(now, Some(t))];
    assert Next(s0, ops[0], s1) && Next(s1, ops[1], s2);
  }

  /** One task that is handed out and requeued leaks all of a pool that it fills, and is never handed out again. */
  lemma LeakHappens() returns (states: seq<Sched>, ops: seq<Op>)
    ensures Run(states, ops) && |ops| == 3 && states[3].pool.Some? && 0 in states[3].nodes
        && states[3].nodes[0].status == Ready
    ensures LeakedOut(states, ops, 3, 0)
  {
    states, ops := FirstHandOut(Some(ONE_CORE));
    var op := Op.Requeue(0, 1, 0);
    var s := RequeuedState(states[2], 0, 1, 0);
    assert Next(states[2], op, s);
    states, ops := Extended(states, ops, op, s);
    LeakIsRequeued(states, ops, 2);
    LeakIsRequeued(states, ops, 3);
    assert RequeuedTotal(states, ops, 3, Cpu) + Amount(ONE_CORE, Cpu) > Amount(states[3].pool.value.capacity, Cpu);
  }

  lemma Extended(states: seq<Sched>, ops: seq<Op>, op: Op, s: Sched) returns (states': seq<Sched>, ops': seq<Op>)
    requires Run(states, ops) && Next(states[|ops|], op, s)
    ensures Run(states', ops') && states' == states + [s] && ops' == ops + [op]
  {
    states', ops' := states + [s], ops + [op];
    forall i | 0 <= i < |ops'|
      ensures Next(states'[i], ops'[i], states'[i + 1])
    {
      if i < |ops| { assert Next(states[i], ops[i], states[i + 1]); }
    }
    assert states'[0] == states[0];
  }

  /** A task that lists a dependency twice, and one that lists a completed one, both stay Pending. */
  lemma StuckHappens() returns (states: seq<Sched>, ops: seq<Op>)
    ensures Run(states, ops) && |ops| == 5 && {0, 1, 2} <= states[5].nodes.Keys
        && states[5].nodes[0].status == Completed
    ensures states[5].nodes[1].task.dependencies == [0, 0] && states[5].nodes[1].status == Pending
    ensures states[5].nodes[2].task.dependencies == [0] && states[5].nodes[2].early == {0}
        && states[5].nodes[2].status == Pending
  {
    states, ops := FirstHandOut(None);
    var twice, late := Plain(1, [0, 0]), Plain(2, [0]);
    var s3 := Enqueued(states[2], twice, 0);
    assert Accepted(states[2].nodes, twice);
    states, ops := Extended(states, ops, Op.Enqueue(twice, 0), s3);
    var s4 := CompletedState(s3, 0, _ => 0);
    assert CanComplete(s3, 0);
    states, ops := Extended(states, ops, Op.Complete(0, _ => 0), s4);
    assert DependsOn(s3.nodes, 1, 0) && s3.nodes[1].inDegree == 2;
    assert s4.nodes[1].status == Pending && s4.nodes[0].status == Completed;
    var s5 := Enqueued(s4, late, 0);
    assert Accepted(s4.nodes, late);
    states, ops := Extended(states, ops, Op.Enqueue(late, 0), s5);
    assert Ended(s4.nodes, [0]) == {0};
  }
}
