/** Progress of the scheduler: draining a graph, and how long a ready task can wait. */
module SchedulerProgress {
  import opened Core
  import opened SchedulerModel
  import opened SchedulerInvariant
  import opened SchedulerSteps
  import Graph = TaskGraph
  import opened SchedulerRuns
  import opened SchedulerOutcomes
  import opened DagScheduler

  // ----- draining -----

  ghost predicate CleanNode(n: Node) {
    Distinct(n.task.dependencies) && n.early == {}
  }

  /** Every task listed distinct dependencies, none of which had ended when it was enqueued. */
  ghost predicate Clean(s: Sched) {
    forall t {:trigger s.nodes[t]} :: t in s.nodes ==> CleanNode(s.nodes[t])
  }

  /** Nothing has leaked, and each task fits in an empty pool. */
  ghost predicate Ample(s: Sched) {
    s.pool.Some? ==>
      && s.leaked == NOTHING
      && forall t {:trigger s.nodes[t]} :: t in s.nodes ==> FitsAlone(s.nodes[t].task.resources, s.pool.value.capacity)
  }

  predicate FitsAlone(need: Resources, capacity: Resources) {
    need.cpu <= capacity.cpu && need.memory <= capacity.memory && need.gpu <= capacity.gpu
  }

  ghost predicate Idle(s: Sched) {
    forall t {:trigger s.nodes[t]} :: t in s.nodes ==> s.nodes[t].status != Running
  }

  ghost function Unfinished(s: Sched): set<TaskId> {
    set t | t in s.nodes && !s.nodes[t].status.Terminal()
  }

  lemma {:induction false} IdleUsesNothing(nodes: Nodes, ids: seq<TaskId>, n: nat)
    requires n <= |ids| && forall t {:trigger nodes[t]} :: t in nodes ==> nodes[t].status != Running
    ensures Usage(nodes, ids, n) == NOTHING
  {
    if n > 0 {
      IdleUsesNothing(nodes, ids, n - 1);
    }
  }

  /** The first unfinished task of the enqueue order has only completed dependencies. */
  lemma {:induction false} FirstUnfinishedIsReady(s: Sched, k: nat)
    requires Inv(s) && Clean(s) && Idle(s) && k < |s.order| && s.order[k] in Unfinished(s)
    requires forall m :: 0 <= m < k ==> s.order[m] !in Unfinished(s)
    ensures s.nodes[s.order[k]].status == Ready
  {
    var t := s.order[k];
    if s.nodes[t].status == Pending {
      forall d | d in s.nodes[t].task.dependencies
        ensures d in s.nodes && s.nodes[d].status == Completed
      {
        assert DependsOn(s.nodes, t, d);
        assert Graph.Before(s.order, k, d);
        var m :| 0 <= m < k && s.order[m] == d;
        assert s.order[m] !in Unfinished(s);
      }
      CountLemma(s.nodes, t);
    }
  }

  lemma {:induction false} SomeReady(s: Sched, k: nat, last: nat) returns (t: TaskId)
    requires Inv(s) && Clean(s) && Idle(s) && k <= last < |s.order|
    requires forall m :: 0 <= m < k ==> s.order[m] !in Unfinished(s)
    requires s.order[last] in Unfinished(s)
    ensures t in s.nodes && s.nodes[t].status == Ready
    decreases last - k
  {
    if s.order[k] in Unfinished(s) {
      FirstUnfinishedIsReady(s, k);
      t := s.order[k];
    } else {
      t := SomeReady(s, k + 1, last);
    }
  }

  lemma SomeoneReady(s: Sched) returns (t: TaskId)
    requires Inv(s) && Clean(s) && Idle(s) && Unfinished(s) != {}
    ensures t in s.nodes && s.nodes[t].status == Ready
  {
    var u := SomeMember(Unfinished(s));
    var last :| 0 <= last < |s.order| && s.order[last] == u;
    t := SomeReady(s, 0, last);
  }

  lemma IdlePoolFits(s: Sched, t: TaskId)
    requires Inv(s) && Ample(s) && Idle(s) && t in s.nodes
    ensures CanFit(s.pool, s.nodes[t].task.resources)
  {
    hide Ordered, Counted, NodesOk, FailuresSpread, NoPoolNoHold;
    IdleUsesNothing(s.nodes, s.order, |s.order|);
  }

  /** While nothing runs and something is unfinished, a dequeue hands out a task. */
  lemma DequeueProgresses(s: Sched, now: Readings, s': Sched, result: Option<Task>)
    requires Inv(s) && Clean(s) && Ample(s) && Idle(s) && Unfinished(s) != {} && Dequeued(s, now, s', result)
    ensures result.Some?
  {
    var t := SomeoneReady(s);
    IdlePoolFits(s, t);
    hide Inv, Clean, Ample, Idle, Unfinished, CanFit;
    var a := AgedState(s, now);
    assert a.nodes[t].task == s.nodes[t].task;
    assert Runnable(a, t);
  }

  /** What a dequeue and a completion of id leave of the node of t. */
  ghost predicate RoundNode(n: Node, n2: Node, id: TaskId, t: TaskId) {
    && SameEdges(n, n2)
    && (if t == id then n.status == Ready && n2.status == Completed
        else (n2.status.Terminal() <==> n.status.Terminal()) && (n2.status == Completed <==> n.status == Completed)
             && (n.status != Running ==> n2.status != Running))
  }

  ghost predicate RoundNodes(nodes: Nodes, nodes2: Nodes, id: TaskId) {
    && id in nodes && nodes2.Keys == nodes.Keys
    && forall t {:trigger nodes2[t]} {:trigger nodes[t]} :: t in nodes ==> RoundNode(nodes[t], nodes2[t], id, t)
  }

  lemma RoundChanges(s: Sched, now: Readings, s1: Sched, task: Task, later: TaskId -> nat, s2: Sched)
    requires Dequeued(s, now, s1, Some(task)) && task.id in s1.nodes && s2 == CompletedState(s1, task.id, later)
    ensures RoundNodes(s.nodes, s2.nodes, task.id)
    ensures s2.leaked == s.leaked && (s2.pool.Some? ==> s.pool.Some? && s2.pool.value.capacity == s.pool.value.capacity)
  {
    var a := AgedState(s, now);
    forall t | t in s.nodes
      ensures t in s2.nodes && RoundNode(s.nodes[t], s2.nodes[t], task.id, t)
    {
      assert a.nodes[t] == AgedNode(s, s.nodes[t], now) && s1.nodes[t] == StartedNode(a, task.id, t);
      assert s2.nodes[t] == CompletedNode(s1.nodes, task.id, t, later);
    }
  }

  /** Dequeue then complete finishes exactly one task, whose dependencies were all completed. */
  lemma RoundFinishesOne(s: Sched, id: TaskId, s2: Sched)
    requires Inv(s) && Clean(s) && Ample(s) && Idle(s) && RoundNodes(s.nodes, s2.nodes, id)
    requires s2.leaked == s.leaked && (s2.pool.Some? ==>
        s.pool.Some? && s2.pool.value.capacity == s.pool.value.capacity)
    ensures Clean(s2) && Ample(s2) && Idle(s2) && SameGraph(s.nodes, s2.nodes)
    ensures id in Unfinished(s) && Unfinished(s2) == Unfinished(s) - {id}
    ensures forall d :: d in s.nodes[id].task.dependencies ==> d in s.nodes && s.nodes[d].status == Completed
  {
    UnblockedMeansDone(s.nodes, id);
    forall t
      ensures t in Unfinished(s2) <==> t in Unfinished(s) - {id}
    {
      if t in s.nodes { assert RoundNode(s.nodes[t], s2.nodes[t], id, t); }
    }
  }

  /** In a run whose accepted tasks list distinct dependencies that have not ended, every state is clean. */
  lemma {:induction false} RunIsClean(states: seq<Sched>, ops: seq<Op>, i: nat)
    requires Run(states, ops) && i < |states|
    requires forall k :: 0 <= k < i && ops[k].Enqueue? && Accepted(states[k].nodes, ops[k].task) ==>
               Distinct(ops[k].task.dependencies) && Ended(states[k].nodes, ops[k].task.dependencies) == {}
    ensures Clean(states[i])
    decreases i
  {
    if i > 0 {
      RunIsClean(states, ops, i - 1);
      var s, op, s' := states[i - 1], ops[i - 1], states[i];
      assert Next(s, op, s');
      NextGrows(s, op, s');
      NextAddsNothingElse(s, op, s');
      forall t | t in s'.nodes
        ensures CleanNode(s'.nodes[t])
      {
        if t in s.nodes {
          assert SameEdges(s.nodes[t], s'.nodes[t]);
        }
      }
    }
  }

  lemma NextAddsNothingElse(s: Sched, op: Op, s': Sched)
    requires Next(s, op, s')
    ensures forall t :: t in s'.nodes && t !in s.nodes ==>
              op.Enqueue? && Accepted(s.nodes, op.task) && t == op.task.id
                  && s'.nodes[t] == NewNode(s.nodes, op.task, op.enqueuedAt)
  {
  }

  /**
   * In every run whose accepted tasks list distinct dependencies that have not ended, and where either there is no
   * pool or nothing was requeued and each task fits in an empty pool, a dequeue hands out a task whenever nothing
   * runs and something is unfinished, even after failures.
   */
  lemma RunProgresses(states: seq<Sched>, ops: seq<Op>, i: nat)
    requires Run(states, ops) && i < |ops| && ops[i].Dequeue?
    requires forall k :: 0 <= k < i && ops[k].Enqueue? && Accepted(states[k].nodes, ops[k].task) ==>
               Distinct(ops[k].task.dependencies) && Ended(states[k].nodes, ops[k].task.dependencies) == {}
    requires states[i].pool.Some? ==>
               && (forall k :: 0 <= k < i ==> !ops[k].Requeue?)
               && (forall t :: t in states[i].nodes ==>
                   FitsAlone(states[i].nodes[t].task.resources, states[i].pool.value.capacity))
    requires Idle(states[i]) && Unfinished(states[i]) != {}
    ensures ops[i].result.Some?
  {
    RunKeepsInv(states, ops, i);
    RunIsClean(states, ops, i);
    if states[i].pool.Some? {
      NoRequeueNoLeak(states, ops, i);
    }
    assert Next(states[i], ops[i], states[i + 1]);
    DequeueProgresses(states[i], ops[i].now, states[i + 1], ops[i].result);
  }

  /** The processing loop of the soak test: dequeue and complete, batch times. */
  method ProcessBatch(scheduler: Scheduler, batch: nat, readings: nat -> Readings, clock: nat -> TaskId -> nat)
    returns (done: seq<TaskId>)
    requires scheduler.Valid() && Clean(scheduler.model) && Ample(scheduler.model) && Idle(scheduler.model)
    modifies scheduler
    ensures scheduler.Valid() && Idle(scheduler.model)
    // Each round finishes one task, as long as one is left; each task once.
    ensures |done| == if batch < |Unfinished(old(scheduler.model))| then batch else |Unfinished(old(scheduler.model))|
    ensures Distinct(done) && Elements(done) <= Unfinished(old(scheduler.model))
    ensures Unfinished(scheduler.model) == Unfinished(old(scheduler.model)) - Elements(done)
    ensures forall t :: t in done ==> t in scheduler.model.nodes && scheduler.model.nodes[t].status == Completed
    // Dependencies first.
    ensures InOrder(old(scheduler.model).nodes, done)
  {
    hide Clean, Ample, Idle, Batch, Inv, View, HeapOk, EdgesOk, Next, InOrder, Unfinished;
    done := [];
    BatchEmpty(scheduler.model);
    ghost var start := scheduler.model;
    for i := 0 to batch
      invariant scheduler.Valid() && Clean(scheduler.model) && Ample(scheduler.model) && Idle(scheduler.model)
      invariant Batch(start, scheduler.model, done)
      invariant |done| <= i && (|done| < i ==> Unfinished(scheduler.model) == {})
    {
      ghost var s := scheduler.model;
      var task := scheduler.Dequeue(readings(i));
      if task.Some? {
        ghost var s1 := scheduler.model;
        var ok := scheduler.Complete(task.value.id, clock(i));
        BatchStep(start, s, readings(i), s1, task.value, clock(i), scheduler.model, done);
        done := done + [task.value.id];
      } else {
        IdleDequeue(start, s, readings(i), scheduler.model, done);
      }
    }
    BatchCount(start, scheduler.model, done);
  }

  ghost predicate InOrder(nodes: Nodes, done: seq<TaskId>) {
    forall i, d {:trigger Graph.Before(done, i, d)} :: 0 <= i < |done| && DependsOn(nodes, done[i], d) ==>
      Graph.Before(done, i, d) || (d in nodes && nodes[d].status == Completed)
  }

  /** The tasks of done, and only they, have been completed since the start. */
  ghost predicate Batch(start: Sched, s: Sched, done: seq<TaskId>) {
    && Distinct(done) && Elements(done) <= Unfinished(start)
    && Unfinished(s) == Unfinished(start) - Elements(done)
    && SameGraph(start.nodes, s.nodes)
    && (forall t {:trigger t in done} :: t in s.nodes ==>
        (s.nodes[t].status == Completed <==> t in done || start.nodes[t].status == Completed))
    && InOrder(start.nodes, done)
  }

  lemma BatchEmpty(s: Sched)
    ensures Batch(s, s, [])
  {
  }

  lemma BatchStep(start: Sched, s: Sched, now: Readings, s1: Sched, task: Task, later: TaskId -> nat, s2: Sched,
      done: seq<TaskId>)
    requires Batch(start, s, done) && Inv(s) && Clean(s) && Ample(s) && Idle(s)
    requires Next(s, Op.Dequeue(now, Some(task)), s1) && Inv(s1) && Next(s1, Op.Complete(task.id, later), s2)
    ensures Batch(start, s2, done + [task.id]) && Clean(s2) && Ample(s2) && Idle(s2) && Unfinished(s) != {}
  {
    var id := task.id;
    assert CanComplete(s1, id);
    RoundChanges(s, now, s1, task, later, s2);
    RoundFinishesOne(s, id, s2);
    BatchGrows(start, s, s2, id, done);
  }

  lemma BatchGrows(start: Sched, s: Sched, s2: Sched, id: TaskId, done: seq<TaskId>)
    requires Batch(start, s, done) && RoundNodes(s.nodes, s2.nodes, id)
    requires id in Unfinished(s) && Unfinished(s2) == Unfinished(s) - {id}
    requires forall d :: d in s.nodes[id].task.dependencies ==> d in s.nodes && s.nodes[d].status == Completed
    ensures Batch(start, s2, done + [id])
  {
    assert id !in Elements(done);
    var longer := done + [id];
    assert Elements(longer) == Elements(done) + {id};
    forall i, d | 0 <= i < |longer| && DependsOn(start.nodes, longer[i], d)
      ensures Graph.Before(longer, i, d) || (d in start.nodes && start.nodes[d].status == Completed)
    {
      assert SameEdges(start.nodes[longer[i]], s.nodes[longer[i]]);
      if i < |done| {
        if !(d in start.nodes && start.nodes[d].status == Completed) {
          assert Graph.Before(done, i, d);
          var m :| 0 <= m < i && done[m] == d;
          assert longer[m] == d;
        }
      } else if d in done {
        var m :| 0 <= m < |done| && done[m] == d;
        assert longer[m] == d;
      }
    }
  }

  ghost predicate SameStatuses(nodes: Nodes, nodes': Nodes) {
    SameGraph(nodes, nodes') && forall t {:trigger nodes'[t]} :: t in nodes ==> nodes'[t].status == nodes[t].status
  }

  lemma EmptyDequeueChanges(s: Sched, now: Readings, s': Sched)
    requires Next(s, Op.Dequeue(now, None), s')
    ensures SameStatuses(s.nodes, s'.nodes) && s'.pool == s.pool && s'.leaked == s.leaked
  {
    forall t | t in s.nodes
      ensures t in s'.nodes && SameEdges(s.nodes[t], s'.nodes[t]) && s'.nodes[t].status == s.nodes[t].status
    {
    }
  }

  lemma SameBatch(start: Sched, s: Sched, s': Sched, done: seq<TaskId>)
    requires Batch(start, s, done) && SameStatuses(s.nodes, s'.nodes)
    ensures Batch(start, s', done) && Unfinished(s') == Unfinished(s)
  {
    hide InOrder;
    forall t
      ensures t in Unfinished(s') <==> t in Unfinished(s)
    {
      if t in s.nodes { assert s'.nodes[t].status == s.nodes[t].status; }
    }
    assert Unfinished(s') == Unfinished(s);
    forall t | t in start.nodes
      ensures SameEdges(start.nodes[t], s'.nodes[t])
    {
      assert SameEdges(start.nodes[t], s.nodes[t]) && SameEdges(s.nodes[t], s'.nodes[t]);
    }
  }

  lemma SameAmple(s: Sched, s': Sched)
    requires Clean(s) && Ample(s) && Idle(s) && SameStatuses(s.nodes, s'.nodes)
    requires s'.pool == s.pool && s'.leaked == s.leaked
    ensures Clean(s') && Ample(s') && Idle(s')
  {
    assert forall t {:trigger s'.nodes[t]} :: t in s.nodes ==> SameEdges(s.nodes[t], s'.nodes[t]);
  }

  lemma IdleDequeue(start: Sched, s: Sched, now: Readings, s': Sched, done: seq<TaskId>)
    requires Batch(start, s, done) && Inv(s) && Clean(s) && Ample(s) && Idle(s) && Next(s, Op.Dequeue(now, None), s')
    ensures Unfinished(s) == {} && Batch(start, s', done) && Unfinished(s') == {} && Clean(s') && Ample(s') && Idle(s')
  {
    hide Batch, Inv, Clean, Ample, Idle, Unfinished, SameStatuses, Dequeued;
    if Unfinished(s) != {} {
      DequeueProgresses(s, now, s', None);
    }
    EmptyDequeueChanges(s, now, s');
    SameBatch(start, s, s', done);
    SameAmple(s, s');
  }

  lemma BatchCount(start: Sched, s: Sched, done: seq<TaskId>)
    requires Batch(start, s, done)
    ensures |done| <= |Unfinished(start)|
    ensures Unfinished(s) == {} ==> |done| == |Unfinished(start)|
    ensures |done| == |Unfinished(start)| ==> Unfinished(s) == {}
    ensures Distinct(done) && Elements(done) <= Unfinished(start) && Unfinished(s) == Unfinished(start) - Elements(done)
    ensures forall t :: t in done ==> t in s.nodes && s.nodes[t].status == Completed
    ensures InOrder(start.nodes, done)
  {
    forall t | t in done
      ensures t in s.nodes
    {
      assert t in Elements(done);
    }
    ElementsCardinality(done);
    SubsetCardinality(Elements(done), Unfinished(start));
    if Unfinished(s) == {} {
      forall t | t in Unfinished(start)
        ensures t in Elements(done)
      {
        assert t !in Unfinished(start) - Elements(done);
      }
      assert Elements(done) == Unfinished(start);
    }
  }

  // ----- waiting -----

  /** A boost never lowers a priority exactly when the u8 addition cannot wrap around. */
  lemma BoostNeverLowers(levels: nat)
    requires levels < 256
    ensures (forall p: Priority :: Boosted(p, levels).Level() >= p.Level()) <==> levels <= 252
  {
    if levels > 252 {
      assert (Critical.Level() + levels) % 256 == levels - 253;
      assert Boosted(Critical, levels).Level() < Critical.Level();
    } else {
      forall p: Priority
        ensures Boosted(p, levels).Level() >= p.Level()
      {
      }
    }
  }

  /** A segment of a run, from any state that satisfies the invariant. */
  ghost predicate Segment(states: seq<Sched>, ops: seq<Op>) {
    && |states| == |ops| + 1
    && Inv(states[0])
    && forall i :: 0 <= i < |ops| ==> Next(states[i], ops[i], states[i + 1])
  }

  ghost predicate Waits(s: Sched, t: TaskId) {
    t in s.nodes && s.nodes[t].status == Ready
  }

  /** Ready tasks that come before t at equal priority. */
  ghost function Ahead(s: Sched, t: TaskId): set<TaskId> {
    set u | u in s.nodes && s.nodes[u].status == Ready && u > t
  }

  /** Aging is on and cannot overflow, there is no pool, and by time start t has waited past the threshold. */
  ghost predicate AgingApplies(s: Sched, t: TaskId, start: nat) {
    && s.pool.None?
    && s.fairness.thresholdMs > 0 && 1 <= s.fairness.boostLevels <= 252
    && Waits(s, t) && start >= s.nodes[t].meta.since + s.fairness.thresholdMs
  }

  /** How many dequeues t can still lose. */
  ghost function Patience(s: Sched, t: TaskId): nat
    requires t in s.nodes
  {
    var level := s.nodes[t].meta.effective.Level();
    (if level < 2 then 2 - level else 0) + |Ahead(s, t)|
  }

  lemma LosesToBetter(s: Sched, now: Readings, s': Sched, result: Option<Task>, t: TaskId)
    requires Inv(s) && s.pool.None? && Waits(s, t) && Dequeued(s, now, s', result)
    requires result.Some? ==> result.value.id != t
    ensures s.nodes[t].queued && s.nodes[t].task.id == t && result.Some?
    ensures var a, winner := AgedState(s, now), result.value.id;
            Best(a, winner) && KeyLess(a.nodes, t, winner) && s' == Started(a, winner)
  {
    var a := AgedState(s, now);
    assert s.nodes[t].queued;
    assert a.nodes[t] == AgedNode(s, s.nodes[t], now);
    hide Inv;
    assert Runnable(a, t);
  }

  /** A task that loses does not fall, and rises below High when it loses by priority. */
  lemma LosingRises(s: Sched, now: Readings, s': Sched, winner: TaskId, t: TaskId, start: nat)
    requires AgingApplies(s, t, start) && now.aging(t) >= start && s.nodes[t].queued && s.nodes[t].task.id == t
    requires winner in s.nodes && winner != t && s' == Started(AgedState(s, now), winner)
    requires KeyLess(AgedState(s, now).nodes, t, winner)
    ensures AgingApplies(s', t, start) && s'.nodes[t].meta.since == s.nodes[t].meta.since
    ensures s'.nodes[t].meta.effective.Level() >= s.nodes[t].meta.effective.Level()
    ensures winner < t ==>
              s.nodes[t].meta.effective.Level() < 2
              && s'.nodes[t].meta.effective.Level() > s.nodes[t].meta.effective.Level()
  {
    var a := AgedState(s, now);
    assert a.nodes[t] == AgedNode(s, s.nodes[t], now);
    assert s'.nodes[t] == StartedNode(a, winner, t);
    AgedLevel(s, s.nodes[t], now);
    hide AgedNode, Refreshed;
  }

  lemma LosingDequeue(s: Sched, now: Readings, s': Sched, result: Option<Task>, t: TaskId, start: nat)
    requires Inv(s) && AgingApplies(s, t, start) && now.aging(t) >= start && Dequeued(s, now, s', result)
    requires result.Some? ==> result.value.id != t
    ensures AgingApplies(s', t, start) && s'.nodes[t].meta.since == s.nodes[t].meta.since
    ensures Patience(s', t) < Patience(s, t)
  {
    LosesToBetter(s, now, s', result, t);
    var winner := result.value.id;
    LosingRises(s, now, s', winner, t, start);
    AheadShrinks(s, now, s', winner, t);
    hide Inv, Dequeued, KeyLess;
  }

  /** Past the threshold, one pass of aging raises the priority by a level at least, or leaves it at Critical. */
  lemma AgedLevel(s: Sched, n: Node, now: Readings)
    requires n.queued && s.fairness.thresholdMs > 0 && 1 <= s.fairness.boostLevels <= 252
    requires now.aging(n.task.id) >= n.meta.since + s.fairness.thresholdMs
    ensures AgedNode(s, n, now).meta.since == n.meta.since
    ensures AgedNode(s, n, now).meta.effective.Level() > n.meta.effective.Level()
        || AgedNode(s, n, now).meta.effective == Critical
  {
  }

  lemma AheadShrinks(s: Sched, now: Readings, s': Sched, winner: TaskId, t: TaskId)
    requires Best(AgedState(s, now), winner) && s' == Started(AgedState(s, now), winner)
    ensures Ahead(s', t) == Ahead(s, t) - {winner}
    ensures winner in Ahead(s, t) ==> |Ahead(s', t)| < |Ahead(s, t)|
    ensures |Ahead(s', t)| <= |Ahead(s, t)|
  {
    var a := AgedState(s, now);
    forall u
      ensures u in Ahead(s', t) <==> u in Ahead(s, t) - {winner}
    {
      if u in s.nodes {
        assert a.nodes[u].status == s.nodes[u].status && s'.nodes[u] == StartedNode(a, winner, u);
      }
    }
    SubsetCardinality(Ahead(s', t), Ahead(s, t));
  }

  lemma OtherStep(s: Sched, op: Op, s': Sched, t: TaskId, start: nat)
    requires Inv(s) && AgingApplies(s, t, start) && Next(s, op, s') && !op.Dequeue? && !op.SetFairness?
    requires Waits(s', t)
    ensures AgingApplies(s', t, start) && s'.nodes[t].meta.since == s.nodes[t].meta.since
    ensures Patience(s', t) <= Patience(s, t) + |Ahead(s', t) - Ahead(s, t)|
  {
    WaitingKeepsMeta(s, op, s', t);
    AtMostNew(Ahead(s, t), Ahead(s', t));
  }

  lemma AtMostNew(a: set<TaskId>, b: set<TaskId>)
    ensures |b| <= |a| + |b - a|
  {
    SubsetCardinality(b, a + (b - a));
    assert |a + (b - a)| == |a| + |b - a|;
  }

  lemma WaitingKeepsMeta(s: Sched, op: Op, s': Sched, t: TaskId)
    requires Next(s, op, s') && !op.Dequeue? && Waits(s, t) && Waits(s', t)
    ensures s'.nodes[t].meta == s.nodes[t].meta && s'.pool.None? == s.pool.None?
  {
  }

  ghost function Dequeues(ops: seq<Op>): nat {
    if ops == [] then 0 else Dequeues(ops[..|ops| - 1]) + if ops[|ops| - 1].Dequeue? then 1 else 0
  }

  /** How often a task of greater id becomes Ready during the segment. */
  ghost function Arrivals(states: seq<Sched>, t: TaskId): nat {
    if |states| <= 1 then 0
    else
      var n := |states| - 1;
      Arrivals(states[..n], t) + |Ahead(states[n], t) - Ahead(states[n - 1], t)|
  }

  ghost predicate NotHandedOut(states: seq<Sched>, ops: seq<Op>, t: TaskId, start: nat) {
    && Segment(states, ops)
    && AgingApplies(states[0], t, start)
    && (forall k :: 0 <= k < |ops| ==>
          !HandsOut(ops[k], t) && !ops[k].SetFairness? && (ops[k].Dequeue? ==> ops[k].now.aging(t) >= start))
    && (forall k :: 0 <= k < |states| ==> Waits(states[k], t))
  }

  lemma PatienceStep(s: Sched, op: Op, s': Sched, t: TaskId, start: nat)
    requires Inv(s) && AgingApplies(s, t, start) && Next(s, op, s') && !HandsOut(op, t) && !op.SetFairness?
    requires (op.Dequeue? ==> op.now.aging(t) >= start) && Waits(s', t)
    ensures AgingApplies(s', t, start)
    ensures Patience(s', t) + (if op.Dequeue? then 1 else 0) <= Patience(s, t) + |Ahead(s', t) - Ahead(s, t)|
  {
    if op.Dequeue? {
      LosingDequeue(s, op.now, s', op.result, t, start);
    } else {
      OtherStep(s, op, s', t, start);
    }
  }

  lemma {:induction false} PatienceRunsOut(states: seq<Sched>, ops: seq<Op>, t: TaskId, start: nat)
    requires NotHandedOut(states, ops, t, start)
    ensures Inv(states[|ops|]) && AgingApplies(states[|ops|], t, start)
    ensures Dequeues(ops) + Patience(states[|ops|], t) <= Patience(states[0], t) + Arrivals(states, t)
    decreases |ops|
  {
    if ops != [] {
      var n := |ops| - 1;
      var front := states[..n + 1];
      PatienceRunsOut(front, ops[..n], t, start);
      assert Next(states[n], ops[n], states[n + 1]) && front[n] == states[n] && Waits(states[n + 1], t);
      hide Inv, Next, AgingApplies, Patience, Ahead;
      NextKeepsInv(states[n], ops[n], states[n + 1]);
      PatienceStep(states[n], ops[n], states[n + 1], t, start);
    }
  }

  lemma StaysReady(s: Sched, op: Op, s': Sched, t: TaskId)
    requires Next(s, op, s') && Waits(s, t) && !HandsOut(op, t)
    ensures t in s'.nodes && (s'.nodes[t].status == Ready || s'.nodes[t].status.Dead())
  {
    match op
    case Dequeue(now, result) =>
      var a := AgedState(s, now);
      assert a.nodes[t] == AgedNode(s, s.nodes[t], now);
    case _ =>
  }

  lemma {:induction false} WaitsThroughout(states: seq<Sched>, ops: seq<Op>, t: TaskId, k: nat)
    requires Segment(states, ops) && k < |states| && Waits(states[0], t)
    requires forall i :: 0 <= i < |ops| ==> !HandsOut(ops[i], t)
    requires forall i :: 0 <= i < |states| ==> t in states[i].nodes ==> !states[i].nodes[t].status.Dead()
    ensures Waits(states[k], t)
    decreases k
  {
    if k > 0 {
      WaitsThroughout(states, ops, t, k - 1);
      assert Next(states[k - 1], ops[k - 1], states[k]);
      StaysReady(states[k - 1], ops[k - 1], states[k], t);
    }
  }

  /**
   * Bounded wait: once a Ready task is past the aging threshold it is handed out within 3 + g + a dequeues, unless it
   * fails. g is the number of Ready tasks with a greater id, a how often such a task becomes Ready meanwhile.
   */
  lemma BoundedWait(states: seq<Sched>, ops: seq<Op>, t: TaskId, start: nat)
    requires Segment(states, ops) && AgingApplies(states[0], t, start)
    requires forall k :: 0 <= k < |ops| ==> !ops[k].SetFairness? && (ops[k].Dequeue? ==> ops[k].now.aging(t) >= start)
    requires forall k :: 0 <= k < |states| ==> t in states[k].nodes ==> !states[k].nodes[t].status.Dead()
    requires Dequeues(ops) >= 3 + |Ahead(states[0], t)| + Arrivals(states, t)
    ensures exists k :: 0 <= k < |ops| && HandsOut(ops[k], t)
  {
    if forall k :: 0 <= k < |ops| ==> !HandsOut(ops[k], t) {
      forall k | 0 <= k < |states|
        ensures Waits(states[k], t)
      {
        WaitsThroughout(states, ops, t, k);
      }
      PatienceRunsOut(states, ops, t, start);
    }
  }

  /** In particular within 3 + g dequeues if no such task becomes Ready meanwhile. */
  lemma {:induction false} NoArrivals(states: seq<Sched>, t: TaskId)
    requires forall k, u {:trigger Waits(states[k], u)} ::
               0 < k < |states| && Waits(states[k], u) && u > t ==> Waits(states[k - 1], u)
    ensures Arrivals(states, t) == 0
    decreases |states|
  {
    if |states| > 1 {
      var n := |states| - 1;
      var front := states[..n];
      forall k, u {:trigger Waits(front[k], u)} | 0 < k < |front| && Waits(front[k], u) && u > t
        ensures Waits(front[k - 1], u)
      {
        assert Waits(states[k], u) && Waits(states[k - 1], u);
      }
      NoArrivals(front, t);
      forall u | u in Ahead(states[n], t)
        ensures u in Ahead(states[n - 1], t)
      {
        assert Waits(states[n], u) && Waits(states[n - 1], u);
      }
      assert Ahead(states[n], t) - Ahead(states[n - 1], t) == {};
    }
  }

  lemma StepNeverDrops(s: Sched, op: Op, s': Sched, t: TaskId)
    requires Inv(s) && Next(s, op, s') && Waits(s, t) && Waits(s', t) && s.fairness.boostLevels <= 252
    ensures s'.nodes[t].meta.effective.Level() >= s.nodes[t].meta.effective.Level()
  {
    if op.Dequeue? {
      var a := AgedState(s, op.now);
      assert a.nodes[t] == AgedNode(s, s.nodes[t], op.now);
      BoostNeverLowers(s.fairness.boostLevels);
    } else {
      WaitingKeepsMeta(s, op, s', t);
    }
  }

  /** While a task waits, through any operations, its effective priority never drops. */
  lemma {:induction false} WaitingNeverDrops(states: seq<Sched>, ops: seq<Op>, t: TaskId, i: nat, j: nat)
    requires Segment(states, ops) && i <= j < |states|
    requires forall k :: i <= k <= j ==> Waits(states[k], t) && states[k].fairness.boostLevels <= 252
    ensures t in states[i].nodes && t in states[j].nodes
    ensures states[j].nodes[t].meta.effective.Level() >= states[i].nodes[t].meta.effective.Level()
    decreases j
  {
    hide Inv, Next, Segment;
    assert Waits(states[i], t) && Waits(states[j], t);
    if i < j {
      SegmentStep(states, ops, j - 1);
      assert Waits(states[j - 1], t);
      WaitingNeverDrops(states, ops, t, i, j - 1);
      StepNeverDrops(states[j - 1], ops[j - 1], states[j], t);
    }
  }

  lemma SegmentStep(states: seq<Sched>, ops: seq<Op>, i: nat)
    requires Segment(states, ops) && i + 1 < |states|
    ensures i < |ops| && Inv(states[i]) && Next(states[i], ops[i], states[i + 1])
  {
    SegmentKeepsInv(states, ops, i);
  }

  lemma {:induction false} SegmentKeepsInv(states: seq<Sched>, ops: seq<Op>, i: nat)
    requires Segment(states, ops) && i < |states|
    ensures Inv(states[i])
    decreases i
  {
    if i > 0 {
      SegmentKeepsInv(states, ops, i - 1);
      assert Next(states[i - 1], ops[i - 1], states[i]);
      NextKeepsInv(states[i - 1], ops[i - 1], states[i]);
    }
  }

  // ----- what leaks keep from being handed out -----

  lemma {:induction false} IdleSumsToNothing(nodes: Nodes, ids: seq<TaskId>, n: nat, kind: Kind)
    requires n <= |ids| && forall t {:trigger nodes[t]} :: t in nodes ==> nodes[t].status != Running
    ensures RunningSum(nodes, ids, n, kind) == 0
  {
    if n > 0 {
      IdleSumsToNothing(nodes, ids, n - 1, kind);
    }
  }

  /** While nothing runs, what is used of the pool is exactly what requeues have leaked. */
  lemma IdleUsesLeak(states: seq<Sched>, ops: seq<Op>, i: nat)
    requires Run(states, ops) && i < |states| && Idle(states[i]) && states[i].pool.Some?
    ensures states[i].pool.value.used.cpu == RequeuedTotal(states, ops, i, Cpu)
    ensures states[i].pool.value.used.memory == RequeuedTotal(states, ops, i, Memory)
    ensures states[i].pool.value.used.gpu == RequeuedTotal(states, ops, i, Gpu)
  {
    ResourceSafety(states, ops, i);
    forall kind
      ensures RunningTotal(states[i], kind) == 0
    {
      IdleSumsToNothing(states[i].nodes, states[i].order, |states[i].order|, kind);
    }
  }

  /** So while nothing runs a dequeue hands out a task if and only if some Ready task fits beside the leak. */
  lemma IdleHandsOutExactly(states: seq<Sched>, ops: seq<Op>, i: nat)
    requires Run(states, ops) && i < |ops| && ops[i].Dequeue? && Idle(states[i]) && states[i].pool.Some?
    ensures ops[i].result.Some? <==>
            exists t :: Waits(states[i], t) && !LeakedOut(states, ops, i, t)
  {
    var s, now := states[i], ops[i].now;
    IdleUsesLeak(states, ops, i);
    RunStep(states, ops, i);
    DequeueChoice(s, now, states[i + 1], ops[i].result);
    hide Run, Inv, Next, FirstChoice;
    forall t | Waits(s, t)
      ensures Candidate(s, t) <==> !LeakedOut(states, ops, i, t)
    {
      RoomBesideLeak(states, ops, i, t);
    }
    if ops[i].result.Some? {
      FirstIsCandidate(s, ops[i].result.value.id, now);
    }
  }

  lemma FirstIsCandidate(s: Sched, t: TaskId, now: Readings)
    requires FirstChoice(s, t, now)
    ensures Candidate(s, t) && Waits(s, t)
  {
  }

  lemma RoomBesideLeak(states: seq<Sched>, ops: seq<Op>, i: nat, t: TaskId)
    requires i <= |ops| < |states| && Waits(states[i], t) && states[i].pool.Some?
    requires states[i].pool.value.used.cpu == RequeuedTotal(states, ops, i, Cpu)
    requires states[i].pool.value.used.memory == RequeuedTotal(states, ops, i, Memory)
    requires states[i].pool.value.used.gpu == RequeuedTotal(states, ops, i, Gpu)
    ensures Candidate(states[i], t) <==> !LeakedOut(states, ops, i, t)
  {
    var need, limit := states[i].nodes[t].task.resources, states[i].pool.value.capacity;
    if LeakedOut(states, ops, i, t) {
      var kind :| RequeuedTotal(states, ops, i, kind) + Amount(need, kind) > Amount(limit, kind);
      assert kind == Cpu || kind == Memory || kind == Gpu;
    } else {
      assert RequeuedTotal(states, ops, i, Cpu) + Amount(need, Cpu) <= Amount(limit, Cpu);
      assert RequeuedTotal(states, ops, i, Memory) + Amount(need, Memory) <= Amount(limit, Memory);
      assert RequeuedTotal(states, ops, i, Gpu) + Amount(need, Gpu) <= Amount(limit, Gpu);
    }
  }
}
