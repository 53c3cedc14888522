/** Every scheduler operation keeps the invariant, one conjunct at a time. */
module SchedulerSteps {
  import opened Core
  import opened TaskGraph
  import opened SchedulerModel
  import opened SchedulerInvariant

  lemma EmptyInv(s: Sched, pool: Option<Resources>, fairness: FairnessPolicy, starvation: StarvationPolicy)
    requires s == Empty(pool, fairness, starvation) && fairness.Valid()
    ensures Inv(s)
  {
  }

  // ----- operations that leave the graph alone -----

  predicate SameEdges(a: Node, b: Node) {
    a.task.id == b.task.id && a.task.dependencies == b.task.dependencies && a.task.resources == b.task.resources
        && a.early == b.early
  }

  ghost predicate SameGraph(nodes: Nodes, nodes': Nodes) {
    && nodes'.Keys == nodes.Keys
    && forall t {:trigger nodes'[t]} :: t in nodes ==> SameEdges(nodes[t], nodes'[t])
  }

  lemma OrderedKept(nodes: Nodes, nodes': Nodes, order: seq<TaskId>)
    requires Ordered(nodes, order) && SameGraph(nodes, nodes')
    ensures Ordered(nodes', order)
  {
    forall i, d | 0 <= i < |order| && DependsOn(nodes', order[i], d)
      ensures Before(order, i, d)
    {
      assert DependsOn(nodes, order[i], d);
    }
  }

  /** Counts stay right while no task enters or leaves Completed. */
  lemma CountedKept(nodes: Nodes, nodes': Nodes)
    requires SameGraph(nodes, nodes') && Counted(nodes)
    requires forall t {:trigger nodes'[t]} {:trigger nodes[t]} :: t in nodes ==>
      && (nodes'[t].status == Completed <==> nodes[t].status == Completed)
      && (nodes[t].status.Terminal() ==> nodes'[t].status.Terminal())
      && nodes'[t].inDegree == nodes[t].inDegree
    ensures Counted(nodes')
  {
    forall t | t in nodes
      ensures DoneSince(nodes', t) == DoneSince(nodes, t)
    {
      assert SameEdges(nodes[t], nodes'[t]);
      forall d | d in nodes[t].task.dependencies
        ensures d in DoneSince(nodes', t) <==> d in DoneSince(nodes, t)
      {
        if d in nodes {
          assert SameEdges(nodes[d], nodes'[d]);
        }
      }
    }
    forall t, d | t in nodes && d in nodes'[t].early
      ensures DependsOn(nodes', t, d) && d in nodes' && nodes'[d].status.Terminal()
    {
      assert DependsOn(nodes, t, d);
    }
  }

  lemma FailuresKept(nodes: Nodes, nodes': Nodes)
    requires SameGraph(nodes, nodes') && FailuresSpread(nodes)
    requires forall t {:trigger nodes'[t]} :: t in nodes ==>
      && (nodes'[t].status.Dead() <==> nodes[t].status.Dead())
      && (nodes'[t].status == Pending ==> nodes[t].status == Pending)
      && (nodes'[t].status == DependencyFailed ==> nodes[t].status == DependencyFailed)
    ensures FailuresSpread(nodes')
  {
    forall t, d | DependsOn(nodes', t, d) && nodes'[t].status == Pending && d in nodes' && nodes'[d].status.Dead()
      ensures d in nodes'[t].early
    {
      assert DependsOn(nodes, t, d);
    }
    forall t | t in nodes && nodes'[t].status == DependencyFailed
      ensures DeadDependency(nodes', t)
    {
      assert DeadDependency(nodes, t);
      var d :| DependsOn(nodes, t, d) && d in nodes && nodes[d].status.Dead();
      assert DependsOn(nodes', t, d);
    }
  }

  lemma PoolKept(s: Sched, s': Sched)
    requires Ordered(s.nodes, s.order) && PoolExact(s) && s'.nodes.Keys == s.nodes.Keys
    requires s'.pool == s.pool && s'.leaked == s.leaked && s'.order == s.order
    requires forall t {:trigger s'.nodes[t]} :: t in s.nodes ==>
      SameLoad(s.nodes[t], s'.nodes[t]) && (s'.nodes[t].status == Running ==> s'.nodes[t].held == s.nodes[t].held)
    ensures PoolExact(s')
  {
    UsageExtensional(s.nodes, s.order, s'.nodes, s'.order, |s.order|);
  }

  /** A running task that ends gives back exactly what it holds. */
  lemma PoolAfterStop(s: Sched, id: TaskId, s': Sched)
    requires Ordered(s.nodes, s.order) && PoolExact(s) && s'.nodes.Keys == s.nodes.Keys
    requires CanComplete(s, id) && s'.nodes[id].status != Running
    requires s'.order == s.order && s'.leaked == s.leaked && s'.pool == ReleasePool(s.pool, s.nodes[id].held)
    requires forall t {:trigger s'.nodes[t]} :: t in s.nodes && t != id ==>
      SameLoad(s.nodes[t], s'.nodes[t]) && s'.nodes[t].held == s.nodes[t].held
    ensures PoolExact(s')
  {
    var k :| 0 <= k < |s.order| && s.order[k] == id;
    UsageStops(s.nodes, s'.nodes, s.order, |s.order|, k);
  }

  // ----- enqueue -----

  lemma EnqueueKeepsOrder(s: Sched, task: Task, now: nat)
    requires Ordered(s.nodes, s.order) && Accepted(s.nodes, task)
    ensures Ordered(Enqueued(s, task, now).nodes, s.order + [task.id])
  {
    var nodes, order := Enqueued(s, task, now).nodes, s.order + [task.id];
    forall i, d | 0 <= i < |order| && DependsOn(nodes, order[i], d)
      ensures Before(order, i, d)
    {
      if i < |s.order| {
        assert DependsOn(s.nodes, order[i], d);
        assert Before(s.order, i, d);
        var m :| 0 <= m < i && s.order[m] == d;
        assert order[m] == d;
      } else {
        assert d in s.nodes;
        var m :| 0 <= m < |s.order| && s.order[m] == d;
        assert order[m] == d;
      }
    }
  }

  lemma EnqueueKeepsCounts(s: Sched, task: Task, now: nat)
    requires Ordered(s.nodes, s.order) && Counted(s.nodes) && Accepted(s.nodes, task)
    ensures Counted(Enqueued(s, task, now).nodes)
  {
    var nodes := Enqueued(s, task, now).nodes;
    forall t | t in s.nodes
      ensures DoneSince(nodes, t) == DoneSince(s.nodes, t)
    {
      forall d | d in s.nodes[t].task.dependencies
        ensures d in s.nodes && d != task.id
      {
        DependencyKnown(s.nodes, s.order, t, d);
      }
    }
    forall d | d in task.dependencies
      ensures d !in DoneSince(nodes, task.id)
    {
      assert d in s.nodes && nodes[d] == s.nodes[d];
    }
    assert DoneSince(nodes, task.id) == {};
    forall t, d | t in nodes && d in nodes[t].early
      ensures DependsOn(nodes, t, d) && d in nodes && nodes[d].status.Terminal()
    {
      assert t in s.nodes ==> DependsOn(s.nodes, t, d);
    }
  }

  lemma EnqueueKeepsFailures(s: Sched, task: Task, now: nat)
    requires Ordered(s.nodes, s.order) && FailuresSpread(s.nodes) && Accepted(s.nodes, task)
    ensures FailuresSpread(Enqueued(s, task, now).nodes)
  {
    var nodes := Enqueued(s, task, now).nodes;
    forall t, d | DependsOn(nodes, t, d) && nodes[t].status == Pending && d in nodes && nodes[d].status.Dead()
      ensures d in nodes[t].early
    {
      if t != task.id {
        assert DependsOn(s.nodes, t, d);
        DependencyKnown(s.nodes, s.order, t, d);
      }
    }
    forall t | t in s.nodes && s.nodes[t].status == DependencyFailed
      ensures DeadDependency(nodes, t)
    {
      assert DeadDependency(s.nodes, t);
      var d :| DependsOn(s.nodes, t, d) && d in s.nodes && s.nodes[d].status.Dead();
      assert DependsOn(nodes, t, d);
    }
  }

  lemma EnqueueKeepsPool(s: Sched, task: Task, now: nat)
    requires Inv(s) && Accepted(s.nodes, task)
    ensures PoolExact(Enqueued(s, task, now)) && NoPoolNoHold(Enqueued(s, task, now))
  {
    hide Counted, FailuresSpread, NodesOk;
    var s' := Enqueued(s, task, now);
    UsageExtensional(s.nodes, s.order, s'.nodes, s'.order, |s.order|);
  }

  lemma EnqueueKeepsNodes(s: Sched, task: Task, now: nat)
    requires Inv(s) && Accepted(s.nodes, task)
    ensures NodesOk(Enqueued(s, task, now).nodes)
  {
    hide Counted, FailuresSpread, Ordered, PoolExact, Ended;
  }

  lemma EnqueueKeepsInv(s: Sched, task: Task, now: nat)
    requires Inv(s) && Accepted(s.nodes, task)
    ensures Inv(Enqueued(s, task, now))
  {
    EnqueueKeepsOrder(s, task, now);
    EnqueueKeepsCounts(s, task, now);
    EnqueueKeepsFailures(s, task, now);
    EnqueueKeepsPool(s, task, now);
    EnqueueKeepsNodes(s, task, now);
    hide Ordered, Counted, NodesOk, FailuresSpread, PoolExact, NoPoolNoHold, NewNode;
  }

  // ----- complete -----

  lemma RunningIsNotEarly(nodes: Nodes, t: TaskId, id: TaskId)
    requires Counted(nodes) && t in nodes && id in nodes && !nodes[id].status.Terminal()
    ensures id !in nodes[t].early
  {
    var listed := DependsOn(nodes, t, id);
  }

  lemma CompletedNow(nodes: Nodes, id: TaskId, d: TaskId, now: TaskId -> nat)
    requires id in nodes && d in nodes
    ensures CompletedNode(nodes, id, d, now).status == Completed <==> d == id || nodes[d].status == Completed
    ensures SameEdges(nodes[d], CompletedNode(nodes, id, d, now))
  {
  }

  lemma SeenGrows(nodes: Nodes, id: TaskId, nodes': Nodes, t: TaskId)
    requires id in nodes && nodes[id].status != Completed && t in nodes && id !in nodes[t].early
    requires nodes'.Keys == nodes.Keys && SameEdges(nodes[t], nodes'[t])
    requires forall d :: d in nodes ==> (nodes'[d].status == Completed <==> d == id || nodes[d].status == Completed)
    ensures DoneSince(nodes', t) == if DependsOn(nodes, t, id) then DoneSince(nodes, t) + {id} else DoneSince(nodes, t)
    ensures id !in DoneSince(nodes, t)
  {
    var more := if DependsOn(nodes, t, id) then {id} else {};
    forall d
      ensures d in DoneSince(nodes', t) <==> d in DoneSince(nodes, t) + more
    {
    }
    assert DoneSince(nodes', t) == DoneSince(nodes, t) + more;
  }

  /** A completion adds itself to what its dependents have seen completed, and changes nothing for the others. */
  lemma CompletionSeen(nodes: Nodes, id: TaskId, nodes': Nodes, now: TaskId -> nat, t: TaskId)
    requires Counted(nodes) && id in nodes && nodes[id].status == Running && t in nodes
    requires nodes' == map t | t in nodes :: CompletedNode(nodes, id, t, now)
    ensures DoneSince(nodes', t) == if DependsOn(nodes, t, id) then DoneSince(nodes, t) + {id} else DoneSince(nodes, t)
    ensures id !in DoneSince(nodes, t)
  {
    RunningIsNotEarly(nodes, t, id);
    hide Counted, CompletedNode, DoneSince, DependsOn, SameEdges;
    CompletedNow(nodes, id, t, now);
    forall d | d in nodes
      ensures nodes'[d].status == Completed <==> d == id || nodes[d].status == Completed
    {
      CompletedNow(nodes, id, d, now);
    }
    SeenGrows(nodes, id, nodes', t);
  }

  lemma CompletionCount(nodes: Nodes, order: seq<TaskId>, id: TaskId, nodes': Nodes, now: TaskId -> nat, t: TaskId)
    requires Ordered(nodes, order) && Counted(nodes) && id in nodes && nodes[id].status == Running && t in nodes
    requires nodes' == map t | t in nodes :: CompletedNode(nodes, id, t, now)
    ensures nodes'[t].inDegree == |nodes'[t].task.dependencies| - |DoneSince(nodes', t)|
    ensures DependsOn(nodes, t, id) ==> nodes[t].inDegree > 0
  {
    CompletionSeen(nodes, id, nodes', now, t);
    CountLemma(nodes, t);
    if DependsOn(nodes, t, id) {
      DependencyKnown(nodes, order, t, id);
    }
    hide DoneSince, Ordered;
  }

  lemma CompleteKeepsEarly(nodes: Nodes, id: TaskId, nodes': Nodes, now: TaskId -> nat)
    requires Counted(nodes) && id in nodes && nodes[id].status == Running
    requires nodes' == map t | t in nodes :: CompletedNode(nodes, id, t, now)
    ensures forall t, d :: t in nodes && d in nodes'[t].early ==>
        DependsOn(nodes', t, d) && d in nodes' && nodes'[d].status.Terminal()
  {
    hide DoneSince;
    forall t, d | t in nodes && d in nodes'[t].early
      ensures DependsOn(nodes', t, d) && d in nodes' && nodes'[d].status.Terminal()
    {
      assert DependsOn(nodes, t, d);
    }
  }

  /** Every counter is exact again, and every counter that was decremented was positive. */
  lemma CompleteKeepsCounts(nodes: Nodes, order: seq<TaskId>, id: TaskId, nodes': Nodes, now: TaskId -> nat)
    requires Ordered(nodes, order) && Counted(nodes) && id in nodes && nodes[id].status == Running
    requires nodes' == map t | t in nodes :: CompletedNode(nodes, id, t, now)
    ensures Counted(nodes')
    ensures forall t :: DependsOn(nodes, t, id) ==> nodes[t].inDegree > 0
  {
    hide DoneSince, Ordered, CompletedNode;
    forall t | t in nodes
      ensures nodes'[t].inDegree == |nodes'[t].task.dependencies| - |DoneSince(nodes', t)|
      ensures DependsOn(nodes, t, id) ==> nodes[t].inDegree > 0
    {
      CompletionCount(nodes, order, id, nodes', now, t);
    }
    CompleteKeepsEarly(nodes, id, nodes', now);
  }

  lemma CompleteKeepsOrder(s: Sched, id: TaskId, now: TaskId -> nat)
    requires Inv(s) && CanComplete(s, id)
    ensures Ordered(CompletedState(s, id, now).nodes, s.order)
  {
    hide Counted, FailuresSpread, PoolExact, Ordered;
    OrderedKept(s.nodes, CompletedState(s, id, now).nodes, s.order);
  }

  lemma CompleteKeepsNodes(s: Sched, id: TaskId, now: TaskId -> nat)
    requires Inv(s) && CanComplete(s, id)
    ensures NodesOk(CompletedState(s, id, now).nodes) && Counted(CompletedState(s, id, now).nodes)
  {
    hide FailuresSpread, PoolExact, Ordered, Counted;
    CompleteKeepsCounts(s.nodes, s.order, id, CompletedState(s, id, now).nodes, now);
  }

  lemma CompleteKeepsFailures(s: Sched, id: TaskId, now: TaskId -> nat)
    requires Inv(s) && CanComplete(s, id)
    ensures FailuresSpread(CompletedState(s, id, now).nodes)
  {
    hide PoolExact, Counted, Ordered, FailuresSpread, NoPoolNoHold;
    FailuresKept(s.nodes, CompletedState(s, id, now).nodes);
  }

  lemma CompleteKeepsPool(s: Sched, id: TaskId, now: TaskId -> nat)
    requires Inv(s) && CanComplete(s, id)
    ensures PoolExact(CompletedState(s, id, now)) && NoPoolNoHold(CompletedState(s, id, now))
  {
    hide FailuresSpread, Counted;
    PoolAfterStop(s, id, CompletedState(s, id, now));
  }

  lemma CompleteKeepsInv(s: Sched, id: TaskId, now: TaskId -> nat)
    requires Inv(s) && CanComplete(s, id)
    ensures Inv(CompletedState(s, id, now))
  {
    CompleteKeepsOrder(s, id, now);
    CompleteKeepsNodes(s, id, now);
    CompleteKeepsFailures(s, id, now);
    CompleteKeepsPool(s, id, now);
    hide Ordered, Counted, NodesOk, FailuresSpread, PoolExact, NoPoolNoHold, CompletedNode;
  }

  // ----- fail -----

  lemma CascadeExtends(nodes: Nodes, id: TaskId, t: TaskId, d: TaskId)
    requires d == id || Cascades(nodes, id, d)
    requires DependsOn(nodes, t, d) && nodes[t].status.Open() && t != id
    ensures Cascades(nodes, id, t)
  {
    var p := [id];
    if d != id {
      p :| CascadePath(nodes, id, p) && |p| >= 2 && p[|p| - 1] == d;
    }
    var q := p + [t];
    assert CascadePath(nodes, id, q) && |q| >= 2 && q[|q| - 1] == t;
  }

  lemma CascadeStep(nodes: Nodes, id: TaskId, t: TaskId) returns (d: TaskId)
    requires Cascades(nodes, id, t)
    ensures DependsOn(nodes, t, d) && (d == id || Cascades(nodes, id, d))
    ensures nodes[t].status.Open() && t != id
  {
    var p :| CascadePath(nodes, id, p) && |p| >= 2 && p[|p| - 1] == t;
    d := p[|p| - 2];
    if |p| > 2 {
      var q := p[..|p| - 1];
      assert CascadePath(nodes, id, q) && |q| >= 2 && q[|q| - 1] == d;
    }
  }

  /** In reachable states the cascade only meets Pending tasks. */
  lemma CascadeMeetsPending(nodes: Nodes, id: TaskId, t: TaskId)
    requires Counted(nodes) && NodesOk(nodes) && id in nodes && !nodes[id].status.Terminal() && Cascades(nodes, id, t)
    ensures t in nodes && nodes[t].status == Pending
  {
    var d := CascadeStep(nodes, id, t);
    if d != id {
      var e := CascadeStep(nodes, id, d);
    }
    if nodes[t].status == Ready {
      UnblockedMeansDone(nodes, t);
    }
  }

  lemma FailKeepsFailures(nodes: Nodes, order: seq<TaskId>, id: TaskId, nodes': Nodes)
    requires Ordered(nodes, order) && FailuresSpread(nodes) && id in nodes
    requires nodes' == map t | t in nodes :: FailedNode(nodes, id, t)
    ensures FailuresSpread(nodes')
  {
    forall t, d | DependsOn(nodes', t, d) && nodes'[t].status == Pending && d in nodes' && nodes'[d].status.Dead()
      ensures d in nodes'[t].early
    {
      assert DependsOn(nodes, t, d);
      if d == id || Cascades(nodes, id, d) {
        CascadeExtends(nodes, id, t, d);
      }
    }
    forall t | t in nodes && nodes'[t].status == DependencyFailed
      ensures DeadDependency(nodes', t)
    {
      var d;
      if Cascades(nodes, id, t) {
        d := CascadeStep(nodes, id, t);
        DependencyKnown(nodes, order, t, d);
      } else {
        assert DeadDependency(nodes, t);
        d :| DependsOn(nodes, t, d) && d in nodes && nodes[d].status.Dead();
      }
      assert DependsOn(nodes', t, d) && nodes'[d].status.Dead();
    }
  }

  lemma CascadeIsPending(s: Sched, id: TaskId)
    requires Inv(s) && CanFail(s, id)
    ensures forall t :: t in s.nodes && Cascades(s.nodes, id, t) ==> s.nodes[t].status == Pending
  {
    forall t | t in s.nodes && Cascades(s.nodes, id, t)
      ensures s.nodes[t].status == Pending
    {
      CascadeMeetsPending(s.nodes, id, t);
    }
  }

  lemma FailKeepsOrder(s: Sched, id: TaskId)
    requires Inv(s) && CanFail(s, id)
    ensures Ordered(FailedState(s, id).nodes, s.order) && FailuresSpread(FailedState(s, id).nodes)
  {
    hide Counted, PoolExact, Cascades, FailuresSpread, Ordered;
    OrderedKept(s.nodes, FailedState(s, id).nodes, s.order);
    FailKeepsFailures(s.nodes, s.order, id, FailedState(s, id).nodes);
  }

  lemma FailKeepsNodes(s: Sched, id: TaskId)
    requires Inv(s) && CanFail(s, id)
    ensures NodesOk(FailedState(s, id).nodes) && Counted(FailedState(s, id).nodes)
  {
    hide PoolExact, Cascades, FailuresSpread, Ordered;
    CascadeIsPending(s, id);
    CountedKept(s.nodes, FailedState(s, id).nodes);
  }

  lemma FailKeepsPool(s: Sched, id: TaskId)
    requires Inv(s) && CanFail(s, id)
    ensures PoolExact(FailedState(s, id)) && NoPoolNoHold(FailedState(s, id))
  {
    hide Counted, Cascades, FailuresSpread;
    CascadeIsPending(s, id);
    if s.nodes[id].status == Running {
      PoolAfterStop(s, id, FailedState(s, id));
    } else {
      PoolKept(s, FailedState(s, id));
    }
  }

  lemma FailKeepsInv(s: Sched, id: TaskId)
    requires Inv(s) && CanFail(s, id)
    ensures Inv(FailedState(s, id))
  {
    FailKeepsOrder(s, id);
    FailKeepsNodes(s, id);
    FailKeepsPool(s, id);
    hide Ordered, Counted, NodesOk, FailuresSpread, PoolExact, NoPoolNoHold, FailedNode;
  }

  // ----- dequeue and requeue -----

  lemma AgingKeepsInv(s: Sched, now: Readings)
    requires Inv(s)
    ensures Inv(AgedState(s, now))
  {
    var s' := AgedState(s, now);
    OrderedKept(s.nodes, s'.nodes, s.order);
    CountedKept(s.nodes, s'.nodes);
    FailuresKept(s.nodes, s'.nodes);
    PoolKept(s, s');
    hide Ordered, Counted, FailuresSpread, PoolExact;
  }

  lemma SweepKeepsInv(s: Sched)
    requires Inv(s)
    ensures Inv(Swept(s))
  {
    var s' := Swept(s);
    OrderedKept(s.nodes, s'.nodes, s.order);
    CountedKept(s.nodes, s'.nodes);
    FailuresKept(s.nodes, s'.nodes);
    PoolKept(s, s');
  }

  lemma PoolAfterStart(s: Sched, id: TaskId)
    requires Ordered(s.nodes, s.order) && PoolExact(s) && Runnable(s, id)
    ensures PoolExact(Started(s, id))
  {
    var s' := Started(s, id);
    var k :| 0 <= k < |s.order| && s.order[k] == id;
    UsageStops(s'.nodes, s.nodes, s.order, |s.order|, k);
  }

  lemma StartKeepsNodes(s: Sched, id: TaskId)
    requires Inv(s) && Runnable(s, id)
    ensures NodesOk(Started(s, id).nodes) && Counted(Started(s, id).nodes)
  {
    hide PoolExact, FailuresSpread, Ordered, KeyLess;
    CountedKept(s.nodes, Started(s, id).nodes);
  }

  lemma StartKeepsOrder(s: Sched, id: TaskId)
    requires Inv(s) && Runnable(s, id)
    ensures Ordered(Started(s, id).nodes, s.order) && FailuresSpread(Started(s, id).nodes)
  {
    hide PoolExact, Counted, KeyLess, Ordered;
    OrderedKept(s.nodes, Started(s, id).nodes, s.order);
    FailuresKept(s.nodes, Started(s, id).nodes);
  }

  lemma StartKeepsInv(s: Sched, id: TaskId)
    requires Inv(s) && Runnable(s, id)
    ensures Inv(Started(s, id))
  {
    StartKeepsNodes(s, id);
    StartKeepsOrder(s, id);
    PoolAfterStart(s, id);
    hide Ordered, Counted, NodesOk, FailuresSpread, PoolExact, KeyLess, Runnable;
  }

  lemma DequeueKeepsInv(s: Sched, now: Readings, s': Sched, result: Option<Task>)
    requires Inv(s) && Dequeued(s, now, s', result)
    ensures Inv(s')
  {
    AgingKeepsInv(s, now);
    match result
    case None => SweepKeepsInv(AgedState(s, now));
    case Some(task) => StartKeepsInv(AgedState(s, now), task.id);
  }

  lemma PoolAfterRequeue(s: Sched, id: TaskId, attempt: nat, now: nat)
    requires Ordered(s.nodes, s.order) && PoolExact(s) && CanComplete(s, id)
    ensures PoolExact(RequeuedState(s, id, attempt, now))
  {
    var s' := RequeuedState(s, id, attempt, now);
    var k :| 0 <= k < |s.order| && s.order[k] == id;
    UsageStops(s.nodes, s'.nodes, s.order, |s.order|, k);
  }

  lemma RequeueKeepsInv(s: Sched, id: TaskId, attempt: nat, now: nat)
    requires Inv(s)
    ensures Inv(RequeuedState(s, id, attempt, now))
  {
    if id in s.nodes {
      var s' := RequeuedState(s, id, attempt, now);
      OrderedKept(s.nodes, s'.nodes, s.order);
      CountedKept(s.nodes, s'.nodes);
      FailuresKept(s.nodes, s'.nodes);
      if s.nodes[id].status == Running {
        PoolAfterRequeue(s, id, attempt, now);
      } else {
        PoolKept(s, s');
      }
    }
  }

  /** Every operation keeps the invariant. */
  lemma NextKeepsInv(s: Sched, op: Op, s': Sched)
    requires Inv(s) && Next(s, op, s')
    ensures Inv(s')
  {
    match op
    case Enqueue(task, now) => if Accepted(s.nodes, task) { EnqueueKeepsInv(s, task, now); }
    case Complete(id, now) => if CanComplete(s, id) { CompleteKeepsInv(s, id, now); }
    case Fail(id) => if CanFail(s, id) { FailKeepsInv(s, id); }
    case Discard(id) => if CanFail(s, id) { FailKeepsInv(s, id); }
    case Dequeue(now, result) => DequeueKeepsInv(s, now, s', result);
    case Requeue(id, attempt, now) => RequeueKeepsInv(s, id, attempt, now);
    case SetFairness(policy) => PoolKept(s, s');
    case SetStarvation(policy) => PoolKept(s, s');
  }
}
