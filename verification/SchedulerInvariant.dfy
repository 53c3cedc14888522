/** The invariant of the scheduler state. */
module SchedulerInvariant {
  import opened Core
  import opened TaskGraph
  import opened SchedulerModel

  /** Nodes are listed once each in enqueue order, after all of their dependencies. */
  ghost predicate Ordered(nodes: Nodes, order: seq<TaskId>) {
    && Distinct(order)
    && (forall t {:trigger t in nodes} :: t in nodes ==> t in order)
    && (forall i {:trigger order[i]} :: 0 <= i < |order| ==> order[i] in nodes)
    && (forall t {:trigger nodes[t]} :: t in nodes ==> nodes[t].task.id == t)
    && (forall i, d {:trigger Before(order, i, d)} :: 0 <= i < |order| && DependsOn(nodes, order[i], d) ==>
        Before(order, i, d))
  }

  /** Dependencies of t that completed after t was enqueued. */
  ghost function DoneSince(nodes: Nodes, t: TaskId): set<TaskId>
    requires t in nodes
  {
    set d | d in nodes[t].task.dependencies && d in nodes && nodes[d].status == Completed && d !in nodes[t].early
  }

  /** The in-degree is the number of listed dependencies minus those that completed since the enqueue. */
  ghost predicate Counted(nodes: Nodes) {
    && (forall t {:trigger DoneSince(nodes, t)} :: t in nodes ==>
          nodes[t].inDegree == |nodes[t].task.dependencies| - |DoneSince(nodes, t)|)
    && (forall t, d {:trigger DependsOn(nodes, t, d)} :: t in nodes && d in nodes[t].early ==>
          DependsOn(nodes, t, d) && d in nodes && nodes[d].status.Terminal())
  }

  /** The status of a task, its counter and its heap entry agree. */
  predicate NodeOk(n: Node) {
    && (n.status == Pending ==> n.inDegree > 0)
    && (n.status.Unblocked() ==> n.inDegree == 0)
    && (n.status == Ready ==> n.queued)
    && (n.queued ==> n.status == Ready || n.status.Dead())
  }

  ghost predicate NodesOk(nodes: Nodes) {
    forall t {:trigger nodes[t]} :: t in nodes ==> NodeOk(nodes[t])
  }

  ghost predicate DeadDependency(nodes: Nodes, t: TaskId) {
    exists d {:trigger DependsOn(nodes, t, d)} :: DependsOn(nodes, t, d) && d in nodes && nodes[d].status.Dead()
  }

  /** Failures have reached every Pending task, except those enqueued under a task that had already ended. */
  ghost predicate FailuresSpread(nodes: Nodes) {
    && (forall t, d {:trigger DependsOn(nodes, t, d)} ::
          DependsOn(nodes, t, d) && nodes[t].status == Pending && d in nodes && nodes[d].status.Dead() ==>
              d in nodes[t].early)
    && (forall t {:trigger DeadDependency(nodes, t)} :: t in nodes && nodes[t].status == DependencyFailed ==>
        DeadDependency(nodes, t))
  }

  /** Total resources of the first n tasks of ids that are Running. */
  ghost function Usage(nodes: Nodes, ids: seq<TaskId>, n: nat): (total: Resources)
    requires n <= |ids|
  {
    if n == 0 then NOTHING
    else
      var rest, last := Usage(nodes, ids, n - 1), ids[n - 1];
      if last in nodes && nodes[last].status == Running then rest.Plus(nodes[last].task.resources) else rest
  }

  ghost function RunningUsage(s: Sched): Resources {
    Usage(s.nodes, s.order, |s.order|)
  }

  /** The pool accounts exactly for the running tasks and for what requeues have leaked, within its capacity. */
  ghost predicate PoolExact(s: Sched) {
    s.pool.Some? ==>
      && s.pool.value.used.FitsIn(s.pool.value.capacity)
      && s.pool.value.used == RunningUsage(s).Plus(s.leaked)
      && (forall t {:trigger s.nodes[t]} :: t in s.nodes && s.nodes[t].status == Running ==>
          s.nodes[t].held == Some(s.nodes[t].task.resources))
  }

  /** Without a pool nothing is ever held. */
  ghost predicate NoPoolNoHold(s: Sched) {
    s.pool.None? ==> forall t {:trigger s.nodes[t]} :: t in s.nodes ==> s.nodes[t].held == None
  }

  ghost predicate Inv(s: Sched) {
    && Ordered(s.nodes, s.order)
    && Counted(s.nodes)
    && NodesOk(s.nodes)
    && FailuresSpread(s.nodes)
    && PoolExact(s)
    && NoPoolNoHold(s)
    && s.fairness.Valid()
  }

  // ----- what the counter means -----

  lemma DependencyKnown(nodes: Nodes, order: seq<TaskId>, t: TaskId, d: TaskId)
    requires Ordered(nodes, order) && DependsOn(nodes, t, d)
    ensures d in nodes && d != t
  {
    var i :| 0 <= i < |order| && order[i] == t;
    assert Before(order, i, d);
    var m :| 0 <= m < i && order[m] == d;
  }

  /** The counter is zero exactly when all dependencies are completed, distinct, and none had ended at the enqueue. */
  lemma CountLemma(nodes: Nodes, t: TaskId)
    requires Counted(nodes) && t in nodes
    ensures nodes[t].inDegree >= 0
    ensures nodes[t].inDegree == 0 <==>
            && Distinct(nodes[t].task.dependencies)
            && forall d :: d in nodes[t].task.dependencies ==>
                d in nodes && nodes[d].status == Completed && d !in nodes[t].early
  {
    var deps, done := nodes[t].task.dependencies, DoneSince(nodes, t);
    ElementsCardinality(deps);
    SubsetCardinality(done, Elements(deps));
    if nodes[t].inDegree == 0 {
      assert done == Elements(deps);
      assert forall d :: d in deps ==> d in done;
    }
    if Distinct(deps) && forall d :: d in deps ==> d in nodes && nodes[d].status == Completed && d !in nodes[t].early {
      assert done == Elements(deps);
    }
  }

  lemma UnblockedMeansDone(nodes: Nodes, t: TaskId)
    requires Counted(nodes) && NodesOk(nodes) && t in nodes && nodes[t].status.Unblocked()
    ensures Distinct(nodes[t].task.dependencies)
    ensures forall d :: d in nodes[t].task.dependencies ==> d in nodes && nodes[d].status == Completed
  {
    CountLemma(nodes, t);
  }

  // ----- resource sums -----

  lemma {:induction false} UsageExtensional(nodes: Nodes, ids: seq<TaskId>, nodes': Nodes, ids': seq<TaskId>, n: nat)
    requires n <= |ids| && n <= |ids'|
    requires forall i :: 0 <= i < n ==> ids[i] == ids'[i] && ids[i] in nodes && ids[i] in nodes'
    requires forall i :: 0 <= i < n ==> SameLoad(nodes[ids[i]], nodes'[ids[i]])
    ensures Usage(nodes', ids', n) == Usage(nodes, ids, n)
  {
    if n > 0 {
      UsageExtensional(nodes, ids, nodes', ids', n - 1);
    }
  }

  predicate SameLoad(a: Node, b: Node) {
    (b.status == Running <==> a.status == Running) && b.task.resources == a.task.resources
  }

  /** Taking one task out of Running takes its resources out of the sum. */
  lemma {:induction false} UsageStops(nodes: Nodes, nodes': Nodes, ids: seq<TaskId>, n: nat, k: nat)
    requires Distinct(ids) && k < n <= |ids|
    requires forall i :: 0 <= i < n ==> ids[i] in nodes && ids[i] in nodes'
    requires nodes[ids[k]].status == Running && nodes'[ids[k]].status != Running
    requires forall i :: 0 <= i < n && i != k ==> SameLoad(nodes[ids[i]], nodes'[ids[i]])
    ensures Usage(nodes, ids, n) == Usage(nodes', ids, n).Plus(nodes[ids[k]].task.resources)
  {
    if k == n - 1 {
      UsageExtensional(nodes, ids, nodes', ids, n - 1);
    } else {
      UsageStops(nodes, nodes', ids, n - 1, k);
    }
  }
}
