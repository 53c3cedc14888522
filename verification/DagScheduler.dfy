/** The scheduler object: separate maps, reverse edges and a heap, all updated in place. */
module DagScheduler {
  import opened Core
  import opened TaskGraph
  import opened SchedulerModel
  import opened SchedulerInvariant
  import opened SchedulerSteps
  import opened SchedulerOutcomes
  import Runs = SchedulerRuns

  /** original never changes; effective follows the metadata of the task. */
  datatype ReadyEntry = ReadyEntry(original: Priority, effective: Priority, id: TaskId)

  /** The heap order: effective priority, then task id. */
  predicate EntryLeq(a: ReadyEntry, b: ReadyEntry) {
    a.effective.Level() < b.effective.Level() || (a.effective == b.effective && a.id <= b.id)
  }

  function EntryOf(n: Node): ReadyEntry {
    ReadyEntry(n.task.priority, n.meta.effective, n.task.id)
  }

  ghost function Queued(nodes: Nodes): set<TaskId> {
    set t | t in nodes && nodes[t].queued
  }

  /** Exactly one entry, up to date, for each task of ids, and no other. */
  ghost predicate HeapOf(heap: multiset<ReadyEntry>, nodes: Nodes, ids: set<TaskId>) {
    forall e {:trigger heap[e]} :: heap[e] == if e.id in ids && e.id in nodes && e == EntryOf(nodes[e.id]) then 1 else 0
  }

  ghost predicate HeapOk(heap: multiset<ReadyEntry>, nodes: Nodes) {
    HeapOf(heap, nodes, Queued(nodes))
  }

  /** The maps that the scheduler keeps by task. */
  datatype Maps = Maps(
    tasks: Tasks, states: map<TaskId, Status>, inDegree: map<TaskId, nat>,
    metadata: map<TaskId, Meta>, running: map<TaskId, Resources>)

  ghost predicate NodeView(n: Node, m: Maps, t: TaskId) {
    && t in m.tasks && m.tasks[t] == n.task
    && t in m.states && m.states[t] == n.status
    && t in m.inDegree && m.inDegree[t] == n.inDegree
    && t in m.metadata && m.metadata[t] == n.meta
    && (if t in m.running then n.held == Some(m.running[t]) else n.held == None)
  }

  ghost predicate View(nodes: Nodes, m: Maps) {
    && m.tasks.Keys == nodes.Keys && m.states.Keys == nodes.Keys
    && m.inDegree.Keys == nodes.Keys && m.metadata.Keys == nodes.Keys
    && m.running.Keys <= nodes.Keys
    && forall t {:trigger nodes[t]} :: t in nodes ==> NodeView(nodes[t], m, t)
  }

  predicate Edge(successors: map<TaskId, set<TaskId>>, d: TaskId, t: TaskId) {
    d in successors && t in successors[d]
  }

  ghost predicate EdgesOk(successors: map<TaskId, set<TaskId>>, nodes: Nodes) {
    forall d, t {:trigger Edge(successors, d, t)} {:trigger DependsOn(nodes, t, d)} ::
      Edge(successors, d, t) <==> DependsOn(nodes, t, d)
  }

  function Dependents(successors: map<TaskId, set<TaskId>>, d: TaskId): set<TaskId> {
    if d in successors then successors[d] else {}
  }

  /** The edges of the nodes and those of the new task. */
  ghost predicate EdgesWith(successors: map<TaskId, set<TaskId>>, nodes: Nodes, task: Task) {
    forall d, t {:trigger Edge(successors, d, t)} {:trigger DependsOn(nodes, t, d)} ::
      Edge(successors, d, t) <==> DependsOn(nodes, t, d) || (t == task.id && d in task.dependencies)
  }

  ghost predicate EdgesAdded(before: map<TaskId, set<TaskId>>, after: map<TaskId, set<TaskId>>, task: Task,
      deps: seq<TaskId>) {
    forall d, t {:trigger Edge(after, d, t)} ::
      Edge(after, d, t) <==> Edge(before, d, t) || (t == task.id && d in deps)
  }

  ghost predicate EdgesRemoved(before: map<TaskId, set<TaskId>>, after: map<TaskId, set<TaskId>>, task: Task,
      deps: seq<TaskId>) {
    forall d, t {:trigger Edge(after, d, t)} ::
      Edge(after, d, t) <==> Edge(before, d, t) && !(t == task.id && d in deps)
  }

  lemma AddedEdges(before: map<TaskId, set<TaskId>>, after: map<TaskId, set<TaskId>>, nodes: Nodes, task: Task)
    requires EdgesOk(before, nodes) && EdgesAdded(before, after, task, task.dependencies)
    ensures EdgesWith(after, nodes, task)
  {
  }

  lemma RemovedEdges(before: map<TaskId, set<TaskId>>, after: map<TaskId, set<TaskId>>, nodes: Nodes, task: Task)
    requires EdgesWith(before, nodes, task) && EdgesRemoved(before, after, task, task.dependencies) && task.id !in nodes
    ensures EdgesOk(after, nodes)
  {
  }

  function WithEdge(successors: map<TaskId, set<TaskId>>, d: TaskId, t: TaskId): (r: map<TaskId, set<TaskId>>)
    ensures forall e, u {:trigger Edge(r, e, u)} :: Edge(r, e, u) <==> Edge(successors, e, u) || (e == d && u == t)
  {
    successors[d := (if d in successors then successors[d] else {}) + {t}]
  }

  function WithoutEdge(successors: map<TaskId, set<TaskId>>, d: TaskId, t: TaskId): (r: map<TaskId, set<TaskId>>)
    ensures forall e, u {:trigger Edge(r, e, u)} :: Edge(r, e, u) <==> Edge(successors, e, u) && !(e == d && u == t)
  {
    if d in successors then successors[d := successors[d] - {t}] else successors
  }

  /** One entry per Ready task; every other entry belongs to a task that failed; no two entries share a task. */
  lemma HeapEntries(heap: multiset<ReadyEntry>, s: Sched)
    requires HeapOk(heap, s.nodes) && Inv(s)
    ensures forall t :: t in s.nodes && s.nodes[t].status == Ready ==> heap[EntryOf(s.nodes[t])] == 1
    ensures forall e :: e in heap ==> e.id in s.nodes && (s.nodes[e.id].status == Ready || s.nodes[e.id].status.Dead())
    ensures forall e, f :: e in heap && f in heap && e.id == f.id ==> e == f && heap[e] == 1
  {
    forall t | t in s.nodes && s.nodes[t].status == Ready
      ensures heap[EntryOf(s.nodes[t])] == 1
    {
      assert NodeOk(s.nodes[t]) && EntryOf(s.nodes[t]).id == t;
    }
    forall e | e in heap
      ensures heap[e] == 1 && e.id in s.nodes && s.nodes[e.id].queued && e == EntryOf(s.nodes[e.id])
    {
      assert heap[e] > 0;
    }
  }

  /** One node changes, and with it one key of each map. */
  lemma ViewUpdate(nodes: Nodes, m: Maps, t: TaskId, n: Node)
    requires View(nodes, m) && n.inDegree >= 0
    ensures View(nodes[t := n], Maps(m.tasks[t := n.task], m.states[t := n.status], m.inDegree[t := n.inDegree],
                                     m.metadata[t := n.meta],
                                     if n.held.Some? then m.running[t := n.held.value] else m.running - {t}))
  {
    var m' := Maps(m.tasks[t := n.task], m.states[t := n.status], m.inDegree[t := n.inDegree], m.metadata[t := n.meta],
                   if n.held.Some? then m.running[t := n.held.value] else m.running - {t});
    var nodes' := nodes[t := n];
    forall u | u in nodes'
      ensures NodeView(nodes'[u], m', u)
    {
      if u != t { assert NodeView(nodes[u], m, u); }
    }
  }

  /** A change that keeps the task and what it holds. */
  lemma ViewChange(nodes: Nodes, m: Maps, t: TaskId, n: Node)
    requires View(nodes, m) && n.inDegree >= 0
    requires t in nodes && n.task == nodes[t].task && n.held == nodes[t].held
    ensures View(nodes[t := n],
                 m.(states := m.states[t := n.status], inDegree := m.inDegree[t := n.inDegree],
                     metadata := m.metadata[t := n.meta]))
  {
    assert NodeView(nodes[t], m, t);
    ViewUpdate(nodes, m, t, n);
    hide View;
    assert m.tasks[t := n.task] == m.tasks;
    assert (if n.held.Some? then m.running[t := n.held.value] else m.running - {t}) == m.running;
  }

  /** Heap entries are not part of the view. */
  lemma ViewIgnoresQueue(nodes: Nodes, nodes': Nodes, m: Maps)
    requires View(nodes, m) && nodes'.Keys == nodes.Keys
    requires forall t {:trigger nodes'[t]} :: t in nodes ==> nodes'[t] == nodes[t].(queued := nodes'[t].queued)
    ensures View(nodes', m)
  {
  }

  /** A node without a heap entry changes, and perhaps gets one. */
  lemma HeapUpdate(heap: multiset<ReadyEntry>, nodes: Nodes, t: TaskId, n: Node)
    requires HeapOk(heap, nodes) && n.task.id == t && (t in nodes ==> !nodes[t].queued)
    ensures HeapOk(if n.queued then heap + multiset{EntryOf(n)} else heap, nodes[t := n])
  {
    assert Queued(nodes[t := n]) == if n.queued then Queued(nodes) + {t} else Queued(nodes);
  }

  /** A node changes, but not its heap entry. */
  lemma HeapKept(heap: multiset<ReadyEntry>, nodes: Nodes, t: TaskId, n: Node)
    requires HeapOk(heap, nodes) && t in nodes && n.queued == nodes[t].queued
        && (n.queued ==> EntryOf(n) == EntryOf(nodes[t]))
    ensures HeapOk(heap, nodes[t := n])
  {
    assert Queued(nodes[t := n]) == Queued(nodes);
  }

  lemma EntryLeqOrders(a: ReadyEntry, b: ReadyEntry, c: ReadyEntry)
    ensures EntryLeq(a, a) && (EntryLeq(a, b) || EntryLeq(b, a))
    ensures EntryLeq(a, b) && EntryLeq(b, c) ==> EntryLeq(a, c)
  {
  }

  lemma {:induction false} MaxExists(heap: multiset<ReadyEntry>)
    requires heap != multiset{}
    ensures exists e :: e in heap && forall f :: f in heap ==> EntryLeq(f, e)
    decreases heap
  {
    hide EntryLeq;
    var x :| x in heap;
    var rest := heap - multiset{x};
    assert forall f :: f in heap ==> f == x || f in rest;
    var z := x;
    if rest == multiset{} {
      EntryLeqOrders(x, x, x);
    } else {
      MaxExists(rest);
      var y :| y in rest && forall f :: f in rest ==> EntryLeq(f, y);
      z := if EntryLeq(x, y) then y else x;
      forall f | f in heap
        ensures EntryLeq(f, z)
      {
        EntryLeqOrders(f, y, x);
        EntryLeqOrders(x, y, x);
      }
    }
    assert z in heap && forall f :: f in heap ==> EntryLeq(f, z);
  }

  /** Takes a greatest entry out of the heap. */
  method PopMax(heap: multiset<ReadyEntry>) returns (e: ReadyEntry, rest: multiset<ReadyEntry>)
    requires heap != multiset{}
    ensures e in heap && (forall f :: f in heap ==> EntryLeq(f, e)) && rest == heap - multiset{e}
  {
    MaxExists(heap);
    e :| e in heap && forall f :: f in heap ==> EntryLeq(f, e);
    rest := heap - multiset{e};
  }

  ghost predicate AllPresent(tasks: Tasks, deps: seq<TaskId>) {
    forall k :: 0 <= k < |deps| ==> deps[k] in tasks
  }

  ghost predicate FirstAbsent(tasks: Tasks, deps: seq<TaskId>, d: TaskId) {
    exists k :: 0 <= k < |deps| && deps[k] == d && d !in tasks && forall j :: 0 <= j < k ==> deps[j] in tasks
  }

  /** What the checks on the tentative task map say about the graph before. */
  lemma CheckedDependencies(nodes: Nodes, tasks: Tasks, task: Task)
    requires task.id !in nodes && tasks == Runs.TasksOf(nodes)[task.id := task]
    ensures AllPresent(tasks, task.dependencies) ==> TentativeGraph(nodes, tasks, task)
    ensures forall d :: FirstAbsent(tasks, task.dependencies, d) ==>
        Refused(nodes, task, UnknownDependency(d)) && !Accepted(nodes, task)
  {
    forall d | FirstAbsent(tasks, task.dependencies, d)
      ensures FirstUnknown(nodes, task, d) && d in task.dependencies
    {
      var deps := task.dependencies;
      var k :| 0 <= k < |deps| && deps[k] == d && d !in tasks && forall j :: 0 <= j < k ==> deps[j] in tasks;
      assert forall j :: 0 <= j < k ==> Known(nodes, task, deps[j]);
    }
  }

  lemma DuplicateRefused(nodes: Nodes, task: Task)
    requires task.id in nodes
    ensures Refused(nodes, task, DuplicateTask(task.id)) && !Accepted(nodes, task)
  {
  }

  lemma CheckedCycle(nodes: Nodes, tasks: Tasks, task: Task)
    requires TentativeGraph(nodes, tasks, task)
    ensures task.id in task.dependencies ==> Refused(nodes, task, CyclicDependency(task.id)) && !Accepted(nodes, task)
    ensures task.id !in task.dependencies ==> Accepted(nodes, task)
  {
    if task.id !in task.dependencies {
      forall d | d in task.dependencies
        ensures d in nodes
      {
        assert Known(nodes, task, d);
      }
    }
  }

  /** How often aging and the deadline have raised a task. The other metrics are never written. */
  datatype Metrics = Metrics(agingEvents: int, deadlineEnforcements: int)

  class Scheduler {
    var tasks: map<TaskId, Task>
    var states: map<TaskId, Status>
    var successors: map<TaskId, set<TaskId>>
    var inDegree: map<TaskId, nat>
    var ready: multiset<ReadyEntry>
    var metadata: map<TaskId, Meta>
    var fairness: FairnessPolicy
    var starvation: StarvationPolicy
    var pool: Option<Pool>
    var running: map<TaskId, Resources>
    var metrics: Metrics
    // What the fields above represent.
    ghost var model: Sched

    ghost function Fields(): Maps
      reads this
    {
      Maps(tasks, states, inDegree, metadata, running)
    }

    ghost predicate Valid()
      reads this
    {
      && View(model.nodes, Fields())
      && HeapOk(ready, model.nodes)
      && EdgesOk(successors, model.nodes)
      && pool == model.pool && fairness == model.fairness && starvation == model.starvation
      && Inv(model)
    }

    constructor (capacity: Option<Resources>, fairness: FairnessPolicy, starvation: StarvationPolicy)
      requires fairness.Valid()
      ensures Valid() && model == Empty(capacity, fairness, starvation) && metrics == Metrics(0, 0)
      ensures tasks == map[] && this.fairness == fairness && this.starvation == starvation
      ensures pool == if capacity.Some? then Some(Pool(capacity.value, Amounts(0, 0, 0))) else None
    {
      tasks, states, successors, inDegree, ready := map[], map[], map[], map[], multiset{};
      metadata, running, metrics := map[], map[], Metrics(0, 0);
      this.fairness, this.starvation := fairness, starvation;
      pool := if capacity.Some? then Some(Pool(capacity.value, NOTHING)) else None;
      model := Empty(capacity, fairness, starvation);
      new;
      EmptyInv(model, capacity, fairness, starvation);
    }

    method SetFairness(policy: FairnessPolicy)
      requires Valid() && policy.Valid()
      modifies this
      ensures Valid() && Next(old(model), Op.SetFairness(policy), model) && metrics == old(metrics)
    {
      hide Inv, View, NodeView, HeapOk, EdgesOk;
      fairness := policy;
      model := model.(fairness := policy);
      NextKeepsInv(old(model), Op.SetFairness(policy), model);
    }

    method SetStarvation(policy: StarvationPolicy)
      requires Valid()
      modifies this
      ensures Valid() && Next(old(model), Op.SetStarvation(policy), model) && metrics == old(metrics)
    {
      hide Inv, View, NodeView, HeapOk, EdgesOk;
      starvation := policy;
      model := model.(starvation := policy);
      NextKeepsInv(old(model), Op.SetStarvation(policy), model);
    }

    method AddEdges(task: Task)
      modifies `successors
      ensures EdgesAdded(old(successors), successors, task, task.dependencies)
    {
      var i := 0;
      while i < |task.dependencies|
        invariant 0 <= i <= |task.dependencies|
        invariant EdgesAdded(old(successors), successors, task, task.dependencies[..i])
      {
        var d := task.dependencies[i];
        assert task.dependencies[..i + 1] == task.dependencies[..i] + [d];
        successors := WithEdge(successors, d, task.id);
        i := i + 1;
      }
      assert task.dependencies[..i] == task.dependencies;
    }

    method RemoveEdges(task: Task)
      modifies `successors
      ensures EdgesRemoved(old(successors), successors, task, task.dependencies)
    {
      var i := 0;
      while i < |task.dependencies|
        invariant 0 <= i <= |task.dependencies|
        invariant EdgesRemoved(old(successors), successors, task, task.dependencies[..i])
      {
        var d := task.dependencies[i];
        assert task.dependencies[..i + 1] == task.dependencies[..i] + [d];
        successors := WithoutEdge(successors, d, task.id);
        i := i + 1;
      }
      assert task.dependencies[..i] == task.dependencies;
    }

    /** The first dependency that has no entry in the task map. */
    method Missing(task: Task) returns (missing: Option<TaskId>)
      ensures missing.None? ==> AllPresent(tasks, task.dependencies)
      ensures missing.Some? ==> FirstAbsent(tasks, task.dependencies, missing.value)
    {
      for i := 0 to |task.dependencies|
        invariant forall k :: 0 <= k < i ==> task.dependencies[k] in tasks
      {
        if task.dependencies[i] !in tasks {
          return Some(task.dependencies[i]);
        }
      }
      missing := None;
    }

    /** Stores the task tentatively, with its edges; if it is refused, takes both out again. */
    method Admit(task: Task) returns (error: Option<EnqueueError>)
      requires Inv(model) && EdgesOk(successors, model.nodes) && tasks == Runs.TasksOf(model.nodes)
      modifies `tasks, `successors
      ensures error.None? ==> Accepted(model.nodes, task) && task.id !in model.nodes
      ensures error.None? ==> tasks == old(tasks)[task.id := task] && EdgesWith(successors, model.nodes, task)
      ensures error.Some? ==> !Accepted(model.nodes, task) && Refused(model.nodes, task, error.value)
      ensures error.Some? ==> tasks == old(tasks) && EdgesOk(successors, model.nodes)
    {
      hide Inv, EdgesOk, EdgesWith, EdgesAdded, EdgesRemoved, AllPresent, FirstAbsent, TentativeGraph, Accepted,
          Refused;
      if task.id in tasks {
        DuplicateRefused(model.nodes, task);
        return Some(DuplicateTask(task.id));
      }
      tasks := tasks[task.id := task];
      CheckedDependencies(model.nodes, tasks, task);
      var missing := Missing(task);
      if missing.Some? {
        tasks := map t | t in tasks && t != task.id :: tasks[t];
        assert tasks == old(tasks);
        return Some(UnknownDependency(missing.value));
      }
      AddEdges(task);
      AddedEdges(old(successors), successors, model.nodes, task);
      TentativeCycle(model, tasks, task);
      CheckedCycle(model.nodes, tasks, task);
      var cycle := DetectCycle(tasks);
      if cycle.Some? {
        tasks := map t | t in tasks && t != task.id :: tasks[t];
        assert tasks == old(tasks);
        ghost var added := successors;
        RemoveEdges(task);
        RemovedEdges(added, successors, model.nodes, task);
        return Some(CyclicDependency(task.id));
      }
      error := None;
    }

    /** A refused task leaves no trace but empty successor sets. */
    method Enqueue(task: Task, now: nat) returns (error: Option<EnqueueError>)
      requires Valid()
      modifies this
      ensures Valid() && Next(old(model), Op.Enqueue(task, now), model) && metrics == old(metrics)
      ensures error.None? <==> task.id !in old(tasks) && forall d :: d in task.dependencies ==> d in old(tasks)
      ensures error.None? ==> tasks == old(tasks)[task.id := task]
      ensures error.None? ==> states == old(states)[task.id := if task.dependencies == [] then Ready else Pending]
      ensures error.Some? ==> tasks == old(tasks) && states == old(states)
      ensures error.Some? ==> Refused(old(model).nodes, task, error.value)
    {
      hide Inv, HeapOk, EdgesOk, EdgesWith, View, NodeView, Enqueued, Accepted, Refused;
      ViewedTasks(model.nodes, Fields());
      AcceptedView(model.nodes, Fields(), task);
      error := Admit(task);
      if error.None? {
        Insert(task, now, old(tasks));
      }
    }

    /** One dependency fewer for t. */
    method UnblockOne(t: TaskId, now: nat, ghost mid: Nodes)
      requires View(mid, Fields()) && HeapOk(ready, mid)
      requires t in mid && mid[t].inDegree > 0 && mid[t].task.id == t && (mid[t].status == Pending ==> !mid[t].queued)
      modifies `states, `inDegree, `metadata, `ready
      ensures View(mid[t := Unblock(mid[t], now)], Fields())
      ensures HeapOk(ready, mid[t := Unblock(mid[t], now)])
    {
      hide View, NodeView, HeapOf, HeapOk, Unblock;
      UnblockStart(mid, ready, Fields(), t, now);
      inDegree := inDegree[t := inDegree[t] - 1];
      if inDegree[t] == 0 && states[t] == Pending {
        states := states[t := Ready];
        metadata := metadata[t := Meta(now, tasks[t].priority)];
        ready := ready + multiset{ReadyEntry(tasks[t].priority, tasks[t].priority, t)};
      }
    }

    /** Takes the record of a task that stops running back into the pool. */
    method Release(id: TaskId)
      modifies `pool, `running
      ensures pool == ReleasePool(old(pool), if id in old(running) then Some(old(running)[id]) else None)
      ensures running == old(running) - {id}
    {
      if id in running {
        if pool.Some? {
          pool := Some(Pool(pool.value.capacity, pool.value.used.Minus(running[id])));
        }
        running := running - {id};
      }
    }

    method Insert(task: Task, now: nat, ghost before: Tasks)
      requires Inv(model) && Accepted(model.nodes, task) && task.id !in model.nodes
      requires tasks == before[task.id := task] && View(model.nodes, Fields().(tasks := before))
      requires HeapOk(ready, model.nodes)
      requires EdgesWith(successors, model.nodes, task)
      requires pool == model.pool && fairness == model.fairness && starvation == model.starvation
      modifies `states, `inDegree, `metadata, `ready, `model
      ensures Valid() && model == Enqueued(old(model), task, now)
      ensures states == old(states)[task.id := if task.dependencies == [] then Ready else Pending]
    {
      hide Inv, View, NodeView, HeapOk, EdgesOk, EdgesWith, Accepted, Enqueued, NewNode;
      InsertFacts(model, Fields().(tasks := before), ready, successors, task, now);
      states := states[task.id := if |task.dependencies| == 0 then Ready else Pending];
      inDegree := inDegree[task.id := |task.dependencies|];
      metadata := metadata[task.id := Meta(now, task.priority)];
      if |task.dependencies| == 0 {
        ready := ready + multiset{ReadyEntry(task.priority, task.priority, task.id)};
      }
      assert Fields() == InsertedMaps(old(Fields()).(tasks := before), task, now);
      hide InsertedMaps;
      model := Enqueued(model, task, now);
    }

    method UnblockDependents(id: TaskId, now: TaskId -> nat, ghost nodes: Nodes, ghost start: Nodes)
        returns (ghost mid: Nodes)
      requires View(start, Fields()) && HeapOk(ready, start)
      requires Unblocking(nodes, start, id, now, Dependents(successors, id))
      modifies `states, `inDegree, `metadata, `ready
      ensures View(mid, Fields()) && HeapOk(ready, mid)
      ensures Unblocking(nodes, mid, id, now, {})
    {
      hide View, NodeView, HeapOk, Unblock, Unblocking;
      mid := start;
      var todo := Dependents(successors, id);
      while todo != {}
        modifies `states, `inDegree, `metadata, `ready
        invariant View(mid, Fields()) && HeapOk(ready, mid)
        invariant Unblocking(nodes, mid, id, now, todo)
        decreases todo
      {
        var t := Any(todo);
        assert todo - {t} + {t} == todo;
        todo := todo - {t};
        UnblockingStep(nodes, mid, id, now, todo, t);
        UnblockOne(t, now(t), mid);
        mid := mid[t := Unblock(mid[t], now(t))];
      }
    }

    /** Only a Running task completes; its dependents are unblocked in any order. */
    method Complete(id: TaskId, now: TaskId -> nat) returns (ok: bool)
      requires Valid()
      modifies this
      ensures ok <==> id in old(states) && old(states)[id] == Running
      ensures ok ==> id in states && states[id] == Completed
      ensures Valid() && Next(old(model), Op.Complete(id, now), model) && metrics == old(metrics)
    {
      hide Inv, EdgesOk, View, NodeView, HeapOk, CompletedState, CompletedNode, Unblock, Unblocking, DependsOn,
          SameGraph, CanComplete, Next;
      CanCompleteView(model, Fields(), id);
      if id !in states || states[id] != Running {
        return false;
      }
      ghost var nodes := model.nodes;
      CompleteStart(model, ready, Fields(), id);
      states := states[id := Completed];
      Release(id);
      ghost var mid := nodes[id := nodes[id].(status := Completed, held := None)];
      CompleteFacts(model, successors, id, now);
      mid := UnblockDependents(id, now, nodes, mid);
      CompletedView(nodes, mid, Fields(), id, now);
      CompleteEnds(model, successors, mid, id, now);
      model := CompletedState(model, id, now);
      ok := true;
    }

    /** Marks the open successors of current and queues them. */
    method MarkDependents(id: TaskId, current: TaskId, queue: seq<TaskId>, ghost nodes: Nodes,
        ghost marked: set<TaskId>)
      returns (queue': seq<TaskId>, ghost marked': set<TaskId>)
      requires id in nodes && EdgesOk(successors, nodes) && Marked(nodes, states, id, marked)
          && Reached(nodes, id, marked)
      requires current == id || current in marked
      requires Spread(nodes, id, marked, Elements(queue) + {current})
      modifies `states
      ensures Marked(nodes, states, id, marked') && Reached(nodes, id, marked')
          && Spread(nodes, id, marked', Elements(queue'))
      ensures Elements(queue') <= Elements(queue) + marked' && marked <= marked'
      ensures OpenTasks(states) < OpenTasks(old(states)) || queue' == queue
      ensures OpenTasks(states) <= OpenTasks(old(states))
    {
      hide Marked, Reached, Spread, OpenTasks, Elements;
      queue', marked' := queue, marked;
      var todo := Dependents(successors, current);
      while todo != {}
        modifies `states
        invariant todo <= Dependents(successors, current)
        invariant Marked(nodes, states, id, marked') && Reached(nodes, id, marked')
        invariant Spread(nodes, id, marked', Elements(queue') + {current})
        invariant OpenDependents(successors, nodes, id, current) <= marked' + todo
        invariant Elements(queue') <= Elements(queue) + marked' && marked <= marked'
        invariant OpenTasks(states) < OpenTasks(old(states)) || (queue' == queue && states == old(states))
        decreases todo
      {
        var t := Any(todo);
        todo := todo - {t};
        MarkedOrOpen(successors, nodes, states, id, marked', current, t);
        if t in states && (states[t] == Pending || states[t] == Ready) {
          assert Edge(successors, current, t);
          MarkStep(nodes, states, id, marked', queue', current, t);
          states := states[t := DependencyFailed];
          queue' := queue' + [t];
          marked' := marked' + {t};
        }
      }
      CurrentDone(successors, nodes, id, current, marked', Elements(queue'));
    }

    /** Breadth first, marks what the failure of id reaches; the successors of a task come in any order. */
    method Cascade(id: TaskId, ghost nodes: Nodes)
      requires id in nodes && EdgesOk(successors, nodes) && Marked(nodes, states, id, {})
      modifies `states
      ensures states.Keys == nodes.Keys && forall t :: t in nodes ==> states[t] == FailedNode(nodes, id, t).status
    {
      ghost var marked: set<TaskId> := {};
      var queue := [id];
      while |queue| > 0
        modifies `states
        invariant Marked(nodes, states, id, marked) && Reached(nodes, id, marked)
        invariant Elements(queue) <= marked + {id}
        invariant Spread(nodes, id, marked, Elements(queue))
        decreases OpenTasks(states), |queue|
      {
        var current := queue[0];
        queue := queue[1..];
        queue, marked := MarkDependents(id, current, queue, nodes, marked);
      }
      assert Elements(queue) == {};
      SpreadIsCascade(nodes, id, marked);
    }

    /** Only a task that has not ended fails; its waiting dependents fail with it. */
    method Fail(id: TaskId) returns (ok: bool)
      requires Valid()
      modifies this
      ensures ok <==>
              && id in old(states)
              && (old(states)[id] == Pending || old(states)[id] == Ready || old(states)[id] == Running)
      ensures ok ==> id in states && states[id] == Failed
      ensures Valid() && Next(old(model), Op.Fail(id), model) && metrics == old(metrics)
    {
      hide Inv, EdgesOk, View, NodeView, HeapOk, FailedState, FailedNode, Marked, SameGraph;
      StatusView(model.nodes, Fields(), id);
      if id !in states || states[id] == Completed || states[id] == Failed || states[id] == DependencyFailed {
        return false;
      }
      var wasRunning := states[id] == Running;
      ghost var nodes := model.nodes;
      FailStart(nodes, Fields(), id);
      states := states[id := Failed];
      if wasRunning {
        Release(id);
      }
      Cascade(id, nodes);
      FailedFirst(nodes, id);
      FailEnd(model, ready, old(Fields()), id, Fields());
      EdgesKept(successors, nodes, FailedState(model, id).nodes);
      FailKeepsInv(model, id);
      model := FailedState(model, id);
      ok := true;
    }

    method Discard(id: TaskId) returns (ok: bool)
      requires Valid()
      modifies this
      ensures ok <==>
              && id in old(states)
              && (old(states)[id] == Pending || old(states)[id] == Ready || old(states)[id] == Running)
      ensures ok ==> id in states && states[id] == Failed
      ensures Valid() && Next(old(model), Op.Discard(id), model) && metrics == old(metrics)
    {
      ok := Fail(id);
    }

    /** Records the attempt; a Running task goes back to the heap, without releasing its share of the pool. */
    method Requeue(id: TaskId, attempt: nat, now: nat)
      requires Valid()
      modifies this
      ensures Valid() && Next(old(model), Op.Requeue(id, attempt, now), model) && metrics == old(metrics)
    {
      hide Inv, EdgesOk, View, NodeView, HeapOk, RequeuedState, SameGraph, Next;
      StatusView(model.nodes, Fields(), id);
      if id in tasks {
        RequeueStart(model, ready, Fields(), id, attempt, now);
        EdgesKept(successors, model.nodes, RequeuedState(model, id, attempt, now).nodes);
        tasks := tasks[id := tasks[id].(attempt := attempt)];
        if states[id] == Running {
          var priority := tasks[id].priority;
          states := states[id := Ready];
          metadata := metadata[id := Meta(now, priority)];
          ready := ready + multiset{ReadyEntry(priority, priority, id)};
        }
      }
      RequeueKeepsInv(model, id, attempt, now);
      RequeueUnknown(model, id, attempt, now);
      model := RequeuedState(model, id, attempt, now);
    }

    /** Drains the heap, ages every entry together with its metadata, and rebuilds the heap. */
    method Age(now: Readings)
      requires View(model.nodes, Fields()) && HeapOk(ready, model.nodes) && Inv(model)
      requires fairness == model.fairness && starvation == model.starvation
      modifies `ready, `metadata, `metrics
      ensures metrics == Metrics(old(metrics).agingEvents + |Raised(model, now)|,
                                 old(metrics).deadlineEnforcements + |Enforced(model, now)|)
      ensures View(AgedState(model, now).nodes, Fields())
      ensures HeapOk(ready, AgedState(model, now).nodes)
    {
      hide Inv, View, NodeView, HeapOf, AgedState, Aging, RaisedSoFar, EnforcedSoFar, Aged, MissesDeadline, Raised,
          Enforced;
      ghost var nodes, left := model.nodes, Queued(model.nodes);
      var drained, entries := ready, multiset{};
      var agingCount, deadlineCount := 0, 0;
      CountsStart(model, now);
      AgingStarts(model, Fields(), now);
      assert Queued(nodes) - left == {};
      while drained != multiset{}
        modifies `metadata
        invariant left <= Queued(nodes)
        invariant HeapOf(drained, nodes, left) && HeapOf(entries, AgedState(model, now).nodes, Queued(nodes) - left)
        invariant Aging(model, metadata, now, left)
        invariant agingCount == RaisedSoFar(model, now, left) && deadlineCount == EnforcedSoFar(model, now, left)
        decreases left
      {
        var e :| e in drained;
        assert drained - multiset{e} + multiset{e} == drained;
        drained := drained - multiset{e};
        AgingStep(model, metadata, now, left, e, drained, entries);
        CountsStep(model, metadata, now, left, e.id);
        var m := Aged(metadata[e.id], fairness, now.aging(e.id));
        if m.effective.Level() > metadata[e.id].effective.Level() {
          agingCount := agingCount + 1;
        }
        if MissesDeadline(m, starvation, now.deadline(e.id)) {
          m := m.(effective := Normal);
          deadlineCount := deadlineCount + 1;
        }
        metadata := metadata[e.id := m];
        entries := entries + multiset{e.(effective := m.effective)};
        left := left - {e.id};
      }
      ready := entries;
      metrics := Metrics(metrics.agingEvents + agingCount, metrics.deadlineEnforcements + deadlineCount);
      AgingEnds(model, old(Fields()), metadata, now, left, entries);
      CountsEnd(model, now);
    }

    /**
     * Takes entries out until a runnable task comes; those of Ready tasks that do not fit are put back,
     * those of tasks that are no longer Ready are dropped.
     */
    method Select(ghost a: Sched) returns (found: Option<ReadyEntry>)
      requires Inv(a) && View(a.nodes, Fields()) && HeapOk(ready, a.nodes) && pool == a.pool
      modifies `ready
      ensures found.None? ==> (forall t :: !Runnable(a, t)) && HeapOk(ready, Swept(a).nodes)
      ensures found.Some? ==> Best(a, found.value.id) && found.value.id in a.nodes
      ensures found.Some? ==> found.value == EntryOf(a.nodes[found.value.id])
      ensures found.Some? ==> HeapOk(ready, Started(a, found.value.id).nodes)
    {
      hide Inv, View, NodeView, HeapOk, HeapOf, Started, Swept, Best, Runnable, Selecting, Outranks;
      ghost var left, skippedIds := Queued(a.nodes), {};
      var skipped := multiset{};
      SelectStarts(a, ready);
      while ready != multiset{}
        modifies `ready
        invariant HeapOf(ready, a.nodes, left) && HeapOf(skipped, a.nodes, skippedIds)
        invariant Selecting(a, left, skippedIds)
        decreases left
      {
        var entry, rest := PopMax(ready);
        SelectStep(a, ready, left, skippedIds, entry, rest);
        StatusView(a.nodes, Fields(), entry.id);
        ready := rest;
        if states[entry.id] == Ready {
          if pool.None? || pool.value.used.Plus(tasks[entry.id].resources).FitsIn(pool.value.capacity) {
            SelectFound(a, ready, skipped, left, skippedIds, entry);
            ready := ready + skipped;
            return Some(entry);
          }
          SelectSkip(a, skipped, left, skippedIds, entry);
          skipped := skipped + multiset{entry};
          skippedIds := skippedIds + {entry.id};
        }
        left := left - {entry.id};
      }
      SelectNone(a, ready, skipped, left, skippedIds);
      ready := ready + skipped;
      found := None;
    }

    /** The task of the entry runs, and takes its share of the pool. */
    method Start(e: ReadyEntry, ghost a: Sched)
      requires Inv(a) && Runnable(a, e.id) && e.id in a.nodes && e == EntryOf(a.nodes[e.id])
      requires View(a.nodes, Fields()) && EdgesOk(successors, a.nodes)
      requires HeapOk(ready, Started(a, e.id).nodes)
      requires pool == a.pool && fairness == a.fairness && starvation == a.starvation
      modifies `states, `pool, `running, `metadata, `model
      ensures Valid() && model == Started(a, e.id) && e.id in tasks && tasks[e.id] == a.nodes[e.id].task
      ensures states == old(states)[e.id := Running]
    {
      hide Inv, EdgesOk, View, NodeView, HeapOk, Started, Runnable;
      var id := e.id;
      StartFacts(a, Fields(), successors, e);
      states := states[id := Running];
      if pool.Some? {
        pool := Some(Pool(pool.value.capacity, pool.value.used.Plus(tasks[id].resources)));
        running := running[id := tasks[id].resources];
      }
      metadata := metadata[id := metadata[id].(effective := e.original)];
      model := Started(a, id);
    }

    /** Hands out the runnable task with the greatest priority, after aging, and among those the greatest id. */
    method Dequeue(now: Readings) returns (result: Option<Task>)
      requires Valid()
      modifies this
      ensures Valid() && Next(old(model), Op.Dequeue(now, result), model)
      ensures result.None? ==> states == old(states) && forall t :: !Candidate(old(model), t)
      ensures result.Some? ==>
                && result.value.id in old(tasks) && result.value == old(tasks)[result.value.id]
                && states == old(states)[result.value.id := Running] && FirstChoice(old(model), result.value.id, now)
      ensures metrics == Metrics(old(metrics).agingEvents + |Raised(old(model), now)|,
                                 old(metrics).deadlineEnforcements + |Enforced(old(model), now)|)
    {
      hide Inv, EdgesOk, View, NodeView, HeapOk, AgedState, Started, Swept, Best, Runnable, Next, Raised, Enforced,
          Candidate, FirstChoice;
      Age(now);
      ghost var a := AgedState(model, now);
      AgedFacts(model, successors, now);
      var found := Select(a);
      if found.Some? {
        var id := found.value.id;
        HandsOutBest(model, now, id);
        Start(found.value, a);
        DequeueChoice(old(model), now, model, Some(tasks[id]));
        return Some(tasks[id]);
      }
      SweepView(a, successors, Fields());
      SweepKeepsInv(a);
      HandsOutNone(model, now);
      model := Swept(a);
      DequeueChoice(old(model), now, model, None);
      result := None;
    }
  }

  lemma HandsOutBest(s: Sched, now: Readings, id: TaskId)
    requires Inv(s) && Best(AgedState(s, now), id)
    ensures Runnable(AgedState(s, now), id) && id in s.nodes && id in AgedState(s, now).nodes
    ensures AgedState(s, now).nodes[id].task == s.nodes[id].task && s.nodes[id].task.id == id
    ensures Next(s, Op.Dequeue(now, Some(s.nodes[id].task)), Started(AgedState(s, now), id))
  {
  }

  lemma HandsOutNone(s: Sched, now: Readings)
    requires forall t :: !Runnable(AgedState(s, now), t)
    ensures Next(s, Op.Dequeue(now, None), Swept(AgedState(s, now)))
  {
  }

  lemma AgedFacts(s: Sched, successors: map<TaskId, set<TaskId>>, now: Readings)
    requires Inv(s) && EdgesOk(successors, s.nodes)
    ensures Inv(AgedState(s, now)) && EdgesOk(successors, AgedState(s, now).nodes)
    ensures AgedState(s, now).pool == s.pool
    ensures AgedState(s, now).fairness == s.fairness && AgedState(s, now).starvation == s.starvation
  {
    AgingKeepsInv(s, now);
    EdgesKept(successors, s.nodes, AgedState(s, now).nodes);
  }

  /** left is still in the heap; the tasks that came out before them and that are Ready do not fit. */
  ghost predicate Selecting(a: Sched, left: set<TaskId>, skipped: set<TaskId>) {
    && left <= Queued(a.nodes) && skipped <= Queued(a.nodes) - left
    && (forall t, u :: t in Queued(a.nodes) - left && u in left ==> KeyLess(a.nodes, u, t))
    && (forall t :: t in Queued(a.nodes) - left ==> (t in skipped <==> a.nodes[t].status == Ready))
    && (forall t :: t in skipped ==> !CanFit(a.pool, a.nodes[t].task.resources))
  }

  ghost predicate Outranks(a: Sched, id: TaskId, left: set<TaskId>) {
    id in a.nodes && forall u :: u in left - {id} ==> u in a.nodes && KeyLess(a.nodes, u, id)
  }

  lemma SelectStarts(a: Sched, ready: multiset<ReadyEntry>)
    requires HeapOk(ready, a.nodes)
    ensures HeapOf(ready, a.nodes, Queued(a.nodes)) && HeapOf(multiset{}, a.nodes, {})
        && Selecting(a, Queued(a.nodes), {})
  {
  }

  lemma SelectStep(a: Sched, ready: multiset<ReadyEntry>, left: set<TaskId>, skipped: set<TaskId>, e: ReadyEntry,
      rest: multiset<ReadyEntry>)
    requires Inv(a) && HeapOf(ready, a.nodes, left) && Selecting(a, left, skipped)
    requires e in ready && (forall f :: f in ready ==> EntryLeq(f, e)) && rest == ready - multiset{e}
    ensures e.id in left && e.id in a.nodes && e == EntryOf(a.nodes[e.id])
    ensures HeapOf(rest, a.nodes, left - {e.id})
    ensures Outranks(a, e.id, left)
    ensures a.nodes[e.id].status != Ready ==> Selecting(a, left - {e.id}, skipped)
  {
    assert ready[e] > 0;
    forall u | u in left - {e.id}
      ensures KeyLess(a.nodes, u, e.id)
    {
      var f := EntryOf(a.nodes[u]);
      assert a.nodes[u].task.id == u;
      assert ready[f] == 1;
      assert EntryLeq(f, e);
    }
  }

  lemma SelectSkip(a: Sched, heap: multiset<ReadyEntry>, left: set<TaskId>, skipped: set<TaskId>, e: ReadyEntry)
    requires Selecting(a, left, skipped) && e.id in left && e == EntryOf(a.nodes[e.id])
    requires HeapOf(heap, a.nodes, skipped) && a.nodes[e.id].status == Ready
        && !CanFit(a.pool, a.nodes[e.id].task.resources)
    requires Outranks(a, e.id, left)
    ensures HeapOf(heap + multiset{e}, a.nodes, skipped + {e.id})
    ensures Selecting(a, left - {e.id}, skipped + {e.id})
  {
  }

  lemma SelectFound(a: Sched, rest: multiset<ReadyEntry>, heap: multiset<ReadyEntry>, left: set<TaskId>,
      skipped: set<TaskId>, e: ReadyEntry)
    requires Inv(a) && Selecting(a, left, skipped) && e.id in left && e == EntryOf(a.nodes[e.id])
    requires HeapOf(rest, a.nodes, left - {e.id}) && HeapOf(heap, a.nodes, skipped)
    requires a.nodes[e.id].status == Ready && CanFit(a.pool, a.nodes[e.id].task.resources)
    requires Outranks(a, e.id, left)
    ensures Best(a, e.id) && Runnable(a, e.id)
    ensures HeapOk(rest + heap, Started(a, e.id).nodes)
  {
    forall u | Runnable(a, u) && u != e.id
      ensures KeyLess(a.nodes, u, e.id)
    {
      assert u in Queued(a.nodes);
    }
    var nodes := Started(a, e.id).nodes;
    forall t
      ensures t in Queued(nodes) <==> t in (left - {e.id}) + skipped
    {
      if t in a.nodes { var n := nodes[t]; }
      if t in Queued(a.nodes) - left { assert KeyLess(a.nodes, e.id, t); }
    }
    assert Queued(nodes) == (left - {e.id}) + skipped;
    forall f
      ensures (rest + heap)[f] == if f.id in Queued(nodes) && f.id in nodes && f == EntryOf(nodes[f.id]) then 1 else 0
    {
      assert (rest + heap)[f] == rest[f] + heap[f];
    }
  }

  lemma SelectNone(a: Sched, rest: multiset<ReadyEntry>, heap: multiset<ReadyEntry>, left: set<TaskId>,
      skipped: set<TaskId>)
    requires Inv(a) && Selecting(a, left, skipped) && rest == multiset{}
    requires HeapOf(rest, a.nodes, left) && HeapOf(heap, a.nodes, skipped)
    ensures forall t :: !Runnable(a, t)
    ensures HeapOk(rest + heap, Swept(a).nodes)
  {
    EmptyHeap(a.nodes, left);
    forall t | t in a.nodes && a.nodes[t].status == Ready
      ensures t in skipped
    {
      assert t in Queued(a.nodes);
    }
    var nodes := Swept(a).nodes;
    forall t
      ensures t in Queued(nodes) <==> t in skipped
    {
      if t in a.nodes { var n := nodes[t]; }
    }
    assert Queued(nodes) == skipped;
    assert rest + heap == heap;
  }

  function StartedMaps(m: Maps, e: ReadyEntry, pooled: bool): Maps
    requires e.id in m.tasks && e.id in m.metadata
  {
    m.(states := m.states[e.id := Running],
       metadata := m.metadata[e.id := m.metadata[e.id].(effective := e.original)],
       running := if pooled then m.running[e.id := m.tasks[e.id].resources] else m.running)
  }

  lemma StartNodeView(a: Sched, m: Maps, e: ReadyEntry, t: TaskId)
    requires e.id in a.nodes && e == EntryOf(a.nodes[e.id]) && NodeView(a.nodes[e.id], m, e.id)
    requires t in a.nodes && NodeView(a.nodes[t], m, t)
    ensures NodeView(StartedNode(a, e.id, t), StartedMaps(m, e, a.pool.Some?), t)
  {
    hide KeyLess;
  }

  lemma StartView(a: Sched, m: Maps, e: ReadyEntry)
    requires View(a.nodes, m) && e.id in a.nodes && e == EntryOf(a.nodes[e.id])
    ensures View(Started(a, e.id).nodes, StartedMaps(m, e, a.pool.Some?))
  {
    assert NodeView(a.nodes[e.id], m, e.id);
    hide NodeView, StartedNode, EntryOf;
    var nodes := Started(a, e.id).nodes;
    forall t | t in nodes
      ensures NodeView(nodes[t], StartedMaps(m, e, a.pool.Some?), t)
    {
      StartNodeView(a, m, e, t);
    }
  }

  lemma StartPool(a: Sched, need: Resources, id: TaskId)
    requires id in a.nodes && a.nodes[id].task.resources == need
    ensures Started(a, id).fairness == a.fairness && Started(a, id).starvation == a.starvation
    ensures Started(a, id).pool ==
            if a.pool.Some? then Some(Pool(a.pool.value.capacity, a.pool.value.used.Plus(need))) else None
  {
    hide StartedNode;
  }

  lemma StartEdges(successors: map<TaskId, set<TaskId>>, a: Sched, id: TaskId)
    requires EdgesOk(successors, a.nodes) && id in a.nodes
    ensures EdgesOk(successors, Started(a, id).nodes)
  {
    EdgesKept(successors, a.nodes, Started(a, id).nodes);
  }

  lemma StartFacts(a: Sched, m: Maps, successors: map<TaskId, set<TaskId>>, e: ReadyEntry)
    requires Inv(a) && Runnable(a, e.id) && View(a.nodes, m) && e.id in a.nodes && e == EntryOf(a.nodes[e.id])
    requires EdgesOk(successors, a.nodes)
    ensures e.id in m.tasks && e.id in m.states && e.id in m.metadata && m.tasks[e.id] == a.nodes[e.id].task
    ensures var s' := Started(a, e.id);
            && Inv(s') && View(s'.nodes, StartedMaps(m, e, a.pool.Some?)) && EdgesOk(successors, s'.nodes)
            && s'.fairness == a.fairness && s'.starvation == a.starvation
            && s'.pool == if a.pool.Some? then Some(Pool(a.pool.value.capacity,
                a.pool.value.used.Plus(m.tasks[e.id].resources))) else None
  {
    hide Inv, View, EdgesOk, Started, Runnable;
    StatusView(a.nodes, m, e.id);
    StartView(a, m, e);
    StartPool(a, m.tasks[e.id].resources, e.id);
    StartEdges(successors, a, e.id);
    StartKeepsInv(a, e.id);
  }

  lemma SweepView(a: Sched, successors: map<TaskId, set<TaskId>>, m: Maps)
    requires View(a.nodes, m) && EdgesOk(successors, a.nodes)
    ensures View(Swept(a).nodes, m) && EdgesOk(successors, Swept(a).nodes)
    ensures Swept(a).pool == a.pool && Swept(a).fairness == a.fairness && Swept(a).starvation == a.starvation
  {
    ViewIgnoresQueue(a.nodes, Swept(a).nodes, m);
    EdgesKept(successors, a.nodes, Swept(a).nodes);
  }

  lemma EmptyHeap(nodes: Nodes, ids: set<TaskId>)
    requires HeapOf(multiset{}, nodes, ids) && ids <= nodes.Keys
    requires forall t :: t in nodes ==> nodes[t].task.id == t
    ensures ids == {}
  {
    forall t | t in nodes
      ensures t !in ids
    {
      var e := EntryOf(nodes[t]);
      assert multiset{}[e] == 0;
    }
  }

  /** The metadata is aged except for the tasks that are left. */
  ghost predicate Aging(s: Sched, metadata: map<TaskId, Meta>, now: Readings, left: set<TaskId>) {
    && metadata.Keys == s.nodes.Keys
    && forall t {:trigger metadata[t]} :: t in s.nodes ==>
         metadata[t] == if t in left then s.nodes[t].meta else AgedNode(s, s.nodes[t], now).meta
  }

  lemma AgingStarts(s: Sched, m: Maps, now: Readings)
    requires View(s.nodes, m)
    ensures Aging(s, m.metadata, now, Queued(s.nodes))
    ensures HeapOf(multiset{}, AgedState(s, now).nodes, {})
  {
    assert forall t :: t in s.nodes ==> NodeView(s.nodes[t], m, t);
  }

  lemma AgingStep(s: Sched, metadata: map<TaskId, Meta>, now: Readings, left: set<TaskId>, e: ReadyEntry,
                  drained: multiset<ReadyEntry>, entries: multiset<ReadyEntry>)
    requires Inv(s) && left <= Queued(s.nodes) && Aging(s, metadata, now, left)
    requires HeapOf(drained + multiset{e}, s.nodes, left)
        && HeapOf(entries, AgedState(s, now).nodes, Queued(s.nodes) - left)
    ensures e.id in left && e.id in metadata && HeapOf(drained, s.nodes, left - {e.id})
    ensures var m := Refreshed(metadata[e.id], s.fairness, s.starvation, now.aging(e.id), now.deadline(e.id));
            && Aging(s, metadata[e.id := m], now, left - {e.id})
            && HeapOf(entries + multiset{e.(effective := m.effective)}, AgedState(s, now).nodes,
                Queued(s.nodes) - (left - {e.id}))
  {
    assert (drained + multiset{e})[e] == 1;
    var aged := AgedState(s, now).nodes;
    var e' := e.(effective := Refreshed(metadata[e.id], s.fairness, s.starvation, now.aging(e.id),
        now.deadline(e.id)).effective);
    assert e' == EntryOf(aged[e.id]);
    forall f
      ensures drained[f] == if f.id in left - {e.id} && f.id in s.nodes && f == EntryOf(s.nodes[f.id]) then 1 else 0
      ensures (entries + multiset{e'})[f] == if f.id in Queued(s.nodes) - (left - {e.id}) && f.id in aged
          && f == EntryOf(aged[f.id]) then 1 else 0
    {
      assert (drained + multiset{e})[f] == if f.id in left && f.id in s.nodes && f == EntryOf(s.nodes[f.id]) then 1
          else 0;
    }
  }

  /** The tasks that have been raised once only left are still to be aged. */
  ghost function RaisedSoFar(s: Sched, now: Readings, left: set<TaskId>): nat {
    |Raised(s, now) - left|
  }

  ghost function EnforcedSoFar(s: Sched, now: Readings, left: set<TaskId>): nat {
    |Enforced(s, now) - left|
  }

  lemma CountsStart(s: Sched, now: Readings)
    ensures RaisedSoFar(s, now, Queued(s.nodes)) == 0 && EnforcedSoFar(s, now, Queued(s.nodes)) == 0
  {
    hide Aged, MissesDeadline;
    assert Raised(s, now) - Queued(s.nodes) == {} && Enforced(s, now) - Queued(s.nodes) == {};
  }

  lemma CountsEnd(s: Sched, now: Readings)
    ensures RaisedSoFar(s, now, {}) == |Raised(s, now)| && EnforcedSoFar(s, now, {}) == |Enforced(s, now)|
  {
    assert Raised(s, now) - {} == Raised(s, now) && Enforced(s, now) - {} == Enforced(s, now);
  }

  lemma CountsStep(s: Sched, metadata: map<TaskId, Meta>, now: Readings, left: set<TaskId>, id: TaskId)
    requires id in left && left <= Queued(s.nodes) && Aging(s, metadata, now, left) && id in metadata
    ensures var aged := Aged(metadata[id], s.fairness, now.aging(id));
            && RaisedSoFar(s, now, left - {id}) ==
               RaisedSoFar(s, now, left) + (if aged.effective.Level() > metadata[id].effective.Level() then 1 else 0)
            && EnforcedSoFar(s, now, left - {id}) ==
               EnforcedSoFar(s, now, left) + (if MissesDeadline(aged, s.starvation, now.deadline(id)) then 1 else 0)
  {
    hide Aged, MissesDeadline, AgedNode;
    assert metadata[id] == s.nodes[id].meta;
    OneLess(Raised(s, now), left, id);
    OneLess(Enforced(s, now), left, id);
  }

  lemma OneLess(counted: set<TaskId>, left: set<TaskId>, id: TaskId)
    requires id in left
    ensures |counted - (left - {id})| == |counted - left| + if id in counted then 1 else 0
  {
    if id in counted {
      assert counted - (left - {id}) == (counted - left) + {id};
    } else {
      assert counted - (left - {id}) == counted - left;
    }
  }

  lemma AgingView(s: Sched, m: Maps, metadata: map<TaskId, Meta>, now: Readings)
    requires View(s.nodes, m) && Aging(s, metadata, now, {})
    ensures View(AgedState(s, now).nodes, m.(metadata := metadata))
  {
    hide Refreshed;
    var nodes := AgedState(s, now).nodes;
    forall t | t in nodes
      ensures NodeView(nodes[t], m.(metadata := metadata), t)
    {
      assert NodeView(s.nodes[t], m, t);
    }
  }

  lemma AgingQueued(s: Sched, now: Readings)
    ensures Queued(AgedState(s, now).nodes) == Queued(s.nodes)
  {
    hide Refreshed;
    var nodes := AgedState(s, now).nodes;
    forall t
      ensures t in Queued(nodes) <==> t in Queued(s.nodes)
    {
      if t in s.nodes { var n := nodes[t]; }
    }
  }

  lemma AgingEnds(s: Sched, m: Maps, metadata: map<TaskId, Meta>, now: Readings, left: set<TaskId>,
      entries: multiset<ReadyEntry>)
    requires View(s.nodes, m) && Aging(s, metadata, now, left) && Inv(s)
    requires HeapOf(multiset{}, s.nodes, left) && left <= Queued(s.nodes)
    requires HeapOf(entries, AgedState(s, now).nodes, Queued(s.nodes) - left)
    ensures left == {} && View(AgedState(s, now).nodes, m.(metadata := metadata))
    ensures HeapOk(entries, AgedState(s, now).nodes)
  {
    hide View, NodeView, Aging, HeapOf, AgedState;
    assert forall t :: t in s.nodes ==> s.nodes[t].task.id == t;
    EmptyHeap(s.nodes, left);
    AgingView(s, m, metadata, now);
    AgingQueued(s, now);
    assert Queued(s.nodes) - {} == Queued(s.nodes);
  }

  lemma FailStart(nodes: Nodes, m: Maps, id: TaskId)
    requires View(nodes, m) && id in nodes
    ensures Marked(nodes, m.states[id := Failed], id, {})
    ensures nodes[id].held == if id in m.running then Some(m.running[id]) else None
  {
    assert forall t :: t in nodes ==> NodeView(nodes[t], m, t);
  }

  lemma FailNodeView(s: Sched, m: Maps, id: TaskId, m': Maps, t: TaskId)
    requires id in s.nodes && t in s.nodes && NodeView(s.nodes[t], m, t) && NodeView(s.nodes[id], m, id)
    requires m' == m.(states := m'.states, running := if s.nodes[id].status == Running then m.running - {id}
        else m.running)
    requires t in m'.states && m'.states[t] == FailedNode(s.nodes, id, t).status
    ensures NodeView(FailedNode(s.nodes, id, t), m', t)
  {
    hide Cascades;
  }

  lemma FailedFirst(nodes: Nodes, id: TaskId)
    requires id in nodes
    ensures FailedNode(nodes, id, id).status == Failed
  {
  }

  lemma FailView(s: Sched, m: Maps, id: TaskId, m': Maps)
    requires View(s.nodes, m) && id in s.nodes
    requires m' == m.(states := m'.states, running := if s.nodes[id].status == Running then m.running - {id}
        else m.running)
    requires m'.states.Keys == s.nodes.Keys && forall t :: t in s.nodes ==>
        m'.states[t] == FailedNode(s.nodes, id, t).status
    ensures View(FailedState(s, id).nodes, m')
  {
    hide FailedNode, NodeView;
    forall t | t in s.nodes
      ensures NodeView(FailedState(s, id).nodes[t], m', t)
    {
      FailNodeView(s, m, id, m', t);
    }
  }

  lemma FailEnd(s: Sched, ready: multiset<ReadyEntry>, m: Maps, id: TaskId, m': Maps)
    requires View(s.nodes, m) && HeapOk(ready, s.nodes) && id in s.nodes
    requires m' == m.(states := m'.states, running := if s.nodes[id].status == Running then m.running - {id}
        else m.running)
    requires m'.states.Keys == s.nodes.Keys && forall t :: t in s.nodes ==>
        m'.states[t] == FailedNode(s.nodes, id, t).status
    ensures View(FailedState(s, id).nodes, m') && HeapOk(ready, FailedState(s, id).nodes)
    ensures SameGraph(s.nodes, FailedState(s, id).nodes)
    ensures FailedState(s, id).pool == if s.nodes[id].status == Running then ReleasePool(s.pool, s.nodes[id].held)
        else s.pool
    ensures FailedState(s, id).fairness == s.fairness && FailedState(s, id).starvation == s.starvation
  {
    hide Cascades, View, NodeView;
    FailView(s, m, id, m');
    assert Queued(FailedState(s, id).nodes) == Queued(s.nodes);
  }

  lemma RequeueUnknown(s: Sched, id: TaskId, attempt: nat, now: nat)
    ensures Next(s, Op.Requeue(id, attempt, now), RequeuedState(s, id, attempt, now))
    ensures id !in s.nodes ==> RequeuedState(s, id, attempt, now) == s
  {
  }

  function RequeuedMaps(m: Maps, id: TaskId, attempt: nat, now: nat): Maps
    requires id in m.tasks && id in m.states
  {
    var m1 := m.(tasks := m.tasks[id := m.tasks[id].(attempt := attempt)]);
    if m.states[id] == Running
    then m1.(states := m.states[id := Ready], metadata := m.metadata[id := Meta(now, m.tasks[id].priority)])
    else m1
  }

  lemma RequeuedTwice(m: Maps, node: Node, id: TaskId, attempt: nat, now: nat)
    requires NodeView(node, m, id) && node.inDegree >= 0
    ensures var n := RequeuedNode(node, attempt, now);
            Maps(m.tasks[id := n.task], m.states[id := n.status], m.inDegree[id := n.inDegree],
                 m.metadata[id := n.meta],
                 if n.held.Some? then m.running[id := n.held.value] else m.running - {id})
            == RequeuedMaps(m, id, attempt, now)
  {
    var n := RequeuedNode(node, attempt, now);
    assert m.inDegree[id := n.inDegree] == m.inDegree;
    assert (if n.held.Some? then m.running[id := n.held.value] else m.running - {id}) == m.running;
    if m.states[id] != Running {
      assert m.states[id := n.status] == m.states && m.metadata[id := n.meta] == m.metadata;
    }
  }

  lemma RequeueView(s: Sched, m: Maps, id: TaskId, attempt: nat, now: nat)
    requires View(s.nodes, m) && id in s.nodes && Inv(s)
    ensures NodeView(s.nodes[id], m, id) && id in m.tasks && id in m.states && m.states[id] == s.nodes[id].status
    ensures View(RequeuedState(s, id, attempt, now).nodes, RequeuedMaps(m, id, attempt, now))
  {
    InDegreeIsNatural(s, id);
    hide Inv;
    assert NodeView(s.nodes[id], m, id);
    hide View;
    ViewUpdate(s.nodes, m, id, RequeuedNode(s.nodes[id], attempt, now));
    RequeuedTwice(m, s.nodes[id], id, attempt, now);
    hide NodeView, RequeuedNode, RequeuedMaps;
  }

  lemma InDegreeIsNatural(s: Sched, id: TaskId)
    requires Inv(s) && id in s.nodes
    ensures s.nodes[id].inDegree >= 0
  {
    CountLemma(s.nodes, id);
  }

  lemma RequeueStart(s: Sched, ready: multiset<ReadyEntry>, m: Maps, id: TaskId, attempt: nat, now: nat)
    requires View(s.nodes, m) && HeapOk(ready, s.nodes) && id in s.nodes && Inv(s)
    ensures id in m.tasks && id in m.states && m.states[id] == s.nodes[id].status
    ensures View(RequeuedState(s, id, attempt, now).nodes, RequeuedMaps(m, id, attempt, now))
    ensures HeapOk(if m.states[id] == Running
        then ready + multiset{ReadyEntry(m.tasks[id].priority, m.tasks[id].priority, id)} else ready,
                   RequeuedState(s, id, attempt, now).nodes)
    ensures SameGraph(s.nodes, RequeuedState(s, id, attempt, now).nodes)
    ensures RequeuedState(s, id, attempt, now).pool == s.pool
    ensures RequeuedState(s, id, attempt, now).fairness == s.fairness
        && RequeuedState(s, id, attempt, now).starvation == s.starvation
  {
    RequeueView(s, m, id, attempt, now);
    RequeueHeap(s, ready, id, attempt, now);
    assert NodeView(s.nodes[id], m, id);
    hide View, HeapOf, HeapOk, Inv;
  }

  lemma RequeueHeap(s: Sched, ready: multiset<ReadyEntry>, id: TaskId, attempt: nat, now: nat)
    requires HeapOk(ready, s.nodes) && id in s.nodes && Inv(s)
    ensures var priority := s.nodes[id].task.priority;
            HeapOk(if s.nodes[id].status == Running
                   then ready + multiset{ReadyEntry(priority, priority, id)} else ready,
                   RequeuedState(s, id, attempt, now).nodes)
  {
    assert s.nodes[id].task.id == id && NodeOk(s.nodes[id]);
    hide HeapOf, HeapOk, Inv;
    var n := RequeuedNode(s.nodes[id], attempt, now);
    if s.nodes[id].status == Running {
      HeapUpdate(ready, s.nodes, id, n);
    } else {
      HeapKept(ready, s.nodes, id, n);
    }
  }

  ghost function OpenTasks(states: map<TaskId, Status>): set<TaskId> {
    set t | t in states && states[t].Open()
  }

  /** The statuses once id has failed and the marked tasks have been reached. */
  ghost predicate Marked(nodes: Nodes, states: map<TaskId, Status>, id: TaskId, marked: set<TaskId>) {
    && states.Keys == nodes.Keys && marked <= nodes.Keys
    && forall t {:trigger states[t]} :: t in nodes ==>
         states[t] == if t == id then Failed else if t in marked then DependencyFailed else nodes[t].status
  }

  ghost predicate Reached(nodes: Nodes, id: TaskId, marked: set<TaskId>) {
    forall t :: t in marked ==> Cascades(nodes, id, t)
  }

  ghost function OpenDependents(successors: map<TaskId, set<TaskId>>, nodes: Nodes, id: TaskId,
      d: TaskId): set<TaskId> {
    set t | t in Dependents(successors, d) && t in nodes && nodes[t].status.Open() && t != id
  }

  lemma MarkStep(nodes: Nodes, states: map<TaskId, Status>, id: TaskId, marked: set<TaskId>, queue: seq<TaskId>,
      current: TaskId, t: TaskId)
    requires id in nodes && Marked(nodes, states, id, marked) && Reached(nodes, id, marked)
        && Spread(nodes, id, marked, Elements(queue) + {current})
    requires (current == id || current in marked) && DependsOn(nodes, t, current) && t in states && states[t].Open()
    ensures Marked(nodes, states[t := DependencyFailed], id, marked + {t}) && Reached(nodes, id, marked + {t})
    ensures Elements(queue + [t]) == Elements(queue) + {t}
    ensures Spread(nodes, id, marked + {t}, Elements(queue + [t]) + {current})
    ensures OpenTasks(states[t := DependencyFailed]) < OpenTasks(states)
  {
    assert states[t] == nodes[t].status && t != id;
    CascadeExtends(nodes, id, t, current);
    assert t in OpenTasks(states) && t !in OpenTasks(states[t := DependencyFailed]);
  }

  lemma MarkedOrOpen(successors: map<TaskId, set<TaskId>>, nodes: Nodes, states: map<TaskId, Status>, id: TaskId,
                     marked: set<TaskId>, current: TaskId, t: TaskId)
    requires Marked(nodes, states, id, marked)
    ensures t in OpenDependents(successors, nodes, id, current) ==> t in marked || (t in states && states[t].Open())
  {
  }

  lemma CurrentDone(successors: map<TaskId, set<TaskId>>, nodes: Nodes, id: TaskId, current: TaskId,
      marked: set<TaskId>, waiting: set<TaskId>)
    requires EdgesOk(successors, nodes) && Spread(nodes, id, marked, waiting + {current})
    requires OpenDependents(successors, nodes, id, current) <= marked
    ensures Spread(nodes, id, marked, waiting)
  {
    forall t | DependsOn(nodes, t, current) && nodes[t].status.Open() && t != id
      ensures t in marked
    {
      assert Edge(successors, current, t);
      assert t in OpenDependents(successors, nodes, id, current);
    }
  }

  /** Open successors of id and of the marked tasks are marked, except for the tasks still waiting. */
  ghost predicate Spread(nodes: Nodes, id: TaskId, marked: set<TaskId>, waiting: set<TaskId>) {
    forall t, d {:trigger DependsOn(nodes, t, d)} ::
      DependsOn(nodes, t, d) && (d == id || d in marked) && d !in waiting && nodes[t].status.Open() && t != id ==>
          t in marked
  }

  lemma {:induction false} SpreadCovers(nodes: Nodes, id: TaskId, marked: set<TaskId>, p: seq<TaskId>)
    requires Spread(nodes, id, marked, {}) && CascadePath(nodes, id, p) && |p| >= 2
    ensures p[|p| - 1] in marked
  {
    var q := p[..|p| - 1];
    if |q| >= 2 {
      SpreadCovers(nodes, id, marked, q);
    }
    assert DependsOn(nodes, p[|p| - 1], p[|p| - 2]);
  }

  lemma SpreadIsCascade(nodes: Nodes, id: TaskId, marked: set<TaskId>)
    requires Spread(nodes, id, marked, {}) && Reached(nodes, id, marked)
    ensures forall t :: Cascades(nodes, id, t) <==> t in marked
  {
    forall t | Cascades(nodes, id, t)
      ensures t in marked
    {
      var p :| CascadePath(nodes, id, p) && |p| >= 2 && p[|p| - 1] == t;
      SpreadCovers(nodes, id, marked, p);
    }
  }

  lemma StatusView(nodes: Nodes, m: Maps, id: TaskId)
    requires View(nodes, m)
    ensures id in nodes <==> id in m.states
    ensures id in nodes <==> id in m.tasks
    ensures id in nodes ==> NodeView(nodes[id], m, id)
  {
  }

  lemma CanCompleteView(s: Sched, m: Maps, id: TaskId)
    requires View(s.nodes, m)
    ensures CanComplete(s, id) <==> id in m.states && m.states[id] == Running
    ensures CanComplete(s, id) ==> id in s.nodes
    ensures !CanComplete(s, id) ==> forall now :: Next(s, Op.Complete(id, now), s)
  {
    StatusView(s.nodes, m, id);
  }

  lemma CompletedEntry(s: Sched, ready: multiset<ReadyEntry>, id: TaskId)
    requires Inv(s) && CanComplete(s, id) && HeapOk(ready, s.nodes)
    ensures HeapOk(ready, s.nodes[id := s.nodes[id].(status := Completed, held := None)])
  {
    assert NodeOk(s.nodes[id]);
    hide Inv, HeapOf, HeapOk;
    HeapKept(ready, s.nodes, id, s.nodes[id].(status := Completed, held := None));
  }

  lemma CompleteStart(s: Sched, ready: multiset<ReadyEntry>, m: Maps, id: TaskId)
    requires Inv(s) && CanComplete(s, id) && View(s.nodes, m) && HeapOk(ready, s.nodes)
    ensures View(s.nodes[id := s.nodes[id].(status := Completed, held := None)],
                 m.(states := m.states[id := Completed], running := m.running - {id}))
    ensures HeapOk(ready, s.nodes[id := s.nodes[id].(status := Completed, held := None)])
    ensures s.nodes[id].held == if id in m.running then Some(m.running[id]) else None
  {
    var n := s.nodes[id].(status := Completed, held := None);
    assert NodeView(s.nodes[id], m, id);
    CompletedEntry(s, ready, id);
    InDegreeIsNatural(s, id);
    hide Inv, HeapOf, HeapOk;
    ViewUpdate(s.nodes, m, id, n);
    hide View;
    assert m.tasks[id := n.task] == m.tasks && m.inDegree[id := n.inDegree] == m.inDegree
        && m.metadata[id := n.meta] == m.metadata;
  }

  lemma EdgesKept(successors: map<TaskId, set<TaskId>>, nodes: Nodes, nodes': Nodes)
    requires EdgesOk(successors, nodes) && SameGraph(nodes, nodes')
    ensures EdgesOk(successors, nodes')
  {
    forall d, t
      ensures DependsOn(nodes', t, d) <==> DependsOn(nodes, t, d)
    {
      assert t in nodes ==> SameEdges(nodes[t], nodes'[t]);
    }
  }

  predicate Unblocks(m: Maps, t: TaskId)
    requires t in m.inDegree && t in m.states
  {
    m.inDegree[t] == 1 && m.states[t] == Pending
  }

  function UnblockedMaps(m: Maps, t: TaskId, now: nat): Maps
    requires t in m.tasks && t in m.states && t in m.inDegree && m.inDegree[t] > 0
  {
    var m1 := m.(inDegree := m.inDegree[t := m.inDegree[t] - 1]);
    if Unblocks(m, t) then m1.(states := m.states[t := Ready],
        metadata := m.metadata[t := Meta(now, m.tasks[t].priority)])
    else m1
  }

  lemma UnblockStart(mid: Nodes, ready: multiset<ReadyEntry>, m: Maps, t: TaskId, now: nat)
    requires View(mid, m) && HeapOk(ready, mid)
    requires t in mid && mid[t].inDegree > 0 && mid[t].task.id == t && (mid[t].status == Pending ==> !mid[t].queued)
    ensures t in m.tasks && t in m.states && t in m.inDegree && m.inDegree[t] > 0
    ensures View(mid[t := Unblock(mid[t], now)], UnblockedMaps(m, t, now))
    ensures HeapOk(if Unblocks(m, t) then ready + multiset{ReadyEntry(m.tasks[t].priority, m.tasks[t].priority, t)}
        else ready,
                   mid[t := Unblock(mid[t], now)])
  {
    var n := Unblock(mid[t], now);
    assert NodeView(mid[t], m, t);
    ViewChange(mid, m, t, n);
    hide View, NodeView, HeapOf, HeapOk;
    if Unblocks(m, t) {
      HeapUpdate(ready, mid, t, n);
    } else {
      HeapKept(ready, mid, t, n);
      assert m.states[t := n.status] == m.states && m.metadata[t := n.meta] == m.metadata;
    }
  }

  /** Dependents of id outside todo have been processed, and so has id. */
  ghost predicate Unblocking(nodes: Nodes, mid: Nodes, id: TaskId, now: TaskId -> nat, todo: set<TaskId>) {
    && mid.Keys == nodes.Keys
    && (forall t :: t in todo ==> t in nodes && t != id && DependsOn(nodes, t, id))
    && (forall t {:trigger mid[t]} :: t in nodes ==>
        mid[t] == if t in todo then nodes[t] else CompletedNode(nodes, id, t, now))
    && (forall t {:trigger nodes[t]} :: t in nodes && DependsOn(nodes, t, id) ==>
          nodes[t].inDegree > 0 && nodes[t].task.id == t && (nodes[t].status == Pending ==> !nodes[t].queued))
  }

  lemma CompleteFacts(s: Sched, successors: map<TaskId, set<TaskId>>, id: TaskId, now: TaskId -> nat)
    requires Inv(s) && CanComplete(s, id) && EdgesOk(successors, s.nodes)
    ensures Unblocking(s.nodes, s.nodes[id := s.nodes[id].(status := Completed, held := None)], id, now,
        Dependents(successors, id))
  {
    forall t
      ensures t in Dependents(successors, id) <==> DependsOn(s.nodes, t, id)
    {
      assert Edge(successors, id, t) <==> DependsOn(s.nodes, t, id);
    }
    forall t | DependsOn(s.nodes, t, id)
      ensures s.nodes[t].inDegree > 0 && t != id
    {
      CountLemma(s.nodes, t);
      DependencyKnown(s.nodes, s.order, t, id);
    }
  }

  lemma UnblockingStep(nodes: Nodes, mid: Nodes, id: TaskId, now: TaskId -> nat, todo: set<TaskId>, t: TaskId)
    requires Unblocking(nodes, mid, id, now, todo + {t}) && t !in todo
    ensures t in mid && mid[t].inDegree > 0 && mid[t].task.id == t && (mid[t].status == Pending ==> !mid[t].queued)
    ensures Unblocking(nodes, mid[t := Unblock(mid[t], now(t))], id, now, todo)
  {
  }

  lemma CompletedView(nodes: Nodes, mid: Nodes, m: Maps, id: TaskId, now: TaskId -> nat)
    requires id in nodes && Unblocking(nodes, mid, id, now, {}) && View(mid, m)
    ensures id in m.states && m.states[id] == Completed
  {
    assert NodeView(mid[id], m, id);
  }

  lemma CompleteEnd(s: Sched, mid: Nodes, id: TaskId, now: TaskId -> nat)
    requires id in s.nodes && Unblocking(s.nodes, mid, id, now, {})
    ensures CompletedState(s, id, now) == s.(nodes := mid, pool := ReleasePool(s.pool, s.nodes[id].held))
    ensures SameGraph(s.nodes, mid)
  {
  }

  lemma CompleteEnds(s: Sched, successors: map<TaskId, set<TaskId>>, mid: Nodes, id: TaskId, now: TaskId -> nat)
    requires Inv(s) && CanComplete(s, id) && Unblocking(s.nodes, mid, id, now, {}) && EdgesOk(successors, s.nodes)
    ensures var s' := CompletedState(s, id, now);
            && Inv(s') && EdgesOk(successors, s'.nodes) && s'.nodes == mid
                && s'.pool == ReleasePool(s.pool, s.nodes[id].held)
            && s'.fairness == s.fairness && s'.starvation == s.starvation
    ensures Next(s, Op.Complete(id, now), CompletedState(s, id, now))
  {
    hide Inv, EdgesOk, CompletedState, CompletedNode, SameGraph, Unblocking;
    CompleteEnd(s, mid, id, now);
    EdgesKept(successors, s.nodes, mid);
    CompleteKeepsInv(s, id, now);
  }

  function InsertedMaps(m: Maps, task: Task, now: nat): Maps {
    m.(tasks := m.tasks[task.id := task],
       states := m.states[task.id := if |task.dependencies| == 0 then Ready else Pending],
       inDegree := m.inDegree[task.id := |task.dependencies|],
       metadata := m.metadata[task.id := Meta(now, task.priority)])
  }

  lemma InsertView(nodes: Nodes, m: Maps, task: Task, now: nat)
    requires View(nodes, m) && task.id !in nodes
    ensures View(nodes[task.id := NewNode(nodes, task, now)], InsertedMaps(m, task, now))
  {
    ViewUpdate(nodes, m, task.id, NewNode(nodes, task, now));
    assert m.running - {task.id} == m.running;
  }

  lemma InsertHeap(heap: multiset<ReadyEntry>, nodes: Nodes, task: Task, now: nat)
    requires HeapOk(heap, nodes) && task.id !in nodes
    ensures HeapOk(if |task.dependencies| == 0 then heap + multiset{ReadyEntry(task.priority, task.priority, task.id)}
        else heap,
                   nodes[task.id := NewNode(nodes, task, now)])
  {
    HeapUpdate(heap, nodes, task.id, NewNode(nodes, task, now));
  }

  lemma InsertState(s: Sched, task: Task, now: nat)
    ensures Enqueued(s, task, now).nodes == s.nodes[task.id := NewNode(s.nodes, task, now)]
    ensures Enqueued(s, task, now).pool == s.pool
    ensures Enqueued(s, task, now).fairness == s.fairness && Enqueued(s, task, now).starvation == s.starvation
  {
  }

  lemma InsertFacts(s: Sched, m: Maps, ready: multiset<ReadyEntry>, successors: map<TaskId, set<TaskId>>, task: Task,
      now: nat)
    requires Inv(s) && Accepted(s.nodes, task) && task.id !in s.nodes
    requires View(s.nodes, m) && HeapOk(ready, s.nodes) && EdgesWith(successors, s.nodes, task)
    ensures var s' := Enqueued(s, task, now);
            && Inv(s') && View(s'.nodes, InsertedMaps(m, task, now)) && EdgesOk(successors, s'.nodes)
            && HeapOk(if |task.dependencies| == 0
                then ready + multiset{ReadyEntry(task.priority, task.priority, task.id)} else ready, s'.nodes)
            && s'.pool == s.pool && s'.fairness == s.fairness && s'.starvation == s.starvation
  {
    hide Inv, View, NodeView, HeapOk, EdgesOk, EdgesWith, Accepted, Enqueued, NewNode;
    InsertState(s, task, now);
    InsertView(s.nodes, m, task, now);
    InsertHeap(ready, s.nodes, task, now);
    InsertEdges(successors, s.nodes, task, now);
    EnqueueKeepsInv(s, task, now);
  }

  lemma InsertEdges(successors: map<TaskId, set<TaskId>>, nodes: Nodes, task: Task, now: nat)
    requires EdgesWith(successors, nodes, task) && task.id !in nodes
    ensures EdgesOk(successors, nodes[task.id := NewNode(nodes, task, now)])
  {
    var nodes' := nodes[task.id := NewNode(nodes, task, now)];
    forall d, t
      ensures DependsOn(nodes', t, d) <==> DependsOn(nodes, t, d) || (t == task.id && d in task.dependencies)
    {
    }
  }

  lemma ViewedTasks(nodes: Nodes, m: Maps)
    requires View(nodes, m)
    ensures m.tasks == Runs.TasksOf(nodes)
  {
    assert forall t :: t in nodes ==> NodeView(nodes[t], m, t);
  }

  lemma AcceptedView(nodes: Nodes, m: Maps, task: Task)
    requires View(nodes, m)
    ensures Accepted(nodes, task) <==> task.id !in m.tasks && forall d :: d in task.dependencies ==> d in m.tasks
  {
  }

  /** The task map with the new task tentatively in it. */
  ghost predicate TentativeGraph(nodes: Nodes, tasks: Tasks, task: Task) {
    && task.id !in nodes
    && tasks == Runs.TasksOf(nodes)[task.id := task]
    && forall d :: d in task.dependencies ==> Known(nodes, task, d)
  }

  /** Since all other dependencies exist already, the only possible cycle is a task that lists itself. */
  lemma TentativeCycle(s: Sched, tasks: Tasks, task: Task)
    requires Inv(s) && TentativeGraph(s.nodes, tasks, task)
    ensures Closed(tasks)
    ensures HasCycle(tasks) <==> task.id in task.dependencies
  {
    var nodes, order := s.nodes, s.order;
    Runs.OrderedIsAcyclic(nodes, order);
    forall t, d | t in tasks && d in tasks[t].dependencies
      ensures d in tasks
    {
      if t != task.id { assert DependsOn(nodes, t, d); DependencyKnown(nodes, order, t, d); }
    }
    if task.id in task.dependencies {
      assert IsCycle(tasks, [task.id, task.id]);
    } else {
      forall i, d | 0 <= i < |order| && d in tasks[order[i]].dependencies
        ensures Before(order, i, d)
      {
        assert DependsOn(nodes, order[i], d);
      }
      TopologicalAppend(tasks, order, task.id);
      TopologicalIsAcyclic(tasks, order + [task.id]);
    }
  }
}
