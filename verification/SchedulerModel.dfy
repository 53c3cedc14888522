/**
 * What one scheduler operation does, on values: for each task one node with everything the program keeps
 * about it in its separate maps, and for each operation the state it leads to. The maps, the heap, the reverse
 * edges and the loops are in DagScheduler, which is proved to follow these definitions.
 */
module SchedulerModel {
  import opened Core
  import opened TaskGraph

  datatype Status = Pending | Ready | Running | Completed | Failed | DependencyFailed {
    predicate Terminal() {
      Completed? || Dead()
    }
    predicate Dead() {
      Failed? || DependencyFailed?
    }
    // Ready, Running and Completed tasks are past their dependencies.
    predicate Unblocked() {
      Ready? || Running? || Completed?
    }
    predicate Open() {
      Pending? || Ready?
    }
  }

  /** When a task last became ready (ms), and its priority after aging. */
  datatype Meta = Meta(since: nat, effective: Priority)

  /**
   * queued: the task owns an entry of the ready heap. held: its record in running_resources.
   * early is history: the dependencies that had already ended when the task was enqueued.
   */
  datatype Node = Node(
    task: Task, status: Status, inDegree: int, meta: Meta, queued: bool, held: Option<Resources>, early: set<TaskId>)

  datatype FairnessPolicy = FairnessPolicy(thresholdMs: nat, boostLevels: nat) {
    // boost_levels is a u8.
    predicate Valid() {
      boostLevels < 256
    }
  }

  datatype StarvationPolicy = StarvationPolicy(enforce: bool, maxWaitMs: nat)

  datatype Pool = Pool(capacity: Resources, used: Resources)

  datatype EnqueueError = DuplicateTask(id: TaskId) | UnknownDependency(id: TaskId) | CyclicDependency(id: TaskId)

  type Nodes = map<TaskId, Node>

  /** order and leaked are history: the successful enqueues, and the resources of tasks requeued while running. */
  datatype Sched = Sched(
    nodes: Nodes, pool: Option<Pool>, fairness: FairnessPolicy, starvation: StarvationPolicy,
    order: seq<TaskId>, leaked: Resources)

  ghost function Empty(pool: Option<Resources>, fairness: FairnessPolicy, starvation: StarvationPolicy): Sched {
    Sched(map[], if pool.Some? then Some(Pool(pool.value, NOTHING)) else None, fairness, starvation, [], NOTHING)
  }

  /** t lists d as a dependency. */
  ghost predicate DependsOn(nodes: Nodes, t: TaskId, d: TaskId) {
    t in nodes && d in nodes[t].task.dependencies
  }

  // ----- enqueue -----

  predicate Known(nodes: Nodes, task: Task, d: TaskId) {
    d in nodes || d == task.id
  }

  /** d is the first dependency of the task that is unknown. */
  ghost predicate FirstUnknown(nodes: Nodes, task: Task, d: TaskId) {
    exists k :: 0 <= k < |task.dependencies| && task.dependencies[k] == d && !Known(nodes, task, d)
                && forall j :: 0 <= j < k ==> Known(nodes, task, task.dependencies[j])
  }

  ghost predicate Accepted(nodes: Nodes, task: Task) {
    && task.id !in nodes
    && forall d :: d in task.dependencies ==> d in nodes
  }

  /** The error that refuses the task. */
  ghost predicate Refused(nodes: Nodes, task: Task, error: EnqueueError) {
    match error
    case DuplicateTask(id) => id == task.id && task.id in nodes
    case UnknownDependency(d) => task.id !in nodes && FirstUnknown(nodes, task, d)
    case CyclicDependency(id) =>
      && id == task.id && task.id !in nodes && task.id in task.dependencies
      && forall d :: d in task.dependencies ==> Known(nodes, task, d)
  }

  ghost function Ended(nodes: Nodes, deps: seq<TaskId>): set<TaskId> {
    set d | d in deps && d in nodes && nodes[d].status.Terminal()
  }

  ghost function NewNode(nodes: Nodes, task: Task, now: nat): Node {
    var free := task.dependencies == [];
    Node(task, if free then Ready else Pending, |task.dependencies|, Meta(now, task.priority), free, None,
         Ended(nodes, task.dependencies))
  }

  ghost function Enqueued(s: Sched, task: Task, now: nat): Sched {
    s.(nodes := s.nodes[task.id := NewNode(s.nodes, task, now)], order := s.order + [task.id])
  }

  // ----- complete -----

  ghost predicate CanComplete(s: Sched, id: TaskId) {
    id in s.nodes && s.nodes[id].status == Running
  }

  /** One dependency fewer; a Pending task that waits for nothing else becomes Ready, with a fresh clock. */
  function Unblock(n: Node, now: nat): Node {
    if n.inDegree == 1 && n.status == Pending
    then n.(inDegree := 0, status := Ready, meta := Meta(now, n.task.priority), queued := true)
    else n.(inDegree := n.inDegree - 1)
  }

  // The clock is read for each task that becomes Ready.
  ghost function CompletedNode(nodes: Nodes, id: TaskId, t: TaskId, now: TaskId -> nat): Node
    requires t in nodes
  {
    if t == id then nodes[t].(status := Completed, held := None)
    else if DependsOn(nodes, t, id) then Unblock(nodes[t], now(t))
    else nodes[t]
  }

  function ReleasePool(pool: Option<Pool>, held: Option<Resources>): Option<Pool> {
    if pool.Some? && held.Some? then Some(Pool(pool.value.capacity, pool.value.used.Minus(held.value))) else pool
  }

  ghost function CompletedState(s: Sched, id: TaskId, now: TaskId -> nat): Sched
    requires id in s.nodes
  {
    s.(nodes := map t | t in s.nodes :: CompletedNode(s.nodes, id, t, now),
        pool := ReleasePool(s.pool, s.nodes[id].held))
  }

  // ----- fail -----

  ghost predicate CanFail(s: Sched, id: TaskId) {
    id in s.nodes && !s.nodes[id].status.Terminal()
  }

  /** p leads from id along successor edges, through tasks other than id that are Pending or Ready. */
  ghost predicate CascadePath(nodes: Nodes, id: TaskId, p: seq<TaskId>) {
    && |p| >= 1 && p[0] == id
    && (forall i :: 1 <= i < |p| ==> DependsOn(nodes, p[i], p[i - 1]))
    && (forall i :: 1 <= i < |p| ==> p[i] in nodes && nodes[p[i]].status.Open() && p[i] != id)
  }

  ghost predicate Cascades(nodes: Nodes, id: TaskId, t: TaskId) {
    exists p :: CascadePath(nodes, id, p) && |p| >= 2 && p[|p| - 1] == t
  }

  ghost function FailedNode(nodes: Nodes, id: TaskId, t: TaskId): Node
    requires t in nodes
  {
    if t == id then nodes[t].(status := Failed, held := if nodes[t].status == Running then None else nodes[t].held)
    else if Cascades(nodes, id, t) then nodes[t].(status := DependencyFailed)
    else nodes[t]
  }

  ghost function FailedState(s: Sched, id: TaskId): Sched
    requires id in s.nodes
  {
    s.(nodes := map t | t in s.nodes :: FailedNode(s.nodes, id, t),
       pool := if s.nodes[id].status == Running then ReleasePool(s.pool, s.nodes[id].held) else s.pool)
  }

  // ----- dequeue -----

  function Waited(m: Meta, now: nat): nat {
    if now < m.since then 0 else now - m.since
  }

  /** The u8 addition wraps around; boosts of up to 252 levels never reach that. */
  function Boosted(p: Priority, levels: nat): Priority {
    var sum := (p.Level() + levels) % 256;
    FromLevel(if sum > 3 then 3 else sum)
  }

  function Aged(m: Meta, policy: FairnessPolicy, now: nat): Meta {
    if policy.thresholdMs > 0 && Waited(m, now) >= policy.thresholdMs
    then m.(effective := Boosted(m.effective, policy.boostLevels))
    else m
  }

  predicate MissesDeadline(m: Meta, starvation: StarvationPolicy, now: nat) {
    starvation.enforce && starvation.maxWaitMs > 0 && Waited(m, now) >= starvation.maxWaitMs && m.effective == Low
  }

  function Refreshed(m: Meta, fairness: FairnessPolicy, starvation: StarvationPolicy, now: nat, later: nat): Meta {
    var aged := Aged(m, fairness, now);
    if MissesDeadline(aged, starvation, later) then aged.(effective := Normal) else aged
  }

  /** A dequeue reads the clock twice for each task in the heap. */
  datatype Readings = Readings(aging: TaskId -> nat, deadline: TaskId -> nat)

  ghost function AgedNode(s: Sched, n: Node, now: Readings): Node {
    if n.queued then n.(meta := Refreshed(n.meta, s.fairness, s.starvation, now.aging(n.task.id),
        now.deadline(n.task.id))) else n
  }

  ghost function AgedState(s: Sched, now: Readings): Sched {
    s.(nodes := map t | t in s.nodes :: AgedNode(s, s.nodes[t], now))
  }

  /** The tasks in the heap that aging raises. */
  ghost function Raised(s: Sched, now: Readings): set<TaskId> {
    set t | t in s.nodes && s.nodes[t].queued &&
            Aged(s.nodes[t].meta, s.fairness, now.aging(t)).effective.Level() > s.nodes[t].meta.effective.Level()
  }

  /** The tasks in the heap that the deadline raises, after aging. */
  ghost function Enforced(s: Sched, now: Readings): set<TaskId> {
    set t | t in s.nodes && s.nodes[t].queued &&
            MissesDeadline(Aged(s.nodes[t].meta, s.fairness, now.aging(t)), s.starvation, now.deadline(t))
  }

  /** The entry of v comes out of the heap before that of u: greater priority, then greater id. */
  predicate KeyLess(nodes: Nodes, u: TaskId, v: TaskId)
    requires u in nodes && v in nodes
  {
    var a, b := nodes[u].meta.effective.Level(), nodes[v].meta.effective.Level();
    a < b || (a == b && u < v)
  }

  predicate CanFit(pool: Option<Pool>, need: Resources) {
    pool.None? || pool.value.used.Plus(need).FitsIn(pool.value.capacity)
  }

  predicate Runnable(s: Sched, t: TaskId) {
    t in s.nodes && s.nodes[t].status == Ready && CanFit(s.pool, s.nodes[t].task.resources)
  }

  /** The runnable task with the greatest key. */
  ghost predicate Best(s: Sched, t: TaskId) {
    Runnable(s, t) && forall u :: Runnable(s, u) && u != t ==> KeyLess(s.nodes, u, t)
  }

  ghost function StartedNode(s: Sched, id: TaskId, t: TaskId): Node
    requires id in s.nodes && t in s.nodes
  {
    var n := s.nodes[t];
    if t == id then
      n.(status := Running, queued := false, meta := n.meta.(effective := n.task.priority),
         held := if s.pool.Some? then Some(n.task.resources) else n.held)
    else if n.status == Ready || KeyLess(s.nodes, t, id) then n
    else n.(queued := false)
  }

  /** The task runs; stale entries that came out of the heap before it are gone. */
  ghost function Started(s: Sched, id: TaskId): Sched
    requires id in s.nodes
  {
    s.(nodes := map t | t in s.nodes :: StartedNode(s, id, t),
       pool := if s.pool.Some? then Some(Pool(s.pool.value.capacity,
           s.pool.value.used.Plus(s.nodes[id].task.resources))) else None)
  }

  /** Only the entries of Ready tasks stay. */
  ghost function Swept(s: Sched): Sched {
    s.(nodes := map t | t in s.nodes :: if s.nodes[t].status == Ready then s.nodes[t] else s.nodes[t].(queued := false))
  }

  ghost predicate Dequeued(s: Sched, now: Readings, s': Sched, result: Option<Task>) {
    var a := AgedState(s, now);
    match result
    case None => (forall t :: !Runnable(a, t)) && s' == Swept(a)
    case Some(task) => Best(a, task.id) && task == s.nodes[task.id].task && s' == Started(a, task.id)
  }

  // ----- requeue -----

  /** The attempt number is recorded in any state; only a Running task becomes Ready again. */
  function RequeuedNode(n: Node, attempt: nat, now: nat): Node {
    var n1 := n.(task := n.task.(attempt := attempt));
    if n.status == Running then n1.(status := Ready, queued := true, meta := Meta(now, n.task.priority)) else n1
  }

  ghost function RequeuedState(s: Sched, id: TaskId, attempt: nat, now: nat): Sched {
    if id !in s.nodes then s
    else
      s.(nodes := s.nodes[id := RequeuedNode(s.nodes[id], attempt, now)],
         leaked := if s.pool.Some? && s.nodes[id].status == Running
                   then s.leaked.Plus(s.nodes[id].task.resources) else s.leaked)
  }

  // ----- one step -----

  datatype Op =
    | Enqueue(task: Task, enqueuedAt: nat)
    | Complete(id: TaskId, completedAt: TaskId -> nat)
    | Fail(id: TaskId)
    | Dequeue(now: Readings, result: Option<Task>)
    | Requeue(id: TaskId, attempt: nat, requeuedAt: nat)
    | Discard(id: TaskId)
    | SetFairness(fairness: FairnessPolicy)
    | SetStarvation(starvation: StarvationPolicy)

  /** s' is the state after op; refused and rejected operations leave the state as it is. */
  ghost predicate Next(s: Sched, op: Op, s': Sched) {
    match op
    case Enqueue(task, now) =>
      if Accepted(s.nodes, task) then s' == Enqueued(s, task, now) else s' == s
    case Complete(id, now) =>
      if CanComplete(s, id) then s' == CompletedState(s, id, now) else s' == s
    case Fail(id) =>
      if CanFail(s, id) then s' == FailedState(s, id) else s' == s
    case Discard(id) =>
      if CanFail(s, id) then s' == FailedState(s, id) else s' == s
    case Dequeue(now, result) =>
      Dequeued(s, now, s', result)
    case Requeue(id, attempt, now) =>
      s' == RequeuedState(s, id, attempt, now)
    case SetFairness(policy) =>
      policy.Valid() && s' == s.(fairness := policy)
    case SetStarvation(policy) =>
      s' == s.(starvation := policy)
  }
}
