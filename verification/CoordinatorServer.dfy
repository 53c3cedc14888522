/** The coordinator's server: requests, connections that end, and passes of the reaper. */
module CoordinatorServer {
  import opened Core
  import opened Leases
  import opened Coordinator

  // ----- the task queue -----

  function FirstWith(queue: seq<Task>, id: TaskId): (i: nat)
    ensures i <= |queue| && (i < |queue| ==> queue[i].id == id)
    ensures forall j :: 0 <= j < i ==> queue[j].id != id
  {
    if queue == [] || queue[0].id == id then 0 else FirstWith(queue[1..], id) + 1
  }

  /** A task that is still in the queue gets the attempt number and is queued a second time; no other is. */
  function AfterRequeue(queue: seq<Task>, id: TaskId, attempt: nat): seq<Task> {
    var i := FirstWith(queue, id);
    if i == |queue| then queue
    else
      var task := queue[i].(attempt := attempt);
      queue[i := task] + [task]
  }

  class TaskQueue {
    var tasks: seq<Task>

    constructor ()
      ensures tasks == []
    {
      tasks := [];
    }

    method Enqueue(task: Task)
      modifies this
      ensures tasks == old(tasks) + [task]
    {
      tasks := tasks + [task];
    }

    method Dequeue() returns (task: Option<Task>)
      modifies this
      ensures old(tasks) == [] ==> task == None && tasks == []
      ensures old(tasks) != [] ==> task == Some(old(tasks)[0]) && tasks == old(tasks)[1..]
    {
      if tasks == [] {
        return None;
      }
      task := Some(tasks[0]);
      tasks := tasks[1..];
    }

    method Requeue(id: TaskId, attempt: nat)
      modifies this
      ensures tasks == AfterRequeue(old(tasks), id, attempt)
      ensures (forall i :: 0 <= i < |old(tasks)| ==> old(tasks)[i].id != id) ==> tasks == old(tasks)
      ensures forall i :: 0 <= i < |old(tasks)| && old(tasks)[i].id == id
                          && (forall j :: 0 <= j < i ==> old(tasks)[j].id != id) ==>
                var task := old(tasks)[i].(attempt := attempt);
                tasks == old(tasks)[i := task] + [task]
    {
      for i := 0 to |tasks|
        invariant tasks == old(tasks)
        invariant forall j :: 0 <= j < i ==> tasks[j].id != id
      {
        if tasks[i].id == id {
          assert FirstWith(tasks, id) == i;
          var task := tasks[i].(attempt := attempt);
          tasks := tasks[i := task];
          tasks := tasks + [task];
          return;
        }
      }
      assert FirstWith(tasks, id) == |tasks|;
    }
  }

  type Call = (TaskId, nat)

  /** The queue after some requeues, one after the other. */
  function AfterCalls(queue: seq<Task>, calls: seq<Call>): seq<Task> {
    if calls == [] then queue
    else
      var last := calls[|calls| - 1];
      AfterRequeue(AfterCalls(queue, calls[..|calls| - 1]), last.0, last.1)
  }

  predicate IsQueued(queue: seq<Task>, id: TaskId) {
    exists i :: 0 <= i < |queue| && queue[i].id == id
  }

  /** The entries that some requeues append, and that each of their tasks in the queue gets one. */
  ghost predicate Appends(queue: seq<Task>, calls: seq<Call>, after: seq<Task>) {
    && |after| >= |queue|
    && (forall i :: 0 <= i < |queue| ==> after[i].id == queue[i].id)
    && (forall i :: |queue| <= i < |after| ==> IsQueued(queue, after[i].id) && (after[i].id, after[i].attempt) in calls)
    && (forall x :: x in calls && IsQueued(queue, x.0) ==>
          exists i :: |queue| <= i < |after| && (after[i].id, after[i].attempt) == x)
    && (forall i, j :: |queue| <= i < j < |after| ==> after[i].id != after[j].id)
  }

  ghost predicate DistinctIds(calls: seq<Call>) {
    forall i, j :: 0 <= i < j < |calls| ==> calls[i].0 != calls[j].0
  }

  lemma NothingAppended(queue: seq<Task>)
    ensures Appends(queue, [], queue)
  {
  }

  lemma AppendsOne(queue: seq<Task>, calls: seq<Call>, middle: seq<Task>, x: Call)
    requires Appends(queue, calls, middle) && forall i :: 0 <= i < |calls| ==> calls[i].0 != x.0
    ensures Appends(queue, calls + [x], AfterRequeue(middle, x.0, x.1))
  {
    var k, after := FirstWith(middle, x.0), AfterRequeue(middle, x.0, x.1);
    forall i | |queue| <= i < |middle|
      ensures middle[i].id != x.0
    {
      var y: Call := (middle[i].id, middle[i].attempt);
      assert y in calls;
      var j :| 0 <= j < |calls| && calls[j] == y;
    }
    if IsQueued(queue, x.0) {
      var i :| 0 <= i < |queue| && queue[i].id == x.0;
      assert middle[i].id == x.0 && k < |queue|;
    } else if k < |middle| {
      assert false;
    }
    AppendedOne(queue, calls, middle, x, k, after);
  }

  lemma AppendedOne(queue: seq<Task>, calls: seq<Call>, middle: seq<Task>, x: Call, k: nat, after: seq<Task>)
    requires Appends(queue, calls, middle) && forall i :: |queue| <= i < |middle| ==> middle[i].id != x.0
    requires if IsQueued(queue, x.0) then k < |queue| && middle[k].id == x.0 else k == |middle|
    requires after == if k == |middle| then middle
                      else middle[k := middle[k].(attempt := x.1)] + [middle[k].(attempt := x.1)]
    ensures Appends(queue, calls + [x], after)
  {
    forall y | y in calls + [x] && IsQueued(queue, y.0)
      ensures exists i :: |queue| <= i < |after| && (after[i].id, after[i].attempt) == y
    {
      if y in calls {
        var i :| |queue| <= i < |middle| && (middle[i].id, middle[i].attempt) == y;
        assert after[i] == middle[i];
      } else {
        assert (after[|middle|].id, after[|middle|].attempt) == x;
      }
    }
    forall i | |queue| <= i < |after|
      ensures IsQueued(queue, after[i].id) && (after[i].id, after[i].attempt) in calls + [x]
    {
      if i < |middle| { assert after[i] == middle[i]; }
    }
  }

  lemma {:induction false} CallsAppend(queue: seq<Task>, calls: seq<Call>)
    requires DistinctIds(calls)
    ensures Appends(queue, calls, AfterCalls(queue, calls))
    decreases |calls|
  {
    hide Appends, AfterRequeue, IsQueued;
    if calls == [] {
      NothingAppended(queue);
    } else {
      var n := |calls| - 1;
      CallsAppend(queue, calls[..n]);
      AppendsOne(queue, calls[..n], AfterCalls(queue, calls[..n]), calls[n]);
      assert calls == calls[..n] + [calls[n]];
    }
  }

  lemma RequeueReaches(queue: seq<Task>, id: TaskId, attempt: nat)
    ensures |AfterRequeue(queue, id, attempt)| == |queue| + if IsQueued(queue, id) then 1 else 0
    ensures !IsQueued(queue, id) ==> AfterRequeue(queue, id, attempt) == queue
    ensures forall other :: IsQueued(AfterRequeue(queue, id, attempt), other) <==> IsQueued(queue, other)
  {
    var i, after := FirstWith(queue, id), AfterRequeue(queue, id, attempt);
    forall other
      ensures IsQueued(after, other) <==> IsQueued(queue, other)
    {
      if IsQueued(queue, other) {
        var j :| 0 <= j < |queue| && queue[j].id == other;
        assert after[j].id == other;
      }
      if IsQueued(after, other) {
        var j :| 0 <= j < |after| && after[j].id == other;
        assert j < |queue| ==> queue[j].id == other;
        assert j >= |queue| ==> i < |queue| && queue[i].id == other;
      }
    }
  }

  /** Requeues of tasks that are no longer in the queue do nothing; any other makes it longer. */
  lemma {:induction false} CallsReach(queue: seq<Task>, calls: seq<Call>)
    ensures |AfterCalls(queue, calls)| >= |queue|
    ensures AfterCalls(queue, calls) == queue <==> forall k :: 0 <= k < |calls| ==> !IsQueued(queue, calls[k].0)
    ensures forall other :: IsQueued(AfterCalls(queue, calls), other) <==> IsQueued(queue, other)
    decreases |calls|
  {
    hide IsQueued, AfterRequeue;
    if calls != [] {
      var n := |calls| - 1;
      var front := calls[..n];
      CallsReach(queue, front);
      RequeueReaches(AfterCalls(queue, front), calls[n].0, calls[n].1);
      if AfterCalls(queue, front) != queue {
        GrowsOrStays(queue, front);
      }
    }
  }

  lemma {:induction false} GrowsOrStays(queue: seq<Task>, calls: seq<Call>)
    ensures AfterCalls(queue, calls) == queue || |AfterCalls(queue, calls)| > |queue|
    decreases |calls|
  {
    if calls != [] {
      var n := |calls| - 1;
      GrowsOrStays(queue, calls[..n]);
      RequeueReaches(AfterCalls(queue, calls[..n]), calls[n].0, calls[n].1);
      hide IsQueued, AfterRequeue;
    }
  }

  lemma {:induction false} AfterMoreCalls(queue: seq<Task>, a: seq<Call>, b: seq<Call>)
    ensures AfterCalls(queue, a + b) == AfterCalls(AfterCalls(queue, a), b)
    decreases |b|
  {
    if b == [] {
      assert a + b == a;
    } else {
      var front := b[..|b| - 1];
      AfterMoreCalls(queue, a, front);
      assert (a + b)[..|a + b| - 1] == a + front;
    }
  }

  // ----- requests -----

  datatype Request =
    | RegisterNode(info: NodeInfo)
    | NodeHeartbeat(worker: WorkerId)
    | DequeueTask(worker: WorkerId)
    | RequeueTask(task: TaskId, attempt: nat)
    | DiscardTask(task: TaskId)
    | InsertLease(lease: Lease)
    | GetLease(task: TaskId)
    | UpdateLease(lease: Lease)
    | RemoveLease(task: TaskId)
    | ActiveLeases
    | EmitEvent
    | EmitLog
    | QueryCache(key: string)
    | AnnounceCache(key: string, path: string)

  datatype Response =
    | Done
    | Dequeued(task: Option<Task>)
    | FoundLease(lease: Option<Lease>)
    | FoundLeases(leases: seq<Lease>)
    | CacheLocations(locations: seq<Location>)
    | NodeNotFound
    | NotRegistered
    | Refused(error: LeaseError)

  /** Connections are known by the worker that last registered over them. */
  datatype Cluster = Cluster(
    registry: Registry, index: Index, connections: map<int, WorkerId>, leases: Store, queue: seq<Task>)

  const EMPTY := Cluster(Registry(map[], map[], map[]), map[], map[], map[], [])

  predicate CanAnnounce(c: Cluster, connection: int) {
    connection in c.connections && c.connections[connection] in c.registry.nodes
  }

  function LocationFor(c: Cluster, connection: int, path: string): Location
    requires CanAnnounce(c, connection)
  {
    var info := c.registry.nodes[c.connections[connection]];
    Location(info.worker, info.hostname, path)
  }

  ghost predicate AnnouncedIn(index: Index, key: string, location: Location, index': Index) {
    && NoEmptyLists(index')
    && Lookup(index', key) == Lookup(index, key) + [location]
    && forall k :: k != key ==> Lookup(index', k) == Lookup(index, k)
  }

  ghost predicate Handled(c: Cluster, connection: int, request: Request, now: int, c': Cluster) {
    match request
    case RegisterNode(info) =>
      c' == c.(registry := WithNode(c.registry, info, now), connections := c.connections[connection := info.worker])
    case NodeHeartbeat(worker) =>
      c' == c.(registry := c.registry.(lastSeen := c.registry.lastSeen[worker := now]))
    case DequeueTask(_) => c' == c.(queue := if c.queue == [] then [] else c.queue[1..])
    case RequeueTask(task, attempt) => c' == c.(queue := AfterRequeue(c.queue, task, attempt))
    case InsertLease(lease) =>
      c' == if lease.task in c.leases then c else c.(leases := c.leases[lease.task := lease])
    case UpdateLease(lease) =>
      c' == if lease.task in c.leases then c.(leases := c.leases[lease.task := lease]) else c
    case RemoveLease(task) => c' == c.(leases := c.leases - {task})
    case AnnounceCache(key, path) =>
      if CanAnnounce(c, connection) then
        c' == c.(index := c'.index) && AnnouncedIn(c.index, key, LocationFor(c, connection, path), c'.index)
      else c' == c
    case _ => c' == c
  }

  ghost predicate Answers(c: Cluster, connection: int, request: Request, response: Response) {
    match request
    case QueryCache(key) => response == CacheLocations(Lookup(c.index, key))
    case AnnounceCache(_, _) =>
      response == if CanAnnounce(c, connection) then Done
                  else if connection in c.connections then NodeNotFound
                  else NotRegistered
    case DequeueTask(_) => response == Dequeued(if c.queue == [] then None else Some(c.queue[0]))
    case InsertLease(lease) => response == if lease.task in c.leases then Refused(AlreadyLeased) else Done
    case GetLease(task) => response == FoundLease(if task in c.leases then Some(c.leases[task]) else None)
    case UpdateLease(lease) => response == if lease.task in c.leases then Done else Refused(LeaseNotFound)
    case ActiveLeases =>
      && response.FoundLeases? && Distinct(response.leases)
      && forall l :: l in response.leases <==> l.task in c.leases && c.leases[l.task] == l && l.state == Active
    case _ => response == Done
  }

  // ----- connections that end, and reaper passes -----

  /** Abandon is a connection on which a reply could not be sent. */
  datatype Op =
    | Enqueue(task: Task)
    | Request(connection: int, request: Request, now: int)
    | Close(connection: int)
    | Abandon(connection: int)
    | Reap(timeout: int, now: int)
    | Probe(worker: WorkerId, ok: bool)

  ghost predicate NodesGone(c: Cluster, gone: set<WorkerId>, c': Cluster) {
    c'.registry == WithoutNodes(c.registry, gone) && EvictedFrom(c.index, gone, c'.index)
  }

  ghost function Reaped(c: Cluster, timeout: int, now: int): set<WorkerId> {
    StaleSet(c.registry, timeout, now) + UnhealthySet(c.registry)
  }

  /** One call for each active lease that one of the workers holds, with the next attempt number. */
  ghost predicate HeldBy(leases: Store, workers: set<WorkerId>, calls: seq<Call>) {
    && Distinct(calls)
    && forall x: Call :: x in calls <==>
         x.0 in leases && leases[x.0].state == Active && leases[x.0].worker in workers && x.1 == leases[x.0].attempt + 1
  }

  /** What the workers held has been requeued, in some order. */
  ghost predicate RequeuedFrom(c: Cluster, workers: set<WorkerId>, queue: seq<Task>) {
    exists calls :: HeldBy(c.leases, workers, calls) && queue == AfterCalls(c.queue, calls)
  }

  ghost predicate Next(c: Cluster, op: Op, c': Cluster) {
    match op
    case Enqueue(task) => c' == c.(queue := c.queue + [task])
    case Request(connection, request, now) => Handled(c, connection, request, now, c')
    case Close(connection) =>
      if connection in c.connections then
        && c' == c.(registry := c'.registry, index := c'.index, connections := c.connections - {connection})
        && NodesGone(c, {c.connections[connection]}, c')
      else c' == c
    case Abandon(connection) => c' == c.(connections := c.connections - {connection})
    case Reap(timeout, now) =>
      && c' == c.(registry := c'.registry, index := c'.index, queue := c'.queue)
      && NodesGone(c, Reaped(c, timeout, now), c')
      && RequeuedFrom(c, Reaped(c, timeout, now), c'.queue)
    case Probe(worker, ok) => c' == c.(registry := WithProbe(c.registry, worker, ok))
  }

  class Server {
    const registry: NodeRegistry
    const cacheIndex: CacheIndex
    const leaseStore: InMemoryLeaseStore
    const queue: TaskQueue
    var connections: map<int, WorkerId>

    ghost function View(): Cluster
      reads this, registry, cacheIndex, leaseStore, queue
    {
      Cluster(registry.View(), cacheIndex.entries, connections, leaseStore.leases, queue.tasks)
    }

    ghost predicate Valid()
      reads this, cacheIndex, leaseStore
    {
      NoEmptyLists(cacheIndex.entries) && Filed(leaseStore.leases)
    }

    constructor ()
      ensures Valid() && View() == EMPTY && fresh(registry) && fresh(cacheIndex) && fresh(leaseStore) && fresh(queue)
    {
      registry := new NodeRegistry();
      cacheIndex := new CacheIndex();
      leaseStore := new InMemoryLeaseStore();
      queue := new TaskQueue();
      connections := map[];
    }

    method EnqueueTask(task: Task)
      requires Valid()
      modifies queue
      ensures Valid() && Next(old(View()), Op.Enqueue(task), View())
    {
      queue.Enqueue(task);
    }

    method HandleRequest(connection: int, request: Request, now: int) returns (response: Response)
      requires Valid()
      modifies this, registry, cacheIndex, leaseStore, queue
      ensures Valid() && Next(old(View()), Op.Request(connection, request, now), View())
      ensures Answers(old(View()), connection, request, response)
    {
      match request
      case RegisterNode(info) =>
        connections := connections[connection := info.worker];
        registry.Register(info, now);
        return Done;
      case NodeHeartbeat(worker) =>
        registry.Heartbeat(worker, now);
        return Done;
      case DequeueTask(_) =>
        var task := queue.Dequeue();
        return Dequeued(task);
      case RequeueTask(task, attempt) =>
        queue.Requeue(task, attempt);
        return Done;
      case DiscardTask(_) =>
        return Done;
      case InsertLease(lease) =>
        var error := leaseStore.Insert(lease);
        return if error.Some? then Refused(error.value) else Done;
      case GetLease(task) =>
        var lease := leaseStore.Get(task);
        return FoundLease(lease);
      case UpdateLease(lease) =>
        var error := leaseStore.Update(lease);
        return if error.Some? then Refused(error.value) else Done;
      case RemoveLease(task) =>
        leaseStore.Remove(task);
        return Done;
      case ActiveLeases =>
        var leases := leaseStore.ActiveLeases();
        return FoundLeases(leases);
      case EmitEvent =>
        return Done;
      case EmitLog =>
        return Done;
      case QueryCache(key) =>
        var locations := cacheIndex.Query(key);
        return CacheLocations(locations);
      case AnnounceCache(key, path) =>
        if connection !in connections {
          return NotRegistered;
        }
        var info := registry.GetNodeInfo(connections[connection]);
        if info.None? {
          return NodeNotFound;
        }
        cacheIndex.Announce(key, Location(info.value.worker, info.value.hostname, path));
        return Done;
    }

    method CloseConnection(connection: int)
      requires Valid()
      modifies this, registry, cacheIndex
      ensures Valid() && Next(old(View()), Close(connection), View())
    {
      if connection in connections {
        registry.Remove(connections[connection]);
        cacheIndex.EvictNode(connections[connection]);
        connections := connections - {connection};
      }
    }

    /** The connection is dropped without a word: its node stays registered. */
    method AbandonConnection(connection: int)
      requires Valid()
      modifies `connections
      ensures Valid() && Next(old(View()), Abandon(connection), View())
    {
      connections := connections - {connection};
    }

    method RecordProbe(worker: WorkerId, ok: bool)
      requires Valid()
      modifies registry
      ensures Valid() && Next(old(View()), Probe(worker, ok), View())
    {
      registry.RecordProbe(worker, ok);
    }

    /** Requeues what a worker holds, then forgets the worker. */
    method Evict(worker: WorkerId) returns (ghost calls: seq<Call>)
      requires Valid()
      modifies registry, cacheIndex, queue
      ensures Valid() && NodesGone(old(View()), {worker}, View())
      ensures HeldBy(leaseStore.leases, {worker}, calls) && queue.tasks == AfterCalls(old(queue.tasks), calls)
    {
      hide HeldAmong, HeldBy, DistinctTasks, WithoutNodes, Keep, Lookup;
      var leases := leaseStore.ActiveLeases();
      calls := [];
      ActiveTasksDiffer(leaseStore.leases, leases);
      HeldNone(leases, worker);
      for i := 0 to |leases|
        invariant registry.View() == old(registry.View()) && cacheIndex.entries == old(cacheIndex.entries)
        invariant HeldAmong(leases, i, worker, calls) && queue.tasks == AfterCalls(old(queue.tasks), calls)
      {
        HeldStep(leases, i, worker, calls);
        if leases[i].worker == worker {
          queue.Requeue(leases[i].task, leases[i].attempt + 1);
          ghost var more := calls + [(leases[i].task, leases[i].attempt + 1)];
          assert more[..|more| - 1] == calls;
          calls := more;
        }
      }
      HeldEnds(leaseStore.leases, leases, worker, calls);
      registry.Remove(worker);
      cacheIndex.EvictNode(worker);
    }

    method EvictAll(workers: seq<WorkerId>) returns (ghost calls: seq<Call>)
      requires Valid() && Distinct(workers)
      modifies registry, cacheIndex, queue
      ensures Valid() && NodesGone(old(View()), Elements(workers), View())
      ensures HeldBy(leaseStore.leases, Elements(workers), calls) && queue.tasks == AfterCalls(old(queue.tasks), calls)
    {
      calls := [];
      NobodyGone(View());
      assert Elements(workers[..0]) == {};
      for i := 0 to |workers|
        invariant Valid() && NodesGone(old(View()), Elements(workers[..i]), View())
        invariant HeldBy(leaseStore.leases, Elements(workers[..i]), calls)
        invariant queue.tasks == AfterCalls(old(queue.tasks), calls)
      {
        ghost var middle := View();
        ghost var more := Evict(workers[i]);
        OneMoreElement(workers, i);
        GoneTogether(old(View()), Elements(workers[..i]), middle, {workers[i]}, View());
        HeldTogether(leaseStore.leases, Elements(workers[..i]), calls, {workers[i]}, more);
        AfterMoreCalls(old(queue.tasks), calls, more);
        calls := calls + more;
      }
      assert workers[..|workers|] == workers;
    }

    /** One pass of the reaper. */
    method ReaperPass(timeout: int, now: int)
      requires Valid()
      modifies registry, cacheIndex, queue
      ensures Valid() && Next(old(View()), Reap(timeout, now), View())
    {
      ghost var start := View();
      var stale := registry.StaleNodes(timeout, now);
      ghost var calls := EvictAll(stale);
      ghost var middle := View();
      var unhealthy := registry.UnhealthyNodes();
      ghost var more := EvictAll(unhealthy);
      GoneTogether(start, Elements(stale), middle, Elements(unhealthy), View());
      assert Elements(unhealthy) == UnhealthySet(start.registry) - Elements(stale);
      assert Elements(stale) + Elements(unhealthy) == Reaped(start, timeout, now);
      HeldTogether(leaseStore.leases, Elements(stale), calls, Elements(unhealthy), more);
      AfterMoreCalls(start.queue, calls, more);
    }
  }

  ghost predicate DistinctTasks(leases: seq<Lease>) {
    forall i, j :: 0 <= i < j < |leases| ==> leases[i].task != leases[j].task
  }

  /** The calls for one worker, from the first n leases. */
  ghost predicate HeldAmong(leases: seq<Lease>, n: nat, worker: WorkerId, calls: seq<Call>)
    requires n <= |leases|
  {
    && Distinct(calls)
    && forall x: Call :: x in calls <==>
         exists i :: 0 <= i < n && leases[i].worker == worker && x == (leases[i].task, leases[i].attempt + 1)
  }

  lemma HeldStep(leases: seq<Lease>, n: nat, worker: WorkerId, calls: seq<Call>)
    requires n < |leases| && DistinctTasks(leases) && HeldAmong(leases, n, worker, calls)
    ensures HeldAmong(leases, n + 1, worker,
                      if leases[n].worker == worker then calls + [(leases[n].task, leases[n].attempt + 1)] else calls)
  {
    var x: Call := (leases[n].task, leases[n].attempt + 1);
    assert forall y :: y in calls + [x] <==> y in calls || y == x;
    forall i | 0 <= i < |calls|
      ensures calls[i] != x
    {
      assert calls[i] in calls;
    }
  }

  lemma HeldNone(leases: seq<Lease>, worker: WorkerId)
    ensures HeldAmong(leases, 0, worker, [])
  {
  }

  lemma ActiveTasksDiffer(store: Store, active: seq<Lease>)
    requires Distinct(active) && forall l :: l in active <==> l.task in store && store[l.task] == l && l.state == Active
    ensures DistinctTasks(active)
  {
    forall i, j | 0 <= i < j < |active|
      ensures active[i].task != active[j].task
    {
      assert active[i] in active && active[j] in active;
    }
  }

  lemma HeldEnds(store: Store, active: seq<Lease>, worker: WorkerId, calls: seq<Call>)
    requires Filed(store) && forall l :: l in active <==> l.task in store && store[l.task] == l && l.state == Active
    requires HeldAmong(active, |active|, worker, calls)
    ensures HeldBy(store, {worker}, calls)
  {
    forall x: Call
      ensures x in calls <==>
              && x.0 in store && store[x.0].state == Active && store[x.0].worker == worker
              && x.1 == store[x.0].attempt + 1
    {
      if x.0 in store && store[x.0].state == Active && store[x.0].worker == worker && x.1 == store[x.0].attempt + 1 {
        var l := store[x.0];
        assert l.task == x.0 && l in active;
        var i :| 0 <= i < |active| && active[i] == l;
        assert x == (active[i].task, active[i].attempt + 1);
      }
      if x in calls {
        var i :| 0 <= i < |active| && active[i].worker == worker && x == (active[i].task, active[i].attempt + 1);
        assert active[i] in active;
      }
    }
  }

  lemma NobodyGone(c: Cluster)
    requires NoEmptyLists(c.index)
    ensures NodesGone(c, {}, c) && HeldBy(c.leases, {}, [])
  {
    assert WithoutNodes(c.registry, {}) == c.registry;
    forall key
      ensures Keep(Lookup(c.index, key), {}) == Lookup(c.index, key)
    {
      KeepNobody(Lookup(c.index, key));
    }
  }

  lemma OneMoreElement(workers: seq<WorkerId>, i: nat)
    requires i < |workers| && Distinct(workers)
    ensures Elements(workers[..i + 1]) == Elements(workers[..i]) + {workers[i]}
    ensures workers[i] !in Elements(workers[..i])
  {
    assert workers[..i + 1] == workers[..i] + [workers[i]];
  }

  lemma GoneTogether(c: Cluster, a: set<WorkerId>, c': Cluster, b: set<WorkerId>, c'': Cluster)
    requires NodesGone(c, a, c') && NodesGone(c', b, c'')
    ensures NodesGone(c, a + b, c'')
  {
    assert WithoutNodes(WithoutNodes(c.registry, a), b) == WithoutNodes(c.registry, a + b);
    forall key
      ensures Lookup(c''.index, key) == Keep(Lookup(c.index, key), a + b)
    {
      KeepTwice(Lookup(c.index, key), a, b);
    }
  }

  lemma HeldTogether(leases: Store, a: set<WorkerId>, calls: seq<Call>, b: set<WorkerId>, more: seq<Call>)
    requires HeldBy(leases, a, calls) && HeldBy(leases, b, more) && a !! b
    ensures HeldBy(leases, a + b, calls + more)
  {
    forall i, j | 0 <= i < |calls| && 0 <= j < |more|
      ensures calls[i] != more[j]
    {
      assert calls[i] in calls && more[j] in more;
    }
    assert forall x :: x in calls + more <==> x in calls || x in more;
  }

  /**
    A pass requeues a task of an evicted worker exactly when the task is still in the queue: it changes the queue if
    and only if one of them holds an active lease on such a task. What has been handed out is not queued again.
   */
  lemma ReaperRequeuesQueuedOnly(c: Cluster, timeout: int, now: int, c': Cluster)
    requires Next(c, Reap(timeout, now), c')
    ensures c'.queue == c.queue <==>
            forall t ::
              t in c.leases && c.leases[t].state == Active && c.leases[t].worker in Reaped(c, timeout, now) ==>
                !IsQueued(c.queue, t)
    ensures forall t :: IsQueued(c'.queue, t) <==> IsQueued(c.queue, t)
  {
    var calls: seq<Call> :| HeldBy(c.leases, Reaped(c, timeout, now), calls) && c'.queue == AfterCalls(c.queue, calls);
    CallsReach(c.queue, calls);
    forall t | t in c.leases && c.leases[t].state == Active && c.leases[t].worker in Reaped(c, timeout, now)
      ensures exists k :: 0 <= k < |calls| && calls[k].0 == t
    {
      var x: Call := (t, c.leases[t].attempt + 1);
      assert x in calls;
    }
    forall k | 0 <= k < |calls|
      ensures calls[k].0 in c.leases && c.leases[calls[k].0].state == Active
          && c.leases[calls[k].0].worker in Reaped(c, timeout, now)
    {
      assert calls[k] in calls;
    }
  }

  /** A worker that the pass reaps holds an active lease on t. */
  ghost predicate Stranded(c: Cluster, timeout: int, now: int, t: TaskId) {
    t in c.leases && c.leases[t].state == Active && c.leases[t].worker in Reaped(c, timeout, now)
  }

  /**
    A pass appends one entry for each stranded task that is in the queue, and no other, with the attempt after the one
    that was leased; the entries before them keep their places.
   */
  lemma ReaperRaisesAttempts(c: Cluster, timeout: int, now: int, c': Cluster)
    requires Next(c, Reap(timeout, now), c')
    ensures |c'.queue| >= |c.queue| && forall i :: 0 <= i < |c.queue| ==> c'.queue[i].id == c.queue[i].id
    ensures forall i :: |c.queue| <= i < |c'.queue| ==>
              var task := c'.queue[i];
              && Stranded(c, timeout, now, task.id) && IsQueued(c.queue, task.id)
              && task.attempt == c.leases[task.id].attempt + 1
    ensures forall t :: Stranded(c, timeout, now, t) && IsQueued(c.queue, t) ==>
              exists i :: |c.queue| <= i < |c'.queue| && c'.queue[i].id == t
    ensures forall i, j :: |c.queue| <= i < j < |c'.queue| ==> c'.queue[i].id != c'.queue[j].id
  {
    var calls: seq<Call> :| HeldBy(c.leases, Reaped(c, timeout, now), calls) && c'.queue == AfterCalls(c.queue, calls);
    hide IsQueued, AfterCalls, Reaped;
    forall i, j | 0 <= i < j < |calls|
      ensures calls[i].0 != calls[j].0
    {
      assert calls[i] in calls && calls[j] in calls;
    }
    CallsAppend(c.queue, calls);
    forall t | Stranded(c, timeout, now, t) && IsQueued(c.queue, t)
      ensures exists i :: |c.queue| <= i < |c'.queue| && c'.queue[i].id == t
    {
      var x: Call := (t, c.leases[t].attempt + 1);
      assert x in calls;
    }
  }
}
