/** What the coordinator knows, told from the history of its requests, closed connections, probes and reaper passes. */
module CoordinatorRuns {
  import opened Core
  import opened Coordinator
  import opened CoordinatorServer
  import Leases

  datatype Act =
    | Registered(worker: WorkerId, now: int)
    | Contacted(worker: WorkerId, now: int)
    | Probed(worker: WorkerId, ok: bool)
    | Announced(key: string, location: Location)
    | Gone(workers: set<WorkerId>)

  ghost function ActsOf(c: Cluster, op: Op): seq<Act> {
    match op
    case Request(connection, request, now) => (
      match request
      case RegisterNode(info) => [Registered(info.worker, now)]
      case NodeHeartbeat(worker) => [Contacted(worker, now)]
      case AnnounceCache(key, path) =>
        if CanAnnounce(c, connection) then [Announced(key, LocationFor(c, connection, path))] else []
      case _ => []
    )
    case Close(connection) => if connection in c.connections then [Gone({c.connections[connection]})] else []
    case Abandon(_) => []
    case Enqueue(_) => []
    case Reap(timeout, now) => [Gone(Reaped(c, timeout, now))]
    case Probe(worker, ok) => [Probed(worker, ok)]
  }

  datatype Trace = Trace(states: seq<Cluster>, ops: seq<Op>)

  ghost predicate Run(run: Trace) {
    && |run.states| == |run.ops| + 1 && run.states[0] == EMPTY
    && forall k {:trigger run.ops[k]} :: 0 <= k < |run.ops| ==> Next(run.states[k], run.ops[k], run.states[k + 1])
  }

  ghost function Log(run: Trace, i: nat): seq<Act>
    requires i <= |run.ops| < |run.states|
  {
    if i == 0 then [] else Log(run, i - 1) + ActsOf(run.states[i - 1], run.ops[i - 1])
  }

  // ----- reading the history -----

  ghost predicate GoneIn(log: seq<Act>, worker: WorkerId) {
    exists i :: 0 <= i < |log| && log[i].Gone? && worker in log[i].workers
  }

  /** Registered, and not gone since. */
  ghost predicate Member(log: seq<Act>, worker: WorkerId) {
    exists i {:trigger log[i]} :: 0 <= i < |log| && log[i].Registered? && log[i].worker == worker
        && !GoneIn(log[i + 1..], worker)
  }

  /** When the worker last registered or sent a heartbeat, if it is not gone since. */
  ghost function LastContact(log: seq<Act>, worker: WorkerId): Option<int> {
    if log == [] then None
    else
      var front, last := log[..|log| - 1], log[|log| - 1];
      if (last.Registered? || last.Contacted?) && last.worker == worker then Some(last.now)
      else if last.Gone? && worker in last.workers then None
      else LastContact(front, worker)
  }

  /** The outcomes of the worker's probes since it last registered or went. */
  ghost function Probes(log: seq<Act>, worker: WorkerId): seq<bool> {
    if log == [] then []
    else
      var front, last := log[..|log| - 1], log[|log| - 1];
      if last.Registered? && last.worker == worker then []
      else if last.Gone? && worker in last.workers then []
      else if last.Probed? && last.worker == worker then Probes(front, worker) + [last.ok]
      else Probes(front, worker)
  }

  ghost predicate LastFailed(probes: seq<bool>, n: int) {
    0 <= n <= |probes| && forall k :: |probes| - n <= k < |probes| ==> !probes[k]
  }

  /** The announcements of a key whose worker is not gone since, in the order they were made. */
  ghost function Announcements(log: seq<Act>, key: string): seq<Location> {
    if log == [] then []
    else
      var rest := Announcements(log[1..], key);
      if log[0].Announced? && log[0].key == key && !GoneIn(log[1..], log[0].location.worker)
          then [log[0].location] + rest
      else rest
  }

  // ----- how the readings change with one more act -----

  lemma GoneInAppend(log: seq<Act>, act: Act, worker: WorkerId)
    ensures GoneIn(log + [act], worker) <==> GoneIn(log, worker) || (act.Gone? && worker in act.workers)
  {
    var all := log + [act];
    if GoneIn(log, worker) {
      var i :| 0 <= i < |log| && log[i].Gone? && worker in log[i].workers;
      assert all[i] == log[i];
    }
    if act.Gone? && worker in act.workers {
      assert all[|log|] == act;
    }
    if GoneIn(all, worker) {
      var i :| 0 <= i < |all| && all[i].Gone? && worker in all[i].workers;
      if i < |log| { assert log[i] == all[i]; }
    }
  }

  lemma MemberAppend(log: seq<Act>, act: Act, worker: WorkerId)
    ensures Member(log + [act], worker) <==>
            (act.Registered? && act.worker == worker) || (Member(log, worker) && !(act.Gone? && worker in act.workers))
  {
    var all := log + [act];
    forall i | 0 <= i < |log|
      ensures all[i] == log[i] && GoneIn(all[i + 1..], worker) == (GoneIn(log[i + 1..], worker)
          || (act.Gone? && worker in act.workers))
    {
      assert all[i + 1..] == log[i + 1..] + [act];
      GoneInAppend(log[i + 1..], act, worker);
    }
    assert all[|log|] == act && all[|log| + 1..] == [];
    if Member(log, worker) && !(act.Gone? && worker in act.workers) {
      var i :| 0 <= i < |log| && log[i].Registered? && log[i].worker == worker && !GoneIn(log[i + 1..], worker);
      assert all[i] == log[i];
    }
    if Member(all, worker) {
      var i :| 0 <= i < |all| && all[i].Registered? && all[i].worker == worker && !GoneIn(all[i + 1..], worker);
      if i < |log| { assert log[i] == all[i]; }
    }
  }

  ghost function AnnouncedBy(act: Act, key: string): seq<Location> {
    if act.Announced? && act.key == key then [act.location] else []
  }

  lemma {:induction false} AnnouncementsAppend(log: seq<Act>, act: Act, key: string)
    ensures Announcements(log + [act], key) ==
            Keep(Announcements(log, key), if act.Gone? then act.workers else {}) + AnnouncedBy(act, key)
  {
    if log == [] {
      assert [act][1..] == [];
      assert log + [act] == [act];
    } else {
      var all := log + [act];
      assert all[1..] == log[1..] + [act] && all[0] == log[0];
      AnnouncementsAppend(log[1..], act, key);
      if log[0].Announced? {
        GoneInAppend(log[1..], act, log[0].location.worker);
      }
    }
  }

  lemma ReadingsAppend(log: seq<Act>, act: Act, worker: WorkerId)
    ensures LastContact(log + [act], worker) ==
            (if (act.Registered? || act.Contacted?) && act.worker == worker then Some(act.now)
             else if act.Gone? && worker in act.workers then None
             else LastContact(log, worker))
    ensures Probes(log + [act], worker) ==
            (if (act.Registered? && act.worker == worker) || (act.Gone? && worker in act.workers) then []
             else if act.Probed? && act.worker == worker then Probes(log, worker) + [act.ok]
             else Probes(log, worker))
  {
    assert (log + [act])[..|log|] == log;
  }

  // ----- the state tracks the history -----

  /** A counter of the last failures in a row, which stops at the largest 32-bit number. */
  ghost predicate CountsFailures(n: int, probes: seq<bool>) {
    LastFailed(probes, n) && n <= U32_MAX && (n < |probes| && n < U32_MAX ==> probes[|probes| - 1 - n])
  }

  ghost predicate RegistryTracks(r: Registry, log: seq<Act>) {
    && (forall w :: w in r.nodes <==> Member(log, w))
    && (forall w :: w in r.nodes ==> r.nodes[w].worker == w && w in r.lastSeen)
    && (forall w :: (if w in r.lastSeen then Some(r.lastSeen[w]) else None) == LastContact(log, w))
    && (forall w :: CountsFailures(FailureCount(r.failures, w), Probes(log, w)))
  }

  ghost predicate IndexTracks(index: Index, nodes: set<WorkerId>, log: seq<Act>) {
    && NoEmptyLists(index)
    && (forall key :: Lookup(index, key) == Announcements(log, key))
    && (forall key, i {:trigger Lookup(index, key)[i]} :: 0 <= i < |Lookup(index, key)| ==>
        Lookup(index, key)[i].worker in nodes)
  }

  ghost predicate Tracks(c: Cluster, log: seq<Act>) {
    RegistryTracks(c.registry, log) && IndexTracks(c.index, c.registry.nodes.Keys, log)
  }

  /** What one act does to the registry. */
  ghost predicate RegistryActs(r: Registry, act: Act, r': Registry) {
    match act
    case Registered(worker, now) => exists info: NodeInfo :: info.worker == worker && r' == WithNode(r, info, now)
    case Contacted(worker, now) => r' == r.(lastSeen := r.lastSeen[worker := now])
    case Probed(worker, ok) => r' == WithProbe(r, worker, ok)
    case Announced(_, _) => r' == r
    case Gone(workers) => r' == WithoutNodes(r, workers)
  }

  lemma CountProbe(n: int, probes: seq<bool>, ok: bool)
    requires CountsFailures(n, probes)
    ensures CountsFailures(if ok then 0 else if n < U32_MAX then n + 1 else U32_MAX, probes + [ok])
  {
  }

  lemma CountFollows(r: Registry, log: seq<Act>, act: Act, r': Registry, w: WorkerId)
    requires CountsFailures(FailureCount(r.failures, w), Probes(log, w)) && RegistryActs(r, act, r')
    ensures CountsFailures(FailureCount(r'.failures, w), Probes(log + [act], w))
  {
    ReadingsAppend(log, act, w);
    if act.Probed? {
      CountProbe(FailureCount(r.failures, w), Probes(log, w), act.ok);
    }
    hide Probes, LastContact, CountsFailures;
    assert CountsFailures(0, []) by { NoProbes(); }
  }

  lemma NoProbes()
    ensures CountsFailures(0, [])
  {
  }

  lemma RegistryFollows(r: Registry, log: seq<Act>, act: Act, r': Registry)
    requires RegistryTracks(r, log) && RegistryActs(r, act, r')
    ensures RegistryTracks(r', log + [act])
  {
    hide Member, LastContact, Probes, CountsFailures;
    forall w
      ensures CountsFailures(FailureCount(r'.failures, w), Probes(log + [act], w))
    {
      CountFollows(r, log, act, r', w);
    }
    forall w
      ensures w in r'.nodes <==> Member(log + [act], w)
    {
      MemberAppend(log, act, w);
    }
    forall w
      ensures (if w in r'.lastSeen then Some(r'.lastSeen[w]) else None) == LastContact(log + [act], w)
    {
      ReadingsAppend(log, act, w);
    }
  }

  ghost predicate IndexActs(index: Index, act: Act, index': Index) {
    match act
    case Announced(key, location) => AnnouncedIn(index, key, location, index')
    case Gone(workers) => EvictedFrom(index, workers, index')
    case _ => index' == index
  }

  lemma {:induction false} KeptStay(locations: seq<Location>, gone: set<WorkerId>)
    ensures forall location :: location in Keep(locations, gone) <==> location in locations && location.worker !in gone
  {
    if locations != [] {
      KeptStay(locations[1..], gone);
      assert forall location :: location in locations <==> location == locations[0] || location in locations[1..];
    }
  }

  lemma IndexFollows(index: Index, nodes: set<WorkerId>, log: seq<Act>, act: Act, index': Index, nodes': set<WorkerId>)
    requires IndexTracks(index, nodes, log) && IndexActs(index, act, index')
    requires act.Announced? ==> act.location.worker in nodes
    requires nodes' >= nodes - if act.Gone? then act.workers else {}
    ensures IndexTracks(index', nodes', log + [act])
  {
    var gone := if act.Gone? then act.workers else {};
    forall key
      ensures Lookup(index', key) == Announcements(log + [act], key)
      ensures forall location :: location in Lookup(index', key) ==> location.worker in nodes'
    {
      AnnouncementsAppend(log, act, key);
      KeepNobody(Lookup(index, key));
      KeptStay(Lookup(index, key), gone);
      assert Lookup(index', key) == Keep(Lookup(index, key), gone) + AnnouncedBy(act, key);
    }
  }

  lemma ActFollows(c: Cluster, op: Op, c': Cluster, act: Act)
    requires Next(c, op, c') && ActsOf(c, op) == [act]
    requires forall w :: w in c.registry.nodes ==> c.registry.nodes[w].worker == w
    ensures RegistryActs(c.registry, act, c'.registry) && IndexActs(c.index, act, c'.index)
    ensures act.Announced? ==> act.location.worker in c.registry.nodes
    ensures c'.registry.nodes.Keys >= c.registry.nodes.Keys - if act.Gone? then act.workers else {}
  {
    hide EvictedFrom, AnnouncedIn, NoEmptyLists;
    if op.Request? && op.request.RegisterNode? {
      assert op.request.info.worker == act.worker && c'.registry == WithNode(c.registry, op.request.info, op.now);
    }
    if act.Announced? {
      var w := c.connections[op.connection];
      assert w in c.registry.nodes && c.registry.nodes[w].worker == w;
      assert act == Announced(op.request.key, LocationFor(c, op.connection, op.request.path));
    }
  }

  lemma StepTracks(c: Cluster, op: Op, c': Cluster, log: seq<Act>)
    requires Tracks(c, log) && Next(c, op, c')
    ensures Tracks(c', log + ActsOf(c, op))
  {
    if ActsOf(c, op) == [] {
      assert c'.registry == c.registry && c'.index == c.index && log + [] == log;
    } else {
      var act := ActsOf(c, op)[0];
      assert ActsOf(c, op) == [act];
      ActFollows(c, op, c', act);
      hide RegistryTracks, IndexTracks, RegistryActs, IndexActs, Next;
      RegistryFollows(c.registry, log, act, c'.registry);
      IndexFollows(c.index, c.registry.nodes.Keys, log, act, c'.index, c'.registry.nodes.Keys);
    }
  }

  lemma NothingTracked()
    ensures Tracks(EMPTY, [])
  {
  }

  lemma {:induction false} StateTracksHistory(run: Trace, i: nat)
    requires Run(run) && i <= |run.ops|
    ensures Tracks(run.states[i], Log(run, i))
  {
    assert |run.states| == |run.ops| + 1 && run.states[0] == EMPTY;
    hide Run, Tracks, Next, ActsOf;
    if i == 0 {
      NothingTracked();
    } else {
      RunStep(run, i - 1);
      StateTracksHistory(run, i - 1);
      StepTracks(run.states[i - 1], run.ops[i - 1], run.states[i], Log(run, i - 1));
    }
  }

  lemma RunStep(run: Trace, i: nat)
    requires Run(run) && i < |run.ops|
    ensures Next(run.states[i], run.ops[i], run.states[i + 1])
  {
    hide Next;
    var op := run.ops[i];
  }

  // ----- who registered, and over which connection -----

  /** What the worker last registered with before operation i. */
  ghost function LastRegistration(ops: seq<Op>, i: nat, worker: WorkerId): Option<NodeInfo>
    requires i <= |ops|
  {
    if i == 0 then None
    else
      var op := ops[i - 1];
      if op.Request? && op.request.RegisterNode? && op.request.info.worker == worker then Some(op.request.info)
      else LastRegistration(ops, i - 1, worker)
  }

  /** The worker that last registered over a connection that has neither been closed nor abandoned since. */
  ghost function RegisteredOver(ops: seq<Op>, i: nat, connection: int): Option<WorkerId>
    requires i <= |ops|
  {
    if i == 0 then None
    else
      var op := ops[i - 1];
      if op.Request? && op.request.RegisterNode? && op.connection == connection then Some(op.request.info.worker)
      else if (op.Close? || op.Abandon?) && op.connection == connection then None
      else RegisteredOver(ops, i - 1, connection)
  }

  ghost function WorkerOf(c: Cluster, connection: int): Option<WorkerId> {
    if connection in c.connections then Some(c.connections[connection]) else None
  }

  lemma {:induction false} ConnectionsFollow(run: Trace, i: nat, connection: int)
    requires Run(run) && i <= |run.ops|
    ensures WorkerOf(run.states[i], connection) == RegisteredOver(run.ops, i, connection)
  {
    assert |run.states| == |run.ops| + 1 && run.states[0] == EMPTY;
    hide Run, Next;
    if i > 0 {
      ConnectionsFollow(run, i - 1, connection);
      RunStep(run, i - 1);
      ConnectionStep(run.states[i - 1], run.ops[i - 1], run.states[i], connection);
    }
  }

  lemma ConnectionStep(c: Cluster, op: Op, c': Cluster, connection: int)
    requires Next(c, op, c')
    ensures WorkerOf(c', connection) ==
            if op.Request? && op.request.RegisterNode? && op.connection == connection then Some(op.request.info.worker)
            else if (op.Close? || op.Abandon?) && op.connection == connection then None
            else WorkerOf(c, connection)
  {
  }

  lemma {:induction false} NodesAreAsRegistered(run: Trace, i: nat, worker: WorkerId)
    requires Run(run) && i <= |run.ops| && worker in run.states[i].registry.nodes
    ensures LastRegistration(run.ops, i, worker) == Some(run.states[i].registry.nodes[worker])
  {
    assert |run.states| == |run.ops| + 1 && run.states[0] == EMPTY;
    hide Run, Next;
    if i > 0 {
      RunStep(run, i - 1);
      NodeStep(run.states[i - 1], run.ops[i - 1], run.states[i], worker);
      if worker in run.states[i - 1].registry.nodes {
        NodesAreAsRegistered(run, i - 1, worker);
      }
    }
  }

  lemma NodeStep(c: Cluster, op: Op, c': Cluster, worker: WorkerId)
    requires Next(c, op, c') && worker in c'.registry.nodes
    ensures if op.Request? && op.request.RegisterNode? && op.request.info.worker == worker
            then c'.registry.nodes[worker] == op.request.info
            else worker in c.registry.nodes && c'.registry.nodes[worker] == c.registry.nodes[worker]
  {
  }

  // ----- agreement -----

  /** Every cached location belongs to a node that is registered now, and no key is kept without a location. */
  lemma LocationsAreOnRegisteredNodes(run: Trace, i: nat, key: string)
    requires Run(run) && i <= |run.ops| && key in run.states[i].index
    ensures run.states[i].index[key] != []
    ensures forall location :: location in run.states[i].index[key] ==>
              location.worker in run.states[i].registry.nodes && Member(Log(run, i), location.worker)
  {
    StateTracksHistory(run, i);
    var index := run.states[i].index;
    forall location: Location | location in index[key]
      ensures location.worker in run.states[i].registry.nodes
    {
      var j :| 0 <= j < |index[key]| && index[key][j] == location;
      assert Lookup(index, key)[j] == location;
    }
  }

  /** A query answers with the announcements of the key since their workers last went, in the order they were made. */
  lemma QueryTellsAnnouncements(run: Trace, i: nat, connection: int, key: string)
    requires Run(run) && i <= |run.ops|
    ensures forall response ::
              Answers(run.states[i], connection, QueryCache(key), response) <==>
                  response == CacheLocations(Announcements(Log(run, i), key))
  {
    StateTracksHistory(run, i);
  }

  /** An announcement is accepted exactly when the connection's worker is registered and not gone since. */
  lemma AnnouncementAccepted(run: Trace, i: nat, connection: int, key: string, path: string)
    requires Run(run) && i <= |run.ops|
    ensures var worker := RegisteredOver(run.ops, i, connection);
            Answers(run.states[i], connection, AnnounceCache(key, path), Done) <==>
              worker.Some? && Member(Log(run, i), worker.value)
  {
    StateTracksHistory(run, i);
    ConnectionsFollow(run, i, connection);
  }

  /**
    A query after an accepted announcement ends with the worker, the host name that it last registered with, and the
    path announced; before that come the locations from before. Other keys have the locations they had.
   */
  lemma AnnouncedIsFound(run: Trace, i: nat, key: string, path: string)
    requires Run(run) && i < |run.ops| && run.ops[i].Request? && run.ops[i].request == AnnounceCache(key, path)
    requires var worker := RegisteredOver(run.ops, i, run.ops[i].connection);
             worker.Some? && Member(Log(run, i), worker.value)
    ensures var worker := RegisteredOver(run.ops, i, run.ops[i].connection).value;
            var info := LastRegistration(run.ops, i, worker);
            && info.Some? && info.value.worker == worker
            && forall any, k, found :: Answers(run.states[i], any, QueryCache(k), CacheLocations(found)) ==>
                 var more := if k == key then [Location(worker, info.value.hostname, path)] else [];
                 Answers(run.states[i + 1], any, QueryCache(k), CacheLocations(found + more))
  {
    var c, op, c' := run.states[i], run.ops[i], run.states[i + 1];
    ConnectionsFollow(run, i, op.connection);
    var worker := c.connections[op.connection];
    WhatIsTracked(run, i, worker);
    NodesAreAsRegistered(run, i, worker);
    RegisteredIsOwn(run, i, worker);
    RunStep(run, i);
    hide Run, Member, Announcements, Next, Log, LastRegistration, RegisteredOver;
    AnnounceStep(c, op, c', key, path);
  }

  lemma RegisteredIsOwn(run: Trace, i: nat, worker: WorkerId)
    requires Run(run) && i <= |run.ops| && worker in run.states[i].registry.nodes
    ensures run.states[i].registry.nodes[worker].worker == worker
  {
    StateTracksHistory(run, i);
    hide Run, Member, Announcements, LastContact, Probes, CountsFailures, Log;
  }

  lemma AnnounceStep(c: Cluster, op: Op, c': Cluster, key: string, path: string)
    requires Next(c, op, c') && op.Request? && op.request == AnnounceCache(key, path)
    requires op.connection in c.connections && c.connections[op.connection] in c.registry.nodes
    ensures var info := c.registry.nodes[c.connections[op.connection]];
            forall k :: Lookup(c'.index, k) ==
                        Lookup(c.index, k) + if k == key then [Location(info.worker, info.hostname, path)] else []
  {
    hide NoEmptyLists, Lookup;
  }

  lemma CountMeans(n: int, probes: seq<bool>, m: int)
    requires CountsFailures(n, probes) && 0 <= m <= U32_MAX
    ensures LastFailed(probes, m) <==> m <= n
  {
    if n < m <= |probes| {
      assert probes[|probes| - 1 - n];
    }
  }

  /** Unhealthy means that the last three probes failed, degraded that the last one did but not the last three. */
  lemma HealthTellsProbes(run: Trace, i: nat, worker: WorkerId)
    requires Run(run) && i <= |run.ops|
    ensures var health, probes := HealthOf(FailureCount(run.states[i].registry.failures, worker)),
        Probes(Log(run, i), worker);
            && (health == Unhealthy <==> LastFailed(probes, 3))
            && (health == Degraded <==> LastFailed(probes, 1) && !LastFailed(probes, 3))
  {
    StateTracksHistory(run, i);
    var n, probes := FailureCount(run.states[i].registry.failures, worker), Probes(Log(run, i), worker);
    CountMeans(n, probes, 1);
    CountMeans(n, probes, 3);
  }

  function Elapsed(start: int, now: int): int {
    if now > start then now - start else 0
  }

  /** A pass reaps exactly the workers last heard of more than the timeout ago or with three failed probes. */
  lemma ReapedExactly(run: Trace, i: nat, worker: WorkerId, timeout: int, now: int)
    requires Run(run) && i <= |run.ops|
    ensures var contact := LastContact(Log(run, i), worker);
            worker in Reaped(run.states[i], timeout, now) <==>
              (contact.Some? && Elapsed(contact.value, now) > timeout) || LastFailed(Probes(Log(run, i), worker), 3)
  {
    StateTracksHistory(run, i);
    HealthTellsProbes(run, i, worker);
  }

  /**
    A reaper pass forgets a registered node exactly when it was last heard of more than the timeout ago or its last
    three probes failed; a node that is kept keeps its locations.
   */
  lemma ReaperForgetsExactly(run: Trace, i: nat, worker: WorkerId)
    requires Run(run) && i < |run.ops| && run.ops[i].Reap? && Member(Log(run, i), worker)
    ensures LastContact(Log(run, i), worker).Some?
    ensures worker !in run.states[i + 1].registry.nodes <==>
            Elapsed(LastContact(Log(run, i), worker).value, run.ops[i].now) > run.ops[i].timeout
                || LastFailed(Probes(Log(run, i), worker), 3)
    ensures worker in run.states[i + 1].registry.nodes ==>
              forall key, location :: location in Lookup(run.states[i].index, key) && location.worker == worker ==>
                location in Lookup(run.states[i + 1].index, key)
  {
    StateTracksHistory(run, i);
    HealthTellsProbes(run, i, worker);
    assert Next(run.states[i], run.ops[i], run.states[i + 1]);
    assert worker in run.states[i].registry.nodes;
    forall key, location: Location | location in Lookup(run.states[i].index, key) && location.worker == worker
      ensures worker in run.states[i + 1].registry.nodes ==> location in Lookup(run.states[i + 1].index, key)
    {
      KeptStay(Lookup(run.states[i].index, key), Reaped(run.states[i], run.ops[i].timeout, run.ops[i].now));
    }
  }

  // ----- connections that are abandoned -----

  /** The i-th operation is a pass that reaps the worker, or the close of a connection that it registered over. */
  ghost predicate ForgetsAt(run: Trace, i: nat, worker: WorkerId)
    requires i < |run.ops| < |run.states|
  {
    match run.ops[i]
    case Reap(timeout, now) => worker in Reaped(run.states[i], timeout, now)
    case Close(connection) =>
      connection in run.states[i].connections && run.states[i].connections[connection] == worker
    case _ => false
  }

  /** The node is registered with everything that it has announced under the key. */
  ghost predicate Stays(c: Cluster, worker: WorkerId, c': Cluster) {
    && worker in c'.registry.nodes
    && forall key, location :: location in Lookup(c.index, key) && location.worker == worker ==>
         location in Lookup(c'.index, key)
  }

  lemma StepStays(run: Trace, i: nat, worker: WorkerId)
    requires Run(run) && i < |run.ops| && worker in run.states[i].registry.nodes && !ForgetsAt(run, i, worker)
    ensures Stays(run.states[i], worker, run.states[i + 1])
  {
    RunStep(run, i);
    var c, op, c' := run.states[i], run.ops[i], run.states[i + 1];
    forall key, location: Location | location in Lookup(c.index, key) && location.worker == worker
      ensures location in Lookup(c'.index, key)
    {
      if op.Reap? {
        KeptStay(Lookup(c.index, key), Reaped(c, op.timeout, op.now));
      } else if op.Close? && op.connection in c.connections {
        KeptStay(Lookup(c.index, key), {c.connections[op.connection]});
      }
    }
  }

  lemma StaysPut(c: Cluster, worker: WorkerId)
    requires worker in c.registry.nodes
    ensures Stays(c, worker, c)
  {
  }

  lemma StillRegistered(c: Cluster, worker: WorkerId, c': Cluster)
    requires Stays(c, worker, c')
    ensures worker in c'.registry.nodes
  {
  }

  lemma StaysOn(c: Cluster, worker: WorkerId, c': Cluster, c'': Cluster)
    requires Stays(c, worker, c') && Stays(c', worker, c'')
    ensures Stays(c, worker, c'')
  {
  }

  /** A node stays registered, with its locations, until a pass reaps it or a connection it registered over closes. */
  lemma {:induction false} StaysUntilForgotten(run: Trace, i: nat, j: nat, worker: WorkerId)
    requires Run(run) && i <= j <= |run.ops| && worker in run.states[i].registry.nodes
    requires forall k :: i <= k < j ==> !ForgetsAt(run, k, worker)
    ensures Stays(run.states[i], worker, run.states[j])
    decreases j
  {
    assert |run.states| == |run.ops| + 1;
    if i == j {
      StaysPut(run.states[i], worker);
    } else {
      hide Run, ForgetsAt;
      StaysUntilForgotten(run, i, j - 1, worker);
      StillRegistered(run.states[i], worker, run.states[j - 1]);
      StepStays(run, j - 1, worker);
      hide Stays;
      StaysOn(run.states[i], worker, run.states[j - 1], run.states[j]);
    }
  }

  lemma WhatIsTracked(run: Trace, i: nat, worker: WorkerId)
    requires Run(run) && i <= |run.ops|
    ensures worker in run.states[i].registry.nodes <==> Member(Log(run, i), worker)
    ensures forall key :: Lookup(run.states[i].index, key) == Announcements(Log(run, i), key)
  {
    StateTracksHistory(run, i);
    hide Run, Member, Announcements, LastContact, Probes, CountsFailures, Log;
  }

  lemma AbandonForgetsNobody(run: Trace, i: nat, worker: WorkerId)
    requires Run(run) && i < |run.ops| && run.ops[i].Abandon?
    ensures !ForgetsAt(run, i, worker) && run.ops[i].connection !in run.states[i + 1].connections
  {
    RunStep(run, i);
  }

  /** The announcements of the worker under any key are still there. */
  ghost predicate AnnouncementsStand(log: seq<Act>, worker: WorkerId, log': seq<Act>) {
    forall key, location :: location in Announcements(log, key) && location.worker == worker ==>
      location in Announcements(log', key)
  }

  lemma StandingAnnouncements(run: Trace, i: nat, j: nat, worker: WorkerId)
    requires Run(run) && i <= |run.ops| && j <= |run.ops| && Stays(run.states[i], worker, run.states[j])
    ensures Member(Log(run, j), worker) && AnnouncementsStand(Log(run, i), worker, Log(run, j))
  {
    WhatIsTracked(run, i, worker);
    WhatIsTracked(run, j, worker);
    hide Run, Member, Announcements, Log;
  }

  /**
    Abandoning a connection does not forget its worker: at every later moment the worker is still a member and its
    announcements stand, unless a pass has reaped it or another connection that it registered over has closed.
   */
  lemma AbandonedNodeStays(run: Trace, i: nat, j: nat, connection: int)
    requires Run(run) && i < j <= |run.ops|
    requires run.ops[i] == Abandon(connection) && connection in run.states[i].connections
    requires Member(Log(run, i), run.states[i].connections[connection])
    ensures connection !in run.states[i + 1].connections
    ensures var worker := run.states[i].connections[connection];
            || (exists k :: i < k < j && ForgetsAt(run, k, worker))
            || (Member(Log(run, j), worker) && AnnouncementsStand(Log(run, i), worker, Log(run, j)))
  {
    assert |run.states| == |run.ops| + 1;
    hide Run, Member, Announcements, ForgetsAt, Stays, AnnouncementsStand, Log;
    var worker := run.states[i].connections[connection];
    AbandonForgetsNobody(run, i, worker);
    WhatIsTracked(run, i, worker);
    if forall k :: i < k < j ==> !ForgetsAt(run, k, worker) {
      StaysUntilForgotten(run, i, j, worker);
      StandingAnnouncements(run, i, j, worker);
    }
  }

  // ----- a task that is lost -----

  /**
    A worker is handed a task, leases it and goes silent: the pass that evicts it leaves the task's lease Active and
    the task nowhere to be handed out from.
   */
  lemma LostTaskHappens() returns (run: Trace)
    ensures Run(run) && |run.ops| == 5 && run.ops[4].Reap?
    ensures 7 in Reaped(run.states[4], run.ops[4].timeout, run.ops[4].now) && 7 !in run.states[5].registry.nodes
    ensures run.states[5].queue == [] && 0 in run.states[5].leases
    ensures run.states[5].leases[0].state == Leases.Active && run.states[5].leases[0].worker == 7
  {
    var task := Task(0, Normal, [], NOTHING, 0);
    var info := NodeInfo(7, "host");
    var lease := Leases.NewLease(0, 0, 7, 30, 0, 0);
    var c1 := EMPTY.(queue := [task]);
    var c2 := c1.(registry := WithNode(c1.registry, info, 0), connections := c1.connections[0 := 7]);
    var c3 := c2.(queue := []);
    var c4 := c3.(leases := c3.leases[0 := lease]);
    var gone := Reaped(c4, 60, 100);
    assert 7 in gone;
    var c5 := c4.(registry := WithoutNodes(c4.registry, gone));
    var calls: seq<Call> := [(0, 1)];
    assert HeldBy(c4.leases, gone, calls) by { assert calls[0] in calls; }
    assert calls[..0] == [] && AfterCalls(c4.queue, calls) == [];
    assert RequeuedFrom(c4, gone, c5.queue);
    assert EvictedFrom(c4.index, gone, c5.index);
    run := Trace([EMPTY, c1, c2, c3, c4, c5],
                 [Enqueue(task), Op.Request(0, RegisterNode(info), 0), Op.Request(0, DequeueTask(7), 0),
                  Op.Request(0, InsertLease(lease), 0), Reap(60, 100)]);
    assert c1.queue + [] == c1.queue && c1.queue[1..] == [];
    forall k | 0 <= k < |run.ops|
      ensures Next(run.states[k], run.ops[k], run.states[k + 1])
    {
    }
  }

  // ----- leases at the coordinator -----

  /** What the requests of workers and the like say of the lease of one task. */
  ghost function LeaseAfter(ops: seq<Op>, i: nat, t: TaskId): Option<Leases.Lease>
    requires i <= |ops|
  {
    if i == 0 then None else LeaseNext(LeaseAfter(ops, i - 1, t), ops[i - 1], t)
  }

  ghost function LeaseNext(before: Option<Leases.Lease>, op: Op, t: TaskId): Option<Leases.Lease> {
    if !op.Request? then before
    else
      match op.request
      case InsertLease(lease) => if lease.task == t && before.None? then Some(lease) else before
      case UpdateLease(lease) => if lease.task == t && before.Some? then Some(lease) else before
      case RemoveLease(task) => if task == t then None else before
      case _ => before
  }

  /** The first insert since a removal counts, and every update after it; nothing else touches a lease. */
  lemma {:induction false} LeasesFollowRequests(run: Trace, i: nat, t: TaskId)
    requires Run(run) && i <= |run.ops|
    ensures Leases.OnFile(run.states[i].leases, t) == LeaseAfter(run.ops, i, t)
  {
    assert |run.states| == |run.ops| + 1 && run.states[0] == EMPTY;
    hide Run, Next;
    if i > 0 {
      LeasesFollowRequests(run, i - 1, t);
      RunStep(run, i - 1);
      LeaseStep(run.states[i - 1], run.ops[i - 1], run.states[i], t);
    }
  }

  lemma LeaseStep(c: Cluster, op: Op, c': Cluster, t: TaskId)
    requires Next(c, op, c')
    ensures Leases.OnFile(c'.leases, t) == LeaseNext(Leases.OnFile(c.leases, t), op, t)
  {
  }

  /** What workers are told of leases and tasks is what the requests before say. */
  lemma AnswersFollowHistory(run: Trace, i: nat, connection: int, lease: Leases.Lease, t: TaskId, worker: WorkerId)
    requires Run(run) && i <= |run.ops|
    ensures var c, known := run.states[i], LeaseAfter(run.ops, i, lease.task);
            && (Answers(c, connection, InsertLease(lease), Done) <==> known.None?)
            && (Answers(c, connection, UpdateLease(lease), Done) <==> known.Some?)
    ensures forall response :: Answers(run.states[i], connection, GetLease(t), response) <==>
              response == FoundLease(LeaseAfter(run.ops, i, t))
    ensures forall task :: Answers(run.states[i], connection, DequeueTask(worker), Dequeued(task)) ==>
              Takes(run.states[i], Op.Request(connection, DequeueTask(worker), 0))
                == if task.Some? then [task.value.id] else []
  {
    LeasesFollowRequests(run, i, lease.task);
    LeasesFollowRequests(run, i, t);
  }

  /** The list of active leases is that of the history, each lease once. */
  lemma ListedLeases(run: Trace, i: nat, connection: int, response: Response)
    requires Run(run) && i <= |run.ops| && Answers(run.states[i], connection, ActiveLeases, response)
    ensures response.FoundLeases? && Distinct(response.leases)
    ensures forall l :: l in response.leases <==>
              LeaseAfter(run.ops, i, l.task) == Some(l) && l.state == Leases.Active
  {
    forall l: Leases.Lease
      ensures l in response.leases <==> LeaseAfter(run.ops, i, l.task) == Some(l) && l.state == Leases.Active
    {
      LeasesFollowRequests(run, i, l.task);
    }
  }

  /** Why an announcement is refused; and what is always answered with success. */
  lemma RefusedOrDone(run: Trace, i: nat, connection: int, request: Request, response: Response)
    requires Run(run) && i <= |run.ops| && Answers(run.states[i], connection, request, response)
    ensures response == NotRegistered <==> request.AnnounceCache? && RegisteredOver(run.ops, i, connection) == None
    ensures response == NodeNotFound <==>
              request.AnnounceCache? && RegisteredOver(run.ops, i, connection).Some?
              && !Member(Log(run, i), RegisteredOver(run.ops, i, connection).value)
    ensures match request
            case RegisterNode(_) => response == Done
            case NodeHeartbeat(_) => response == Done
            case RequeueTask(_, _) => response == Done
            case DiscardTask(_) => response == Done
            case RemoveLease(_) => response == Done
            case EmitEvent => response == Done
            case EmitLog => response == Done
            case _ => true
  {
    StateTracksHistory(run, i);
    ConnectionsFollow(run, i, connection);
  }

  // ----- the queue -----

  ghost function Ids(tasks: seq<Task>): seq<TaskId> {
    seq(|tasks|, k requires 0 <= k < |tasks| => tasks[k].id)
  }

  /** The task that the operation hands out. */
  ghost function Takes(c: Cluster, op: Op): seq<TaskId> {
    if op.Request? && op.request.DequeueTask? && c.queue != [] then [c.queue[0].id] else []
  }

  /** The tasks that the operation puts at the end of the queue: one enqueued, or copies of those requeued. */
  ghost function Puts(c: Cluster, op: Op, c': Cluster): seq<TaskId> {
    if op.Enqueue? then [op.task.id]
    else if |c'.queue| > |c.queue| then Ids(c'.queue[|c.queue|..])
    else []
  }

  ghost function HandedOut(run: Trace, i: nat): seq<TaskId>
    requires i <= |run.ops| < |run.states|
  {
    if i == 0 then [] else HandedOut(run, i - 1) + Takes(run.states[i - 1], run.ops[i - 1])
  }

  ghost function QueuedUp(run: Trace, i: nat): seq<TaskId>
    requires i <= |run.ops| < |run.states|
  {
    if i == 0 then [] else QueuedUp(run, i - 1) + Puts(run.states[i - 1], run.ops[i - 1], run.states[i])
  }

  lemma QueueKept(c: Cluster, op: Op, c': Cluster)
    requires Next(c, op, c')
    ensures if op.Request? && op.request.DequeueTask? && c.queue != [] then c'.queue == c.queue[1..]
            else |c'.queue| >= |c.queue| && Ids(c'.queue[..|c.queue|]) == Ids(c.queue)
    ensures op.Enqueue? ==> c'.queue == c.queue + [op.task]
  {
    if op.Reap? {
      ReaperRaisesAttempts(c, op.timeout, op.now, c');
    } else if op.Request? && op.request.RequeueTask? {
      RequeueReaches(c.queue, op.request.task, op.request.attempt);
    }
  }

  lemma QueueStep(c: Cluster, op: Op, c': Cluster)
    requires Next(c, op, c')
    ensures Ids(c.queue) + Puts(c, op, c') == Takes(c, op) + Ids(c'.queue)
  {
    QueueKept(c, op, c');
    hide Next, Ids;
    if op.Request? && op.request.DequeueTask? && c.queue != [] {
      IdsJoin([c.queue[0]], c'.queue);
      assert [c.queue[0]] + c'.queue == c.queue;
      OneId(c.queue[0]);
    } else {
      var n := |c.queue|;
      IdsJoin(c'.queue[..n], c'.queue[n..]);
      assert c'.queue[..n] + c'.queue[n..] == c'.queue;
      if op.Enqueue? {
        OneId(op.task);
        assert c'.queue[n..] == [op.task];
      } else if |c'.queue| == n {
        assert c'.queue[..n] == c'.queue;
      }
    }
  }

  lemma IdsJoin(a: seq<Task>, b: seq<Task>)
    ensures Ids(a + b) == Ids(a) + Ids(b)
  {
  }

  lemma OneId(t: Task)
    ensures Ids([t]) == [t.id]
  {
  }

  /** First in, first out: what was put into the queue is what has been handed out followed by what is still queued. */
  lemma {:induction false} HandedOutInOrder(run: Trace, i: nat)
    requires Run(run) && i <= |run.ops|
    ensures QueuedUp(run, i) == HandedOut(run, i) + Ids(run.states[i].queue)
  {
    assert |run.states| == |run.ops| + 1 && run.states[0] == EMPTY;
    hide Run, Next, Takes, Puts, Ids, HandedOut, QueuedUp;
    if i == 0 {
      NoIds(run);
    } else {
      OneMoreStep(run, i);
      HandedOutInOrder(run, i - 1);
      RunStep(run, i - 1);
      var c, op, c' := run.states[i - 1], run.ops[i - 1], run.states[i];
      QueueStep(c, op, c');
      Grouped(HandedOut(run, i - 1), Ids(c.queue), Puts(c, op, c'), Takes(c, op), Ids(c'.queue));
    }
  }

  /** Requeuing a task that is queued puts a copy with the attempt at the end, and changes only attempts before it. */
  lemma RequeuedOnce(run: Trace, i: nat, task: TaskId, attempt: nat)
    requires Run(run) && i < |run.ops| && run.ops[i].Request? && run.ops[i].request == RequeueTask(task, attempt)
    ensures var before, after := run.states[i].queue, run.states[i + 1].queue;
            if exists k :: 0 <= k < |before| && before[k].id == task
            then
              && |after| == |before| + 1 && after[|before|].id == task && after[|before|].attempt == attempt
              && forall k :: 0 <= k < |before| ==>
                   after[k] == if before[k].id == task && (forall j :: 0 <= j < k ==> before[j].id != task)
                               then before[k].(attempt := attempt) else before[k]
            else after == before
  {
    RunStep(run, i);
  }

  lemma NoIds(run: Trace)
    requires |run.ops| < |run.states|
    ensures Ids(EMPTY.queue) == [] && HandedOut(run, 0) == [] && QueuedUp(run, 0) == []
  {
  }

  lemma OneMoreStep(run: Trace, i: nat)
    requires 0 < i <= |run.ops| < |run.states|
    ensures HandedOut(run, i) == HandedOut(run, i - 1) + Takes(run.states[i - 1], run.ops[i - 1])
    ensures QueuedUp(run, i) == QueuedUp(run, i - 1) + Puts(run.states[i - 1], run.ops[i - 1], run.states[i])
  {
  }

  lemma Grouped(out: seq<TaskId>, a: seq<TaskId>, puts: seq<TaskId>, takes: seq<TaskId>, b: seq<TaskId>)
    requires a + puts == takes + b
    ensures (out + a) + puts == (out + takes) + b
  {
    assert (out + a) + puts == out + (a + puts);
  }
}
