/** What the coordinator keeps: which nodes are registered, how their probes went, and where cached artifacts are. */
module Coordinator {
  import opened Core

  datatype NodeInfo = NodeInfo(worker: WorkerId, hostname: string)

  datatype Location = Location(worker: WorkerId, hostname: string, path: string)

  datatype Health = Healthy | Degraded | Unhealthy

  const DEGRADED_THRESHOLD := 1
  const UNHEALTHY_THRESHOLD := 3
  const U32_MAX := 0xFFFF_FFFF

  type Index = map<string, seq<Location>>

  datatype Registry = Registry(
    nodes: map<WorkerId, NodeInfo>, lastSeen: map<WorkerId, int>, failures: map<WorkerId, int>)

  // ----- the cache index -----

  function Lookup(index: Index, key: string): seq<Location> {
    if key in index then index[key] else []
  }

  function Keep(locations: seq<Location>, gone: set<WorkerId>): seq<Location> {
    if locations == [] then []
    else
      var rest := Keep(locations[1..], gone);
      if locations[0].worker in gone then rest else [locations[0]] + rest
  }

  ghost predicate NoEmptyLists(index: Index) {
    forall key :: key in index ==> index[key] != []
  }

  /** The index after some workers are gone: their locations are missing, and so are keys left without any. */
  ghost predicate EvictedFrom(index: Index, gone: set<WorkerId>, index': Index) {
    && NoEmptyLists(index')
    && forall key :: Lookup(index', key) == Keep(Lookup(index, key), gone)
  }

  class CacheIndex {
    var entries: Index

    constructor ()
      ensures entries == map[]
    {
      entries := map[];
    }

    method Announce(key: string, location: Location)
      modifies this
      ensures Lookup(entries, key) == Lookup(old(entries), key) + [location]
      ensures forall k :: k != key ==> Lookup(entries, k) == Lookup(old(entries), k)
      ensures NoEmptyLists(old(entries)) ==> NoEmptyLists(entries)
    {
      if key !in entries {
        entries := entries[key := []];
      }
      entries := entries[key := entries[key] + [location]];
    }

    method Query(key: string) returns (locations: seq<Location>)
      ensures locations == Lookup(entries, key)
    {
      if key !in entries {
        return [];
      }
      locations := [];
      for i := 0 to |entries[key]|
        invariant locations == entries[key][..i]
      {
        var e := entries[key][i];
        locations := locations + [Location(e.worker, e.hostname, e.path)];
      }
    }

    method EvictNode(worker: WorkerId)
      modifies this
      ensures EvictedFrom(old(entries), {worker}, entries)
    {
      var keys := entries.Keys;
      while keys != {}
        invariant keys <= entries.Keys == old(entries).Keys
        invariant forall k :: k in keys ==> entries[k] == old(entries)[k]
        invariant forall k :: k in entries && k !in keys ==> entries[k] == Keep(old(entries)[k], {worker})
        decreases |keys|
      {
        var k := Any(keys);
        entries := entries[k := Keep(entries[k], {worker})];
        keys := keys - {k};
      }
      entries := map k | k in entries && entries[k] != [] :: entries[k];
    }
  }

  // ----- the node registry -----

  function FailureCount(failures: map<WorkerId, int>, worker: WorkerId): int {
    if worker in failures then failures[worker] else 0
  }

  function HealthOf(failures: int): Health {
    if failures >= UNHEALTHY_THRESHOLD then Unhealthy
    else if failures >= DEGRADED_THRESHOLD then Degraded
    else Healthy
  }

  ghost function StaleSet(r: Registry, timeout: int, now: int): set<WorkerId> {
    set w | w in r.lastSeen && Monus(now, r.lastSeen[w]) > timeout
  }

  ghost function UnhealthySet(r: Registry): set<WorkerId> {
    set w | w in r.failures && r.failures[w] >= UNHEALTHY_THRESHOLD
  }

  function WithNode(r: Registry, info: NodeInfo, now: int): Registry {
    Registry(r.nodes[info.worker := info], r.lastSeen[info.worker := now], r.failures[info.worker := 0])
  }

  function WithoutNodes(r: Registry, gone: set<WorkerId>): Registry {
    Registry(r.nodes - gone, r.lastSeen - gone, r.failures - gone)
  }

  function WithProbe(r: Registry, worker: WorkerId, ok: bool): Registry {
    var n := FailureCount(r.failures, worker);
    r.(failures := r.failures[worker := if ok then 0 else if n < U32_MAX then n + 1 else U32_MAX])
  }

  class NodeRegistry {
    var nodes: map<WorkerId, NodeInfo>
    var lastSeen: map<WorkerId, int>
    var probeFailures: map<WorkerId, int>

    ghost function View(): Registry
      reads this
    {
      Registry(nodes, lastSeen, probeFailures)
    }

    constructor ()
      ensures View() == Registry(map[], map[], map[])
    {
      nodes, lastSeen, probeFailures := map[], map[], map[];
    }

    method Register(info: NodeInfo, now: int)
      modifies this
      ensures View() == WithNode(old(View()), info, now)
    {
      nodes := nodes[info.worker := info];
      lastSeen := lastSeen[info.worker := now];
      probeFailures := probeFailures[info.worker := 0];
    }

    method Heartbeat(worker: WorkerId, now: int)
      modifies `lastSeen
      ensures lastSeen == old(lastSeen)[worker := now]
    {
      lastSeen := lastSeen[worker := now];
    }

    method StaleNodes(timeout: int, now: int) returns (stale: seq<WorkerId>)
      ensures Distinct(stale) && Elements(stale) == StaleSet(View(), timeout, now)
    {
      stale := [];
      var ids := lastSeen.Keys;
      while ids != {}
        invariant ids <= lastSeen.Keys && Distinct(stale)
        invariant Elements(stale) == set w | w in lastSeen && w !in ids && Monus(now, lastSeen[w]) > timeout
        decreases |ids|
      {
        var w := Any(ids);
        ids := ids - {w};
        if Monus(now, lastSeen[w]) > timeout {
          Appended(stale, w);
          stale := stale + [w];
        }
      }
    }

    method Remove(worker: WorkerId)
      modifies this
      ensures View() == WithoutNodes(old(View()), {worker})
    {
      nodes := nodes - {worker};
      lastSeen := lastSeen - {worker};
      probeFailures := probeFailures - {worker};
    }

    method GetNodeInfo(worker: WorkerId) returns (info: Option<NodeInfo>)
      ensures info == if worker in nodes then Some(nodes[worker]) else None
    {
      info := if worker in nodes then Some(nodes[worker]) else None;
    }

    method RecordProbe(worker: WorkerId, ok: bool)
      modifies `probeFailures
      ensures View() == WithProbe(old(View()), worker, ok)
    {
      if ok {
        probeFailures := probeFailures[worker := 0];
      } else {
        var current := FailureCount(probeFailures, worker);
        probeFailures := probeFailures[worker := if current < U32_MAX then current + 1 else U32_MAX];
      }
    }

    method HealthStatus(worker: WorkerId) returns (health: Health)
      ensures health == HealthOf(FailureCount(probeFailures, worker))
    {
      var failures := FailureCount(probeFailures, worker);
      if failures >= UNHEALTHY_THRESHOLD {
        return Unhealthy;
      } else if failures >= DEGRADED_THRESHOLD {
        return Degraded;
      }
      return Healthy;
    }

    method UnhealthyNodes() returns (unhealthy: seq<WorkerId>)
      ensures Distinct(unhealthy) && Elements(unhealthy) == UnhealthySet(View())
    {
      unhealthy := [];
      var ids := probeFailures.Keys;
      while ids != {}
        invariant ids <= probeFailures.Keys && Distinct(unhealthy)
        invariant Elements(unhealthy) == set w | w in probeFailures && w !in ids
            && probeFailures[w] >= UNHEALTHY_THRESHOLD
        decreases |ids|
      {
        var w := Any(ids);
        ids := ids - {w};
        if probeFailures[w] >= UNHEALTHY_THRESHOLD {
          Appended(unhealthy, w);
          unhealthy := unhealthy + [w];
        }
      }
    }
  }

  lemma Appended<T>(s: seq<T>, x: T)
    requires Distinct(s) && x !in Elements(s)
    ensures Distinct(s + [x]) && Elements(s + [x]) == Elements(s) + {x}
  {
    assert forall y :: y in s + [x] <==> y in s || y == x;
    assert forall i :: 0 <= i < |s| ==> s[i] in Elements(s);
  }

  lemma {:induction false} KeepNobody(locations: seq<Location>)
    ensures Keep(locations, {}) == locations
  {
    if locations != [] {
      KeepNobody(locations[1..]);
    }
  }

  lemma {:induction false} KeepTwice(locations: seq<Location>, a: set<WorkerId>, b: set<WorkerId>)
    ensures Keep(Keep(locations, a), b) == Keep(locations, a + b)
  {
    if locations != [] {
      KeepTwice(locations[1..], a, b);
    }
  }
}
