/** The coordinator and its counters as objects that are updated in place. */
module ShardCoordinators {
  import opened Bytes
  import T = ShardTopology
  import O = ShardOwners
  import Tables = OldestFirst
  import M = ShardMetrics
  import R = ShardRouter

  class ShardLoadMetrics {
    var total: M.Load
    var shards: seq<M.Load>
    var flowLoads: map<O.Key, M.FlowLoad>
    var flowOrder: seq<O.Key>
    const maxTrackedFlows: nat

    constructor (shardCount: nat)
      ensures Value() == M.NewMetrics(shardCount)
    {
      total, shards := M.NO_LOAD, M.NoLoads(Max(shardCount, 1));
      flowLoads, flowOrder := map[], [];
      maxTrackedFlows := M.MAX_TRACKED_FLOWS;
    }

    function Value(): M.Metrics
      reads this
    {
      M.Metrics(total, shards, flowLoads, flowOrder, maxTrackedFlows)
    }

    method ObserveRoute(route: M.Route, bytes: nat)
      modifies this
      ensures Value() == M.ObserveRoute(old(Value()), route, bytes)
    {
      hide M.Count, M.TrackFlow;
      total := M.Count(total, route.kind, route.reason, bytes);
      if route.shard < |shards| {
        shards := shards[route.shard := M.Count(shards[route.shard], route.kind, route.reason, bytes)];
      }
      if (route.kind.FlowAffinity? || route.kind.StripedFlow?) && route.flow.Some? {
        ObserveFlowLoad(route.flow.value, route.shard, bytes, route.kind.StripedFlow?);
      }
    }

    method ObserveFlowLoad(key: O.Key, shard: nat, bytes: nat, striped: bool)
      modifies `flowLoads, `flowOrder
      ensures Value() == M.TrackFlow(old(Value()), key, shard, bytes, striped)
    {
      hide M.ObserveFlow, M.MakeRoom;
      if key !in flowLoads {
        DropOldest();
        if |flowLoads| >= maxTrackedFlows {
          return;
        }
        var load := Observed(M.NEW_FLOW, shard, bytes, striped);
        flowLoads := flowLoads[key := load];
        flowOrder := flowOrder + [key];
        return;
      }
      var load := Observed(flowLoads[key], shard, bytes, striped);
      flowLoads := flowLoads[key := load];
    }

    method DropOldest()
      modifies `flowLoads, `flowOrder
      ensures Value() == M.MakeRoom(old(Value()))
    {
      while |flowLoads| >= maxTrackedFlows && flowOrder != []
        invariant M.MakeRoom(Value()) == M.MakeRoom(old(Value()))
        decreases |flowOrder|
      {
        flowLoads := flowLoads - {flowOrder[0]};
        flowOrder := flowOrder[1..];
      }
    }

    /** Finds the shard's part of a flow's load, or adds one. */
    static method Observed(load: M.FlowLoad, shard: nat, bytes: nat, striped: bool) returns (r: M.FlowLoad)
      ensures r == M.ObserveFlow(load, shard, bytes, striped)
    {
      hide M.AddPart;
      var parts := load.parts;
      var i := 0;
      while i < |parts| && parts[i].shard != shard
        invariant i <= |parts|
        invariant forall k :: 0 <= k < i ==> parts[k].shard != shard
      {
        i := i + 1;
      }
      M.AddPartAt(parts, shard, bytes, i);
      if i < |parts| {
        parts := parts[i := M.Part(shard, parts[i].packets + 1, parts[i].bytes + bytes)];
      } else {
        parts := parts + [M.Part(shard, 1, bytes)];
      }
      r := M.FlowLoad(load.packets + 1, load.bytes + bytes, load.striped || striped, parts);
    }
  }

  class ShardCoordinator {
    const config: R.Config
    var nextSequence: nat
    const flowOwners: O.FlowOwnerTable
    const metrics: ShardLoadMetrics

    constructor (
      shardCount: nat, dump: bool, fallback: R.FallbackPolicy, elephants: R.Elephants, hashes: R.Hashes,
      maxFlowOwners: nat)
      ensures R.Sane(config, Value()) && fresh(flowOwners) && fresh(metrics)
      ensures config.topology == T.NewTopology(shardCount) && config.dump == dump && config.fallback == fallback
      ensures config.elephants == elephants.(minPackets := Max(elephants.minPackets, 1), minBytes := Max(elephants.minBytes, 1))
      ensures Value() == R.NewState(config, maxFlowOwners)
    {
      hide R.Sane, M.NewMetrics, Tables.NewTable, T.NewTopology, M.NoLoads;
      var topology := T.NewTopology(shardCount);
      config := R.Config(topology, dump, fallback,
                         elephants.(minPackets := Max(elephants.minPackets, 1), minBytes := Max(elephants.minBytes, 1)),
                         hashes);
      nextSequence := 0;
      flowOwners := new O.FlowOwnerTable(maxFlowOwners);
      metrics := new ShardLoadMetrics(topology.count);
      new;
      R.NewIsValid(config, shardCount);
      assert Value() == R.NewState(config, maxFlowOwners);
    }

    function Value(): R.State
      reads this, flowOwners, metrics
    {
      R.State(nextSequence, flowOwners.Value(), metrics.Value())
    }

    method RoutePacket(packet: R.Packet) returns (route: M.Route)
      requires config.Valid() && Tables.Valid(flowOwners.Value())
      modifies this, flowOwners, metrics
      ensures (route, Value()) == R.RoutePacket(config, old(Value()), packet)
    {
      hide R.Routed, Tables.Valid, T.NewTopology, M.ObserveRoute;
      var sequence := nextSequence;
      nextSequence := sequence + 1;
      if config.dump {
        route := M.Route(0, 0, M.Dump, None, None);
      } else if config.topology.count <= 1 {
        route := M.Route(0, 0, M.SingleShard, None, None);
      } else if packet.headers.Flow? {
        route := RouteFlow(sequence, packet.headers.key, packet.bytes);
      } else {
        var shard := if config.fallback.RoundRobin? then config.topology.ShardFor(sequence) else 0;
        route := M.Route(shard, 0, M.Fallback, None, Some(packet.headers.reason));
      }
      metrics.ObserveRoute(route, packet.bytes);
    }

    method RouteFlow(sequence: nat, key: O.Key, bytes: nat) returns (route: M.Route)
      requires config.Valid() && Tables.Valid(flowOwners.Value())
      modifies flowOwners
      ensures (route, flowOwners.Value())
              == R.Routed(config, R.State(sequence, old(flowOwners.Value()), metrics.Value()), key, bytes)
    {
      hide Tables.Valid, T.NewTopology, O.Remember, R.ChooseForNewFlow, R.ChooseForStripedFlow;
      ghost var before := R.State(sequence, flowOwners.Value(), metrics.Value());
      O.EveryStepKeeps(flowOwners.Value(), key, R.ChooseForNewFlow(config, metrics.Value(), key));
      var known := flowOwners.OwnerOf(key);
      if known.None? {
        flowOwners.RememberOwner(key, R.ChooseForNewFlow(config, metrics.Value(), key));
      }
      assert flowOwners.Value() == R.Installed(config, before, key);
      var installed := flowOwners.OwnerOf(key);
      var owner := installed.value;
      if R.ShouldStripe(config, key, owner) {
        flowOwners.Stripe(key);
        owner := owner.(striped := true);
      }
      var shard := owner.shard;
      if owner.striped {
        shard := ChooseShardForStripedFlow(key, sequence, owner.shard);
      }
      flowOwners.ObservePacket(key, bytes);
      route := M.Route(shard, owner.shard, if owner.striped then M.StripedFlow else M.FlowAffinity, Some(key), None);
    }

    method ChooseShardForStripedFlow(key: O.Key, sequence: nat, owner: nat) returns (selected: nat)
      requires config.Valid()
      ensures selected == R.ChooseForStripedFlow(config, metrics.Value(), key, sequence, owner)
    {
      hide R.Better, R.Candidates;
      var candidates := ElephantStripeCandidates(key, owner);
      if |candidates| <= 1 {
        return owner;
      }
      selected := owner;
      assert candidates[0..] == candidates;
      for i := 0 to |candidates|
        invariant R.BestOf(config, metrics.Value(), key, sequence, owner, candidates)
               == R.BestOf(config, metrics.Value(), key, sequence, selected, candidates[i..])
      {
        assert candidates[i..][0] == candidates[i] && candidates[i..][1..] == candidates[i + 1..];
        selected := R.Better(config, metrics.Value(), key, sequence, selected, candidates[i]);
      }
    }

    method ElephantStripeCandidates(key: O.Key, owner: nat) returns (candidates: seq<nat>)
      requires config.Valid()
      ensures candidates == R.Candidates(config, key, owner)
    {
      hide T.NewTopology, T.Topology.ShardFor;
      if R.StripesEverywhere(config) {
        return R.AllShards(config.topology.count);
      }
      var target := Max(config.elephants.maxStripes, 1);
      candidates := [owner];
      var salt: nat := 0;
      while |candidates| < target && salt < 4 * config.topology.count
        invariant R.MoreCandidates(config, key, [owner], 0) == R.MoreCandidates(config, key, candidates, salt)
        decreases 4 * config.topology.count - salt
      {
        var shard := config.topology.ShardFor(config.hashes.stripe(key, salt));
        if shard !in candidates {
          candidates := candidates + [shard];
        }
        salt := salt + 1;
      }
    }
  }
}
