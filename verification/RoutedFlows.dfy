/**
 The router and the network of workers together: the packets of a TCP flow that does
 not come back after its eviction all reach one shard, so its chunks end up at one node.
 */
module RoutedFlows {
  import opened Bytes
  import Net = OffloadNetwork
  import Delivery = NetworkDelivery
  import Invariant = NetworkInvariant
  import Placement = StreamPlacement
  import Shutdown = NetworkShutdown
  import Router = ShardRouter
  import Affinity = ShardAffinity
  import Tables = OldestFirst
  import Owners = ShardOwners
  import Metrics = ShardMetrics

  /** The chunks reassembly makes of each packet: only TCP packets have any, all of their own flow. */
  predicate ChunksBelong(packets: seq<Router.Packet>, chunks: seq<seq<Placement.Chunk>>) {
    && |chunks| == |packets|
    && forall i :: 0 <= i < |packets| ==> BelongTo(packets[i], chunks[i])
  }

  predicate BelongTo(p: Router.Packet, chunks: seq<Placement.Chunk>) {
    forall j :: 0 <= j < |chunks| ==> p.headers == Router.Flow(Owners.Key(chunks[j].flow, false))
  }

  /** What the coordinator feeds to the workers. */
  function InputOf(routes: seq<Metrics.Route>, chunks: seq<seq<Placement.Chunk>>): (input: seq<Net.Routed>)
    requires |routes| == |chunks|
    ensures |input| == |routes|
    ensures forall i :: 0 <= i < |input| ==> input[i] == Net.Routed(routes[i].shard, chunks[i])
  {
    seq(|routes|, i requires 0 <= i < |routes| => Net.Routed(routes[i].shard, chunks[i]))
  }

  lemma {:induction false} RoutesExist(c: Router.Config, s: Router.State, packets: seq<Router.Packet>)
    requires Router.Sane(c, s)
    ensures forall i :: 0 <= i < |packets| ==> Router.RoutesOf(c, s, packets)[i].shard < c.topology.count
    decreases |packets|
  {
    if packets != [] {
      hide Router.Sane, Router.RoutePacket;
      Router.PacketKeeps(c, s, packets[0]);
      RoutesExist(c, Router.RoutePacket(c, s, packets[0]).1, packets[1..]);
    }
  }

  /** Input of which only one shard gets chunks of a flow. */
  lemma {:induction false} OthersGetNone(input: seq<Net.Routed>, flow: nat, owner: nat, n: nat)
    requires n != owner
    requires forall i :: 0 <= i < |input| && !Delivery.NoneOf(input[i].chunks, flow) ==> input[i].shard == owner
    ensures Delivery.NoneOf(Delivery.ChunksFor(input, n), flow)
  {
    if input != [] {
      assert forall i :: 0 <= i < |input| - 1 ==> input[1..][i] == input[i + 1];
      OthersGetNone(input[1..], flow, owner, n);
    }
  }

  /** The router gives a TCP flow that does not come back to one shard alone, from its first packet on. */
  lemma {:induction false} RoutingOwns(
    c: Router.Config, s: Router.State, packets: seq<Router.Packet>, chunks: seq<seq<Placement.Chunk>>,
    net: Net.Config, flow: nat)
    requires Router.Sane(c, s) && net.workers == c.topology.count
    requires !Affinity.ComesBack(c, s, Affinity.HeadersOf(packets), Owners.Key(flow, false)) && ChunksBelong(packets, chunks)
    ensures var input := InputOf(Router.RoutesOf(c, s, packets), chunks);
            && Invariant.ShardsExist(net, input)
            && Delivery.Owned(net, input, flow, Affinity.HomeOf(c, s, packets, Owners.Key(flow, false)))
  {
    hide Router.Sane, Affinity.ComesBack, Router.RoutesOf, Router.AfterAll, Affinity.HomeOf, Delivery.ChunksFor;
    var key := Owners.Key(flow, false);
    var home := Affinity.HomeOf(c, s, packets, key);
    Affinity.OwnerIsConstant(c, s, packets, key);
    RoutesExist(c, s, packets);
    var routes := Router.RoutesOf(c, s, packets);
    var input := InputOf(routes, chunks);
    forall i | 0 <= i < |input| && !Delivery.NoneOf(input[i].chunks, flow)
      ensures input[i].shard == home
    {
      var j :| 0 <= j < |chunks[i]| && chunks[i][j].flow == flow;
      assert BelongTo(packets[i], chunks[i]);
      assert Affinity.KeepsTo(routes[i], packets[i], key, home);
    }
    forall n | 0 <= n < net.workers && n != home
      ensures Delivery.NoneOf(Delivery.ChunksFor(input, n), flow)
    {
      OthersGetNone(input, flow, home, n);
    }
  }

  /**
   At the end, what is not dropped of the flow was worked on in order by its offload
   worker alone, or by its shard alone.
   */
  predicate OnOneNode(net: Net.Config, input: seq<Net.Routed>, end: Net.State, home: nat, flow: nat)
    requires net.offloads > 0
  {
    && home < net.workers <= net.Target(flow) < |end.nodes|
    && Placement.OneSided(net.rules.policy, Placement.OfFlow(end.nodes[net.Target(flow)].worked, flow),
                          Placement.OfFlow(end.nodes[home].worked, flow),
                          Placement.OfFlow(Delivery.ChunksFor(input, home), flow))
  }

  /** A run of the network that has shut down. */
  predicate IsComplete(net: Net.Config, input: seq<Net.Routed>, actions: seq<Net.Action>) {
    var start := Net.Start(net, input);
    Net.IsRun(net, start, actions) && Net.After(net, start, actions).phase == Net.Done
  }

  /**
   From the first packet routed to the end of shutdown: what is not dropped of a
   TCP flow that does not come back after its owner entry was evicted is worked on by
   one node in order.
   Under `Inline` this is so exactly when each chunk that its shard gets after as
   many other flows as the placement table holds finds room if and only if the
   first one did. The router may start anew or have routed before.
   */
  lemma {:induction false} RoutedFlowOnOneNode(
    c: Router.Config, s: Router.State, packets: seq<Router.Packet>, chunks: seq<seq<Placement.Chunk>>,
    net: Net.Config, actions: seq<Net.Action>, flow: nat)
    requires Router.Sane(c, s) && ChunksBelong(packets, chunks)
    requires !Affinity.ComesBack(c, s, Affinity.HeadersOf(packets), Owners.Key(flow, false))
    requires net.Valid() && net.offloads > 0 && net.workers == c.topology.count
    requires IsComplete(net, InputOf(Router.RoutesOf(c, s, packets), chunks), actions)
    ensures var input := InputOf(Router.RoutesOf(c, s, packets), chunks);
            var end := Net.After(net, Net.Start(net, input), actions);
            var home := Affinity.HomeOf(c, s, packets, Owners.Key(flow, false));
            && home < |end.nodes|
            && (OnOneNode(net, input, end, home, flow)
                <==> (net.rules.policy.Inline? ==> Placement.RoomAgrees(end.nodes[home].visits, net.rules.capacity, flow)))
            && (Placement.NeverLate(Delivery.ChunksFor(input, home), net.rules.capacity, flow) ==>
                  OnOneNode(net, input, end, home, flow))
  {
    hide Router.Sane, Router.RoutesOf, Affinity.HomeOf, Affinity.ComesBack, Net.Start, Net.IsRun, Net.After,
         Placement.OneSided, Placement.OfFlow, Placement.RoomAgrees, Placement.NeverLate, Delivery.ChunksFor,
         Delivery.Owned, Invariant.ShardsExist;
    RoutingOwns(c, s, packets, chunks, net, flow);
    Shutdown.OneNodePerFlow(net, InputOf(Router.RoutesOf(c, s, packets), chunks), actions, flow,
                            Affinity.HomeOf(c, s, packets, Owners.Key(flow, false)));
  }

  /**
   With room for all flows in the owner table and in each placement table, every
   TCP flow is worked on by one node, whatever the policy and however full the queues.
   */
  lemma {:induction false} FewFlowsOnOneNode(
    c: Router.Config, s: Router.State, packets: seq<Router.Packet>, chunks: seq<seq<Placement.Chunk>>,
    net: Net.Config, actions: seq<Net.Action>, flow: nat)
    requires Router.Sane(c, s) && ChunksBelong(packets, chunks)
    requires |s.owners.entries.Keys + Tables.UsedIn(Affinity.UsesOf(Affinity.HeadersOf(packets)))| <= s.owners.max
    requires net.Valid() && net.offloads > 0 && net.workers == c.topology.count
    requires var input := InputOf(Router.RoutesOf(c, s, packets), chunks);
             && IsComplete(net, input, actions)
             && forall n :: 0 <= n < net.workers ==>
                  |Placement.FlowsOf(Delivery.ChunksFor(input, n))| <= net.rules.capacity
    ensures var input := InputOf(Router.RoutesOf(c, s, packets), chunks);
            var end := Net.After(net, Net.Start(net, input), actions);
            OnOneNode(net, input, end, Affinity.HomeOf(c, s, packets, Owners.Key(flow, false)), flow)
  {
    hide Router.Sane, Router.RoutesOf, Affinity.HomeOf, Affinity.ComesBack, Net.Start, Net.After, IsComplete,
         Placement.FlowsOf, Placement.NeverLate, Placement.RoomAgrees, Placement.OneSided, Placement.OfFlow,
         Delivery.ChunksFor, Affinity.UsesOf, Tables.UsedIn;
    var key := Owners.Key(flow, false);
    Affinity.FewFlowsStayOwned(c, s, packets, key);
    RoutedFlowOnOneNode(c, s, packets, chunks, net, actions, flow);
    Affinity.OwnerIsConstant(c, s, packets, key);
    var home := Affinity.HomeOf(c, s, packets, key);
    var input := InputOf(Router.RoutesOf(c, s, packets), chunks);
    Placement.FewFlowsNeverLate(Delivery.ChunksFor(input, home), net.rules.capacity, flow);
  }
}
