/**
 Which flows stay on one shard: those of which no packet comes after the flow's
 owner entry was evicted. The order of the packets' flows alone decides it.
 */
module ShardAffinity {
  import opened Bytes
  import opened ShardTopology
  import opened ShardOwners
  import Tables = OldestFirst
  import opened ShardMetrics
  import opened ShardRouter

  // ---------------------------------------------------------------------
  // The queue of owners

  function UseOf(h: Headers): Option<Key> { if h.Flow? then Some(h.key) else None }

  function HeadersOf(packets: seq<Packet>): (headers: seq<Headers>)
    ensures |headers| == |packets|
    ensures forall i :: 0 <= i < |packets| ==> headers[i] == packets[i].headers
  {
    seq(|packets|, i requires 0 <= i < |packets| => packets[i].headers)
  }

  /** The flows of some packets in their order, which is all that the queue of owners depends on. */
  function UsesOf(headers: seq<Headers>): (r: seq<Option<Key>>)
    ensures |r| == |headers|
  {
    seq(|headers|, i requires 0 <= i < |headers| => UseOf(headers[i]))
  }

  /** Some packet of the flow, not its first, finds the flow's owner entry evicted. */
  predicate ComesBack(c: Config, s: State, headers: seq<Headers>, key: Key) {
    && !c.dump && c.topology.count > 1
    && Tables.ComesBack(s.owners.order, s.owners.max, UsesOf(headers), key, key in s.owners.entries)
  }

  lemma {:induction false} UsesFirst(packets: seq<Packet>)
    requires packets != []
    ensures HeadersOf(packets)[1..] == HeadersOf(packets[1..])
    ensures var uses := UsesOf(HeadersOf(packets));
            uses != [] && uses[0] == UseOf(packets[0].headers) && uses[1..] == UsesOf(HeadersOf(packets[1..]))
  {
    assert HeadersOf(packets)[1..] == HeadersOf(packets[1..]);
  }

  /** The router's queue of owners moves as the order of flows says, whatever the sizes, hashes and loads. */
  lemma QueueStep(c: Config, s: State, p: Packet)
    requires Sane(c, s) && !c.dump && c.topology.count > 1
    ensures var after := RoutePacket(c, s, p).1.owners;
            && after.order == Tables.NextQueue(s.owners.order, s.owners.max, UseOf(p.headers))
            && after.max == s.owners.max
  {
    hide Tables.Valid, Remember, ObserveRoute, Conserves, TrackOk, NewTopology, Topology.ShardFor, ChooseForNewFlow,
         ChooseForStripedFlow, OwnersOk;
    if p.headers.Flow? {
      Tables.QueueHolds(s.owners, p.headers.key);
      if p.headers.key !in s.owners.entries {
        RememberNew(s.owners, p.headers.key, ChooseForNewFlow(c, s.metrics, p.headers.key));
      }
    }
  }

  lemma {:induction false} QueueIs(c: Config, s: State, packets: seq<Packet>)
    requires Sane(c, s) && !c.dump && c.topology.count > 1
    ensures var after := AfterAll(c, s, packets).owners;
            && after.order == Tables.QueueAfter(s.owners.order, s.owners.max, UsesOf(HeadersOf(packets)))
            && after.max == s.owners.max
    decreases |packets|
  {
    if packets != [] {
      hide RoutePacket, Sane, UsesOf, HeadersOf, Tables.NextQueue;
      SaneParts(c, s);
      PacketKeeps(c, s, packets[0]);
      QueueStep(c, s, packets[0]);
      UsesFirst(packets);
      QueueIs(c, RoutePacket(c, s, packets[0]).1, packets[1..]);
    }
  }

  // ---------------------------------------------------------------------
  // One packet

  /** The shard a flow gets: its owner, or the one chosen when its first packet installs it. */
  function HomeOf(c: Config, s: State, packets: seq<Packet>, key: Key): nat
    requires Sane(c, s)
    decreases |packets|
  {
    if c.dump || c.topology.count <= 1 then 0
    else if key in s.owners.entries then s.owners.entries[key].shard
    else if packets == [] then 0
    else if packets[0].headers == Flow(key) then ChooseForNewFlow(c, s.metrics, key)
    else
      PacketKeeps(c, s, packets[0]);
      HomeOf(c, RoutePacket(c, s, packets[0]).1, packets[1..], key)
  }

  /** A packet of the flow names its owner, and goes there unless the flow is striped, as only UDP flows are. */
  predicate KeepsTo(route: Route, p: Packet, key: Key, home: nat) {
    p.headers == Flow(key) ==>
      route.ownerShard == home && (!route.kind.StripedFlow? || !key.udp ==> route.shard == home)
  }

  /** One packet, seen from a flow that has an entry before or after it. */
  lemma OwnerStep(c: Config, s: State, p: Packet, key: Key)
    requires Sane(c, s) && (key in s.owners.entries ==> key in RoutePacket(c, s, p).1.owners.entries)
    ensures var (route, after) := RoutePacket(c, s, p);
            var home := HomeOf(c, s, [p], key);
            && home < c.topology.count && KeepsTo(route, p, key, home)
            && (c.dump || c.topology.count <= 1 ==> after.owners == s.owners && !route.kind.StripedFlow?)
            && (!c.dump && c.topology.count > 1 ==>
                  && (key in after.owners.entries <==> key in s.owners.entries || p.headers == Flow(key))
                  && (key in after.owners.entries ==> after.owners.entries[key].shard == home)
                  && (key in s.owners.entries && s.owners.entries[key].striped ==> after.owners.entries[key].striped)
                  && (p.headers == Flow(key) ==> (route.kind.StripedFlow? <==> after.owners.entries[key].striped)))
  {
    hide Tables.Valid, Routed, ObserveRoute, Conserves, TrackOk, NewTopology, Topology.ShardFor, ChooseForNewFlow;
    NewFlowExists(c, s.metrics, key);
    if p.headers.Flow? {
      RoutedIsOk(c, s, p.headers.key, p.bytes);
      RoutedFlow(c, s, p.headers.key, p.bytes);
      if p.headers.key !in s.owners.entries {
        RoutedInstalls(c, s, p.headers.key, p.bytes);
      }
    }
  }

  lemma NewFlowExists(c: Config, m: Metrics, key: Key)
    requires c.Valid()
    ensures ChooseForNewFlow(c, m, key) < c.topology.count
  {
    hide ChooseForNewFlow, NewTopology;
    NewFlowGoesToTheLighter(c, m, key);
  }

  /** The packet that installs a flow's entry is routed by it. */
  lemma RoutedInstalls(c: Config, s: State, key: Key, bytes: nat)
    requires c.Valid() && Tables.Valid(s.owners) && key !in s.owners.entries
    ensures Routed(c, s, key, bytes).0.ownerShard == ChooseForNewFlow(c, s.metrics, key)
  {
    hide Tables.Valid, Remember, ChooseForNewFlow, ChooseForStripedFlow, NewTopology;
    RememberNew(s.owners, key, ChooseForNewFlow(c, s.metrics, key));
  }

  lemma {:induction false} HomeStays(c: Config, s: State, packets: seq<Packet>, key: Key)
    requires Sane(c, s) && packets != []
    requires key in s.owners.entries ==> key in RoutePacket(c, s, packets[0]).1.owners.entries
    ensures var after := RoutePacket(c, s, packets[0]).1;
            Sane(c, after) && HomeOf(c, s, packets, key) == HomeOf(c, after, packets[1..], key)
    ensures packets[0].headers == Flow(key) ==> HomeOf(c, s, packets, key) == HomeOf(c, s, [packets[0]], key)
  {
    hide RoutePacket, Sane, ChooseForNewFlow;
    PacketKeeps(c, s, packets[0]);
    OwnerStep(c, s, packets[0], key);
  }

  lemma OwnersUntouched(c: Config, s: State, p: Packet)
    requires Sane(c, s) && (c.dump || c.topology.count <= 1)
    ensures RoutePacket(c, s, p).1.owners == s.owners && !RoutePacket(c, s, p).0.kind.StripedFlow?
  {
    hide Tables.Valid, Routed, ObserveRoute, Conserves, TrackOk, NewTopology, Topology.ShardFor;
  }

  lemma KeyStep(c: Config, s: State, p: Packet, key: Key)
    requires Sane(c, s) && !c.dump && c.topology.count > 1
    ensures var after := RoutePacket(c, s, p).1;
            && (key in after.owners.entries ==> key in s.owners.entries || p.headers == Flow(key))
            && (p.headers == Flow(key) ==> key in after.owners.entries)
  {
    hide Tables.Valid, Routed, ObserveRoute, Conserves, TrackOk, NewTopology, Topology.ShardFor;
    if p.headers.Flow? {
      RoutedIsOk(c, s, p.headers.key, p.bytes);
    }
  }

  lemma {:induction false} GoneForGood(c: Config, s: State, packets: seq<Packet>, key: Key)
    requires Sane(c, s) && !c.dump && c.topology.count > 1 && packets != [] && !ComesBack(c, s, HeadersOf(packets), key)
    requires key in s.owners.entries && key !in RoutePacket(c, s, packets[0]).1.owners.entries
    ensures forall i :: 0 <= i < |packets| ==> packets[i].headers != Flow(key)
    ensures key !in AfterAll(c, s, packets).owners.entries
  {
    hide RoutePacket, Sane, Tables.NextQueue;
    SaneParts(c, s);
    PacketKeeps(c, s, packets[0]);
    var after, rest := RoutePacket(c, s, packets[0]).1, packets[1..];
    SaneParts(c, after);
    Tables.QueueHolds(after.owners, key);
    UsesFirst(packets);
    QueueStep(c, s, packets[0]);
    KeyStep(c, s, packets[0], key);
    Tables.DroppedForGood(after.owners.order, after.owners.max, UsesOf(HeadersOf(rest)), key);
    QueueIs(c, after, rest);
    SaneParts(c, AfterAll(c, after, rest));
    Tables.QueueHolds(AfterAll(c, after, rest).owners, key);
    forall i | 0 <= i < |packets|
      ensures packets[i].headers != Flow(key)
    {
      if i > 0 {
        assert packets[i] == rest[i - 1] && UsesOf(HeadersOf(rest))[i - 1] != Some(key);
      }
    }
  }

  /**
   One packet of a run in which the flow does not come back: the flow keeps its
   entry and does not come back in what follows, or no packet of it is left.
   */
  lemma {:induction false} StepAhead(c: Config, s: State, packets: seq<Packet>, key: Key)
    requires Sane(c, s) && packets != [] && !ComesBack(c, s, HeadersOf(packets), key)
    ensures var after := RoutePacket(c, s, packets[0]).1;
            if key in s.owners.entries && key !in after.owners.entries then
              && (forall i :: 0 <= i < |packets| ==> packets[i].headers != Flow(key))
              && Sane(c, after) && key !in AfterAll(c, s, packets).owners.entries
            else !ComesBack(c, after, HeadersOf(packets[1..]), key)
  {
    hide RoutePacket, Sane, UsesOf, HeadersOf, Tables.NextQueue, AfterAll;
    SaneParts(c, s);
    PacketKeeps(c, s, packets[0]);
    var after := RoutePacket(c, s, packets[0]).1;
    SaneParts(c, after);
    Tables.QueueHolds(after.owners, key);
    UsesFirst(packets);
    if c.dump || c.topology.count <= 1 {
      OwnersUntouched(c, s, packets[0]);
    } else {
      QueueStep(c, s, packets[0]);
      KeyStep(c, s, packets[0], key);
      if key in s.owners.entries && key !in after.owners.entries {
        GoneForGood(c, s, packets, key);
      }
    }
  }

  // ---------------------------------------------------------------------
  // Runs

  /**
   Unless the flow comes back after its entry was evicted: every packet of the flow,
   the first one included, names one owner; all go there for a TCP flow, and until
   it is striped for a UDP flow. It makes no difference when the entry is evicted
   after the flow's last packet.
   */
  lemma {:induction false} OwnerIsConstant(c: Config, s: State, packets: seq<Packet>, key: Key)
    requires Sane(c, s) && !ComesBack(c, s, HeadersOf(packets), key)
    ensures var home := HomeOf(c, s, packets, key);
            var owners := AfterAll(c, s, packets).owners.entries;
            && home < c.topology.count
            && (key in owners && !c.dump && c.topology.count > 1 ==> owners[key].shard == home)
            && forall i :: 0 <= i < |packets| ==> KeepsTo(RoutesOf(c, s, packets)[i], packets[i], key, home)
    decreases |packets|
  {
    hide RoutePacket, Sane, KeepsTo, ComesBack;
    HomeExists(c, s, packets, key);
    if packets != [] {
      SaneParts(c, s);
      PacketKeeps(c, s, packets[0]);
      var after := RoutePacket(c, s, packets[0]).1;
      var routes := RoutesOf(c, s, packets);
      StepAhead(c, s, packets, key);
      if key in s.owners.entries && key !in after.owners.entries {
        forall i | 0 <= i < |packets|
          ensures KeepsTo(routes[i], packets[i], key, HomeOf(c, s, packets, key))
        {
          KeepsNothing(routes[i], packets[i], key, HomeOf(c, s, packets, key));
        }
      } else {
        OwnerStep(c, s, packets[0], key);
        OwnerIsConstant(c, after, packets[1..], key);
        HomeStays(c, s, packets, key);
        KeepsNothing(routes[0], packets[0], key, HomeOf(c, s, packets, key));
        forall i | 0 <= i < |packets|
          ensures KeepsTo(routes[i], packets[i], key, HomeOf(c, s, packets, key))
        {
          if i > 0 {
            assert routes[i] == RoutesOf(c, after, packets[1..])[i - 1] && packets[i] == packets[1..][i - 1];
          }
        }
      }
    }
  }

  lemma KeepsNothing(route: Route, p: Packet, key: Key, home: nat)
    ensures p.headers != Flow(key) ==> KeepsTo(route, p, key, home)
  {
  }

  lemma {:induction false} HomeExists(c: Config, s: State, packets: seq<Packet>, key: Key)
    requires Sane(c, s)
    ensures HomeOf(c, s, packets, key) < c.topology.count
    ensures packets == [] && key in s.owners.entries && !c.dump && c.topology.count > 1 ==>
              s.owners.entries[key].shard == HomeOf(c, s, packets, key)
    decreases |packets|
  {
    hide RoutePacket, Tables.Valid, Conserves, TrackOk, NewTopology, ChooseForNewFlow;
    NewFlowExists(c, s.metrics, key);
    if packets != [] {
      PacketKeeps(c, s, packets[0]);
      HomeExists(c, RoutePacket(c, s, packets[0]).1, packets[1..], key);
    }
  }

  /** Striping once begun goes on: no later packet of a flow that does not come back is sent by affinity again. */
  lemma {:induction false} StripingGoesOn(c: Config, s: State, packets: seq<Packet>, key: Key, i: nat, j: nat)
    requires Sane(c, s) && !ComesBack(c, s, HeadersOf(packets), key) && i < j < |packets|
    requires packets[i].headers == packets[j].headers == Flow(key) && RoutesOf(c, s, packets)[i].kind.StripedFlow?
    ensures RoutesOf(c, s, packets)[j].kind.StripedFlow?
    decreases |packets|
  {
    hide RoutePacket, Sane, ComesBack;
    SaneParts(c, s);
    PacketKeeps(c, s, packets[0]);
    StepAhead(c, s, packets, key);
    var after := RoutePacket(c, s, packets[0]).1;
    OwnerStep(c, s, packets[0], key);
    if i > 0 {
      StripingGoesOn(c, after, packets[1..], key, i - 1, j - 1);
    } else {
      StripedStays(c, after, packets[1..], key, j - 1);
    }
  }

  lemma {:induction false} StripedStays(c: Config, s: State, packets: seq<Packet>, key: Key, j: nat)
    requires Sane(c, s) && !ComesBack(c, s, HeadersOf(packets), key) && !c.dump && c.topology.count > 1
    requires key in s.owners.entries && s.owners.entries[key].striped
    requires j < |packets| && packets[j].headers == Flow(key)
    ensures RoutesOf(c, s, packets)[j].kind.StripedFlow?
    decreases |packets|
  {
    hide RoutePacket, Sane, ComesBack;
    SaneParts(c, s);
    PacketKeeps(c, s, packets[0]);
    StepAhead(c, s, packets, key);
    OwnerStep(c, s, packets[0], key);
    if j > 0 {
      StripedStays(c, RoutePacket(c, s, packets[0]).1, packets[1..], key, j - 1);
    }
  }

  /** While the owner table has room for all flows there are, no owner is evicted and so no flow comes back. */
  lemma {:induction false} FewFlowsStayOwned(c: Config, s: State, packets: seq<Packet>, key: Key)
    requires Sane(c, s) && |s.owners.entries.Keys + Tables.UsedIn(UsesOf(HeadersOf(packets)))| <= s.owners.max
    ensures s.owners.order <= AfterAll(c, s, packets).owners.order && !ComesBack(c, s, HeadersOf(packets), key)
  {
    hide Sane, AfterAll, Tables.Distinct, Tables.Listed, Tables.UsedIn, UsesOf;
    SaneParts(c, s);
    Tables.QueueHolds(s.owners, key);
    if c.dump || c.topology.count <= 1 {
      AllUntouched(c, s, packets);
    } else {
      Tables.FewKeysStay(s.owners.order, s.owners.max, UsesOf(HeadersOf(packets)), key, key in s.owners.entries);
      QueueIs(c, s, packets);
    }
  }

  lemma {:induction false} AllUntouched(c: Config, s: State, packets: seq<Packet>)
    requires Sane(c, s) && (c.dump || c.topology.count <= 1)
    ensures AfterAll(c, s, packets).owners == s.owners
    decreases |packets|
  {
    if packets != [] {
      hide RoutePacket, Sane;
      SaneParts(c, s);
      PacketKeeps(c, s, packets[0]);
      OwnersUntouched(c, s, packets[0]);
      AllUntouched(c, RoutePacket(c, s, packets[0]).1, packets[1..]);
    }
  }

  /** So none comes back in any run of a new router that sees no more flows than it has room for. */
  lemma {:induction false} NewRouterKeepsOwners(c: Config, maxOwners: nat, packets: seq<Packet>, key: Key)
    requires c.Valid() && |Tables.UsedIn(UsesOf(HeadersOf(packets)))| <= Max(maxOwners, 1)
    ensures !ComesBack(c, NewState(c, maxOwners), HeadersOf(packets), key)
  {
    hide ComesBack, Sane, UsesOf, Tables.UsedIn;
    var s := NewState(c, maxOwners);
    assert s.owners.entries.Keys + Tables.UsedIn(UsesOf(HeadersOf(packets))) == Tables.UsedIn(UsesOf(HeadersOf(packets)));
    FewFlowsStayOwned(c, s, packets, key);
  }

  // ---------------------------------------------------------------------
  // Flows that come back

  /** A new TCP flow in a table with room for one. */
  lemma OnlyFlow(c: Config, s: State, key: Key, bytes: nat)
    requires Sane(c, s) && !c.dump && c.topology.count > 1 && s.owners.max == 1
    requires key !in s.owners.entries && !key.udp
    ensures var (route, after) := RoutePacket(c, s, Packet(Flow(key), bytes));
            && Sane(c, after) && after.owners.max == 1 && after.owners.entries.Keys == {key}
            && route.shard == ChooseForNewFlow(c, s.metrics, key) < |s.metrics.shards| == |after.metrics.shards|
            && forall i :: 0 <= i < |s.metrics.shards| ==>
                 after.metrics.shards[i].bytes == s.metrics.shards[i].bytes + if i == route.shard then bytes else 0
  {
    hide Tables.Valid, Remember, ObserveRoute, Conserves, TrackOk, NewTopology, Topology.ShardFor, ChooseForNewFlow,
         OwnersOk, ChooseForStripedFlow;
    var p := Packet(Flow(key), bytes);
    PacketKeeps(c, s, p);
    NewFlowExists(c, s.metrics, key);
    RememberNew(s.owners, key, ChooseForNewFlow(c, s.metrics, key));
    OnlyKey(s.owners);
    ShardBytes(s.metrics, RoutePacket(c, s, p).0, bytes);
  }

  lemma OnlyKey(t: Table)
    requires Tables.Valid(t) && t.max == 1
    ensures if |t.order| == 1 then t.entries.Keys == {t.order[0]} else t.entries == map[]
  {
    assert |t.order| == 0 ==> t.order == [];
  }

  lemma {:induction false} NoneListed(queue: seq<Key>)
    ensures Tables.Listed(queue) == {} ==> queue == []
  {
    assert queue != [] ==> queue[0] in Tables.Listed(queue);
  }

  /** In a queue with room for one, a key comes back after any other. */
  lemma {:induction false} TakingTurns(queue: seq<Key>, a: Key, b: Key)
    requires a != b && queue == []
    ensures Tables.ComesBack(queue, 1, [Some(a), Some(b), Some(a)], a, false)
  {
    var uses := [Some(a), Some(b), Some(a)];
    assert uses[1..] == [Some(b), Some(a)] && uses[1..][1..] == [Some(a)];
    assert Tables.NextQueue([], 1, Some(a)) == [a] && Tables.NextQueue([a], 1, Some(b)) == [b];
  }

  /**
   A TCP flow that loses its entry can move: from any state with room for one entry,
   none installed and two evenly loaded shards, the second packet of the first flow
   finds the other of its two shards lighter.
   */
  lemma EvictionMovesAFlow(c: Config, s: State, a: Key, b: Key)
    requires Sane(c, s) && !c.dump && c.topology.count == 2 && a != b && !a.udp && !b.udp
    requires s.owners.max == 1 && s.owners.entries == map[] && s.metrics.shards[0] == s.metrics.shards[1]
    requires c.hashes.primary(a) % 2 == 0 && c.hashes.secondary(a) % 2 == 1 && c.hashes.primary(b) % 2 == 1
    ensures var packets := [Packet(Flow(a), 5), Packet(Flow(b), 3), Packet(Flow(a), 5)];
            && ComesBack(c, s, HeadersOf(packets), a)
            && RoutesOf(c, s, packets)[0].shard == 0 && RoutesOf(c, s, packets)[2].shard == 1
  {
    hide *;
    var p0, p1 := Packet(Flow(a), 5), Packet(Flow(b), 3);
    SaneParts(c, s);
    Tables.QueueHolds(s.owners, a);
    NoneListed(s.owners.order);
    TakingTurns(s.owners.order, a, b);
    TurnsAreUses(c, s, p0, p1, a, b);
    TwoLoads(c, s);
    NewFlowGoesToTheLighter(c, s.metrics, a);
    OnlyFlow(c, s, a, 5);
    var s1 := RoutePacket(c, s, p0).1;
    SaneParts(c, s1);
    TwoLoads(c, s1);
    NewFlowGoesToTheLighter(c, s1.metrics, b);
    OnlyFlow(c, s1, b, 3);
    var s2 := RoutePacket(c, s1, p1).1;
    SaneParts(c, s2);
    TwoLoads(c, s2);
    NewFlowGoesToTheLighter(c, s2.metrics, a);
    OnlyFlow(c, s2, a, 5);
    assert [p0, p1, p0][1..] == [p1, p0] && [p1, p0][1..] == [p0];
    RoutesFirst(c, s, [p0, p1, p0]);
    RoutesFirst(c, s1, [p1, p0]);
    RoutesFirst(c, s2, [p0]);
  }

  lemma TurnsAreUses(c: Config, s: State, p0: Packet, p1: Packet, a: Key, b: Key)
    requires p0.headers == Flow(a) && p1.headers == Flow(b) && !c.dump && c.topology.count > 1
    requires s.owners.max == 1 && a !in s.owners.entries
    requires Tables.ComesBack(s.owners.order, 1, [Some(a), Some(b), Some(a)], a, false)
    ensures ComesBack(c, s, HeadersOf([p0, p1, p0]), a)
  {
    hide Tables.ComesBack;
    assert UsesOf(HeadersOf([p0, p1, p0])) == [Some(a), Some(b), Some(a)];
  }

  /** Which of two shards is lighter, from their bytes. */
  lemma TwoLoads(c: Config, s: State)
    requires Sane(c, s) && c.topology.count == 2
    ensures |s.metrics.shards| == 2
    ensures var x, y := LoadOf(s.metrics, 0), LoadOf(s.metrics, 1);
            && x == s.metrics.shards[0] && y == s.metrics.shards[1]
            && (x.bytes < y.bytes ==> Lighter(x, y)) && (y.bytes < x.bytes ==> Lighter(y, x)) && (x == y ==> !Lighter(y, x))
  {
    hide Tables.Valid, Conserves, TrackOk, NewTopology, OwnersOk;
  }

  /** Packets with these headers, of which only the flow's first has a byte in it. */
  function Probe(headers: seq<Headers>, key: Key): (packets: seq<Packet>)
    ensures HeadersOf(packets) == headers
  {
    if headers == [] then []
    else if headers[0] == Flow(key) then [Packet(headers[0], 1)] + Empties(headers[1..])
    else [Packet(headers[0], 0)] + Probe(headers[1..], key)
  }

  function Empties(headers: seq<Headers>): (packets: seq<Packet>)
    ensures HeadersOf(packets) == headers
  {
    if headers == [] then [] else [Packet(headers[0], 0)] + Empties(headers[1..])
  }

  /** The two shards that a new flow is given one of. */
  function FirstShardOf(c: Config, key: Key): nat
    requires c.topology.count > 0
  {
    c.hashes.primary(key) % c.topology.count
  }

  function SecondShardOf(c: Config, key: Key): nat
    requires c.topology.count > 0
  {
    c.hashes.secondary(key) % c.topology.count
  }

  /** What a packet does to the bytes of the shards. */
  lemma PacketBytes(c: Config, s: State, p: Packet)
    requires Sane(c, s)
    ensures var (route, after) := RoutePacket(c, s, p);
            && Sane(c, after) && |after.metrics.shards| == |s.metrics.shards| == c.topology.count
            && forall i :: 0 <= i < |s.metrics.shards| ==>
                 after.metrics.shards[i].bytes == s.metrics.shards[i].bytes + if i == route.shard then p.bytes else 0
  {
    hide Tables.Valid, Routed, ObserveRoute, Conserves, TrackOk, NewTopology, Topology.ShardFor, OwnersOk;
    PacketKeeps(c, s, p);
    ShardBytes(s.metrics, RoutePacket(c, s, p).0, p.bytes);
  }

  /** The packet that installs a TCP flow goes to the lighter of its two shards. */
  lemma InstalledOn(c: Config, s: State, key: Key, bytes: nat)
    requires Sane(c, s) && !c.dump && c.topology.count > 1 && key !in s.owners.entries && !key.udp
    ensures RoutePacket(c, s, Packet(Flow(key), bytes)).0.shard == ChooseForNewFlow(c, s.metrics, key)
  {
    hide RoutePacket, Sane, ChooseForNewFlow;
    var p := Packet(Flow(key), bytes);
    OwnerStep(c, s, p, key);
    assert [p][0] == p;
  }

  /**
   With one of a flow's two shards heavier than the other and no more bytes to come,
   the packet with which the flow comes back goes to the other.
   */
  lemma {:induction false} GoesToTheOther(
    c: Config, s: State, headers: seq<Headers>, key: Key, heavy: nat, light: nat) returns (j: nat)
    requires Sane(c, s) && !c.dump && c.topology.count > 1 && !key.udp
    requires {heavy, light} == {FirstShardOf(c, key), SecondShardOf(c, key)}
    requires heavy < |s.metrics.shards| && light < |s.metrics.shards|
    requires s.metrics.shards[heavy].bytes > s.metrics.shards[light].bytes
    requires Tables.ComesBack(s.owners.order, s.owners.max, UsesOf(headers), key, true)
    ensures j < |headers| && headers[j] == Flow(key) && RoutesOf(c, s, Empties(headers))[j].shard == light
    decreases |headers|
  {
    hide RoutePacket, Sane, Tables.NextQueue, ChooseForNewFlow, UsesOf;
    var packets := Empties(headers);
    UsesFirst(packets);
    SaneParts(c, s);
    Tables.QueueHolds(s.owners, key);
    PacketKeeps(c, s, packets[0]);
    if headers[0] == Flow(key) && key !in s.owners.entries {
      InstalledOn(c, s, key, 0);
      NewFlowGoesToTheLighter(c, s.metrics, key);
      return 0;
    }
    QueueStep(c, s, packets[0]);
    PacketBytes(c, s, packets[0]);
    var later := GoesToTheOther(c, RoutePacket(c, s, packets[0]).1, headers[1..], key, heavy, light);
    return later + 1;
  }

  /**
   A TCP flow that comes back can move: for any order of packets in which it does,
   and any hashes that give it two different shards, as many bytes being on one as on
   the other, two of its packets go to different shards when its first packet has one
   byte and all others are empty.
   */
  lemma {:induction false} ComingBackMoves(c: Config, s: State, headers: seq<Headers>, key: Key) returns (i: nat, j: nat)
    requires Sane(c, s) && !key.udp && key !in s.owners.entries && ComesBack(c, s, headers, key)
    requires FirstShardOf(c, key) != SecondShardOf(c, key)
    requires LoadOf(s.metrics, FirstShardOf(c, key)).bytes == LoadOf(s.metrics, SecondShardOf(c, key)).bytes
    ensures i < j < |headers| && headers[i] == headers[j] == Flow(key)
    ensures RoutesOf(c, s, Probe(headers, key))[i].shard != RoutesOf(c, s, Probe(headers, key))[j].shard
    decreases |headers|
  {
    hide *;
    var packets := Probe(headers, key);
    BackStep(c, s, packets, key);
    ProbeFirst(headers, key);
    SaneParts(c, s);
    PacketBytes(c, s, packets[0]);
    ShardsOfFlow(c, s.metrics, key);
    var after := RoutePacket(c, s, packets[0]).1;
    LoadBytes(s.metrics, FirstShardOf(c, key));
    LoadBytes(s.metrics, SecondShardOf(c, key));
    LoadBytes(after.metrics, FirstShardOf(c, key));
    LoadBytes(after.metrics, SecondShardOf(c, key));
    if headers[0] == Flow(key) {
      InstalledOn(c, s, key, 1);
      var heavy := RoutePacket(c, s, packets[0]).0.shard;
      var light := if heavy == FirstShardOf(c, key) then SecondShardOf(c, key) else FirstShardOf(c, key);
      var later := GoesToTheOther(c, after, headers[1..], key, heavy, light);
      i, j := 0, later + 1;
      RoutesFirst(c, s, packets);
    } else {
      i, j := ComingBackMoves(c, after, headers[1..], key);
      i, j := i + 1, j + 1;
      RoutesFirst(c, s, packets);
    }
  }

  /** The first packet of an order in which a new flow comes back, and what is left of it. */
  lemma {:induction false} BackStep(c: Config, s: State, packets: seq<Packet>, key: Key)
    requires Sane(c, s) && key !in s.owners.entries && ComesBack(c, s, HeadersOf(packets), key)
    ensures packets != [] && !c.dump && c.topology.count > 1
    ensures var after := RoutePacket(c, s, packets[0]).1;
            && Tables.ComesBack(after.owners.order, after.owners.max, UsesOf(HeadersOf(packets[1..])), key,
                                packets[0].headers == Flow(key))
            && (packets[0].headers != Flow(key) ==>
                  key !in after.owners.entries && ComesBack(c, after, HeadersOf(packets[1..]), key))
  {
    hide RoutePacket, Sane, Tables.NextQueue, UsesOf, HeadersOf;
    SaneParts(c, s);
    NoUses(packets);
    UsesFirst(packets);
    QueueStep(c, s, packets[0]);
    KeyStep(c, s, packets[0], key);
  }

  lemma {:induction false} NoUses(packets: seq<Packet>)
    ensures UsesOf(HeadersOf(packets)) != [] ==> packets != []
  {
  }

  lemma {:induction false} ProbeFirst(headers: seq<Headers>, key: Key)
    requires headers != []
    ensures var packets := Probe(headers, key);
            && packets != [] && HeadersOf(packets) == headers
            && packets[0] == Packet(headers[0], if headers[0] == Flow(key) then 1 else 0)
            && packets[1..] == (if headers[0] == Flow(key) then Empties(headers[1..]) else Probe(headers[1..], key))
            && HeadersOf(packets[1..]) == headers[1..] && |packets| == |headers|
  {
  }

  lemma LoadBytes(m: Metrics, shard: nat)
    requires shard < |m.shards|
    ensures LoadOf(m, shard).bytes == m.shards[shard].bytes
  {
  }

  lemma {:induction false} RoutesFirst(c: Config, s: State, packets: seq<Packet>)
    requires Sane(c, s) && packets != []
    ensures var (route, after) := RoutePacket(c, s, packets[0]);
            && Sane(c, after) && RoutesOf(c, s, packets)[0] == route
            && forall k :: 0 < k < |packets| ==> RoutesOf(c, s, packets)[k] == RoutesOf(c, after, packets[1..])[k - 1]
  {
    hide RoutePacket, Sane;
    PacketKeeps(c, s, packets[0]);
  }

  lemma ShardsOfFlow(c: Config, m: Metrics, key: Key)
    requires c.Valid()
    ensures FirstShardOf(c, key) < c.topology.count && SecondShardOf(c, key) < c.topology.count
    ensures ChooseForNewFlow(c, m, key) in {FirstShardOf(c, key), SecondShardOf(c, key)}
  {
    hide ChooseForNewFlow, NewTopology;
    NewFlowGoesToTheLighter(c, m, key);
  }

  /** All packets of the flow go to one shard. */
  predicate StaysPut(c: Config, s: State, packets: seq<Packet>, key: Key)
    requires Sane(c, s)
  {
    forall i, j :: 0 <= i < j < |packets| && packets[i].headers == packets[j].headers == Flow(key) ==>
      RoutesOf(c, s, packets)[i].shard == RoutesOf(c, s, packets)[j].shard
  }

  /**
   A new TCP flow stays on one shard whatever the packets' sizes and the hashes are,
   if and only if no packet of it comes after its entry was evicted.
   */
  lemma {:induction false} StaysPutExactly(c: Config, s: State, headers: seq<Headers>, key: Key)
    requires Sane(c, s) && !key.udp && key !in s.owners.entries
    requires c.topology.count > 1 ==> s.metrics.shards[0].bytes == s.metrics.shards[1].bytes
    ensures !ComesBack(c, s, headers, key)
            <==> forall packets: seq<Packet>, hashes: Hashes ::
                   HeadersOf(packets) == headers && Sane(c.(hashes := hashes), s) ==>
                     StaysPut(c.(hashes := hashes), s, packets, key)
  {
    hide *;
    if ComesBack(c, s, headers, key) {
      var hashes := c.hashes.(primary := _ => 0, secondary := _ => 1);
      var other := c.(hashes := hashes);
      OtherHashes(c, s, headers, key, hashes);
      TwoShards(other, key);
      LoadBytes(s.metrics, 0);
      LoadBytes(s.metrics, 1);
      var i, j := ComingBackMoves(other, s, headers, key);
      MovesAway(other, s, Probe(headers, key), key, i, j);
    } else {
      forall packets: seq<Packet>, hashes: Hashes | HeadersOf(packets) == headers && Sane(c.(hashes := hashes), s)
        ensures StaysPut(c.(hashes := hashes), s, packets, key)
      {
        OtherHashes(c, s, headers, key, hashes);
        NeverMoves(c.(hashes := hashes), s, packets, key);
      }
    }
  }

  lemma TwoShards(c: Config, key: Key)
    requires c.topology.count > 1 && c.hashes.primary(key) == 0 && c.hashes.secondary(key) == 1
    ensures FirstShardOf(c, key) == 0 && SecondShardOf(c, key) == 1
  {
  }

  lemma {:induction false} OtherHashes(c: Config, s: State, headers: seq<Headers>, key: Key, hashes: Hashes)
    requires Sane(c, s)
    ensures Sane(c.(hashes := hashes), s) && c.Valid() && |s.metrics.shards| == c.topology.count
    ensures ComesBack(c.(hashes := hashes), s, headers, key) <==> ComesBack(c, s, headers, key)
    ensures ComesBack(c, s, headers, key) ==> c.topology.count > 1
  {
    hide Tables.Valid, Conserves, TrackOk, NewTopology, UsesOf, Tables.ComesBack;
  }

  lemma {:induction false} MovesAway(c: Config, s: State, packets: seq<Packet>, key: Key, i: nat, j: nat)
    requires Sane(c, s) && i < j < |packets| && packets[i].headers == packets[j].headers == Flow(key)
    requires RoutesOf(c, s, packets)[i].shard != RoutesOf(c, s, packets)[j].shard
    ensures !StaysPut(c, s, packets, key)
  {
    hide Sane, RoutesOf;
  }

  lemma {:induction false} NeverMoves(c: Config, s: State, packets: seq<Packet>, key: Key)
    requires Sane(c, s) && !key.udp && !ComesBack(c, s, HeadersOf(packets), key)
    ensures StaysPut(c, s, packets, key)
  {
    hide Sane, RoutesOf, ComesBack;
    OwnerIsConstant(c, s, packets, key);
    var home := HomeOf(c, s, packets, key);
    assert forall i :: 0 <= i < |packets| ==> KeepsTo(RoutesOf(c, s, packets)[i], packets[i], key, home);
  }

  /** So it is for every flow of a new router. */
  lemma {:induction false} NewFlowsStayPutExactly(c: Config, maxOwners: nat, headers: seq<Headers>, key: Key)
    requires c.Valid() && !key.udp
    ensures !ComesBack(c, NewState(c, maxOwners), headers, key)
            <==> forall packets: seq<Packet>, hashes: Hashes ::
                   HeadersOf(packets) == headers && Sane(c.(hashes := hashes), NewState(c, maxOwners)) ==>
                     StaysPut(c.(hashes := hashes), NewState(c, maxOwners), packets, key)
  {
    hide *;
    var s := NewState(c, maxOwners);
    NewIsEmpty(c, maxOwners);
    StaysPutExactly(c, s, headers, key);
  }

  lemma NewIsEmpty(c: Config, maxOwners: nat)
    requires c.Valid()
    ensures var s := NewState(c, maxOwners);
            && s.owners.entries == map[] && |s.metrics.shards| == c.topology.count
            && (c.topology.count > 1 ==> s.metrics.shards[0] == s.metrics.shards[1])
  {
    hide Conserves, TrackOk, Tables.Valid, NewTopology, NoLoads;
    NoLoadsAreEqual(Max(c.topology.count, 1));
  }

  lemma {:induction false} NoLoadsAreEqual(n: nat)
    ensures forall i :: 0 <= i < n ==> NoLoads(n)[i] == NO_LOAD
  {
    if n > 0 {
      NoLoadsAreEqual(n - 1);
    }
  }
}
