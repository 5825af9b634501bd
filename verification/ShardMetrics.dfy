/** What was routed where: totals, per shard, and per tracked flow. */
module ShardMetrics {
  import opened Bytes
  import opened OldestFirst
  import opened ShardOwners

  datatype Kind = FlowAffinity | StripedFlow | Fallback | SingleShard | Dump

  datatype Reason = UnsupportedLink | NonIp | Malformed | Fragmented | UnsupportedTransport

  datatype Route = Route(shard: nat, ownerShard: nat, kind: Kind, flow: Option<Key>, reason: Option<Reason>)

  /** The counters kept for each shard and for all of them together. */
  datatype Load = Load(
    packets: nat, bytes: nat, flowRouted: nat, striped: nat, fallback: nat,
    unsupportedLink: nat, nonIp: nat, malformed: nat, fragmented: nat, unsupportedTransport: nat,
    dump: nat, single: nat)
  {
    function Add(l: Load): Load {
      Load(packets + l.packets, bytes + l.bytes, flowRouted + l.flowRouted, striped + l.striped, fallback + l.fallback,
           unsupportedLink + l.unsupportedLink, nonIp + l.nonIp, malformed + l.malformed, fragmented + l.fragmented,
           unsupportedTransport + l.unsupportedTransport, dump + l.dump, single + l.single)
    }

    /** Every packet is of one kind, and every fallback has one reason. */
    predicate Splits() {
      && packets == flowRouted + fallback + single + dump
      && fallback == unsupportedLink + nonIp + malformed + fragmented + unsupportedTransport
      && striped <= flowRouted
    }
  }

  const NO_LOAD := Load(0, 0, 0, 0, 0, 0, 0, 0, 0, 0, 0, 0)

  function CountReason(l: Load, reason: Option<Reason>): Load {
    match if reason.None? then Malformed else reason.value
    case UnsupportedLink => l.(unsupportedLink := l.unsupportedLink + 1)
    case NonIp => l.(nonIp := l.nonIp + 1)
    case Malformed => l.(malformed := l.malformed + 1)
    case Fragmented => l.(fragmented := l.fragmented + 1)
    case UnsupportedTransport => l.(unsupportedTransport := l.unsupportedTransport + 1)
  }

  function Count(l: Load, kind: Kind, reason: Option<Reason>, bytes: nat): Load {
    var counted := l.(packets := l.packets + 1, bytes := l.bytes + bytes);
    match kind
    case FlowAffinity => counted.(flowRouted := l.flowRouted + 1)
    case StripedFlow => counted.(flowRouted := l.flowRouted + 1, striped := l.striped + 1)
    case Fallback => CountReason(counted.(fallback := l.fallback + 1), reason)
    case SingleShard => counted.(single := l.single + 1)
    case Dump => counted.(dump := l.dump + 1)
  }

  function Sum(loads: seq<Load>): Load {
    if loads == [] then NO_LOAD else Sum(loads[..|loads| - 1]).Add(loads[|loads| - 1])
  }

  /** What one flow sent to one shard. */
  datatype Part = Part(shard: nat, packets: nat, bytes: nat)

  datatype FlowLoad = FlowLoad(packets: nat, bytes: nat, striped: bool, parts: seq<Part>)

  const NEW_FLOW := FlowLoad(0, 0, false, [])

  function AddPart(parts: seq<Part>, shard: nat, bytes: nat): seq<Part> {
    if parts == [] then [Part(shard, 1, bytes)]
    else if parts[0].shard == shard
    then [Part(shard, parts[0].packets + 1, parts[0].bytes + bytes)] + parts[1..]
    else [parts[0]] + AddPart(parts[1..], shard, bytes)
  }

  function ObserveFlow(f: FlowLoad, shard: nat, bytes: nat, striped: bool): FlowLoad {
    FlowLoad(f.packets + 1, f.bytes + bytes, f.striped || striped, AddPart(f.parts, shard, bytes))
  }

  datatype Metrics = Metrics(
    total: Load, shards: seq<Load>, flows: map<Key, FlowLoad>, flowOrder: seq<Key>, maxFlows: nat)

  function NoLoads(n: nat): (r: seq<Load>)
    ensures |r| == n
  {
    if n == 0 then [] else NoLoads(n - 1) + [NO_LOAD]
  }

  const MAX_TRACKED_FLOWS: nat := 1_048_576

  function NewMetrics(shards: nat): Metrics {
    Metrics(NO_LOAD, NoLoads(Max(shards, 1)), map[], [], MAX_TRACKED_FLOWS)
  }

  function MakeRoom(m: Metrics): Metrics
    decreases |m.flowOrder|
  {
    if |m.flows| < m.maxFlows || m.flowOrder == [] then m
    else MakeRoom(m.(flows := m.flows - {m.flowOrder[0]}, flowOrder := m.flowOrder[1..]))
  }

  function TrackFlow(m: Metrics, key: Key, shard: nat, bytes: nat, striped: bool): Metrics {
    if key in m.flows then m.(flows := m.flows[key := ObserveFlow(m.flows[key], shard, bytes, striped)])
    else
      var room := MakeRoom(m);
      if |room.flows| >= room.maxFlows then room
      else room.(flows := room.flows[key := ObserveFlow(NEW_FLOW, shard, bytes, striped)], flowOrder := room.flowOrder + [key])
  }

  function ObserveRoute(m: Metrics, r: Route, bytes: nat): Metrics {
    var counted := m.(total := Count(m.total, r.kind, r.reason, bytes),
                      shards := if r.shard < |m.shards|
                                then m.shards[r.shard := Count(m.shards[r.shard], r.kind, r.reason, bytes)] else m.shards);
    if (r.kind.FlowAffinity? || r.kind.StripedFlow?) && r.flow.Some?
    then TrackFlow(counted, r.flow.value, r.shard, bytes, r.kind.StripedFlow?)
    else counted
  }

  // ---------------------------------------------------------------------
  // What they keep

  function PartPackets(parts: seq<Part>): nat {
    if parts == [] then 0 else parts[0].packets + PartPackets(parts[1..])
  }

  function PartBytes(parts: seq<Part>): nat {
    if parts == [] then 0 else parts[0].bytes + PartBytes(parts[1..])
  }

  function ShardsOf(parts: seq<Part>): set<nat> {
    if parts == [] then {} else {parts[0].shard} + ShardsOf(parts[1..])
  }

  predicate OncePerShard(parts: seq<Part>) {
    parts == [] || (parts[0].shard !in ShardsOf(parts[1..]) && OncePerShard(parts[1..]))
  }

  /** A flow's totals are the sums over its shards, each listed once. */
  predicate FlowAddsUp(f: FlowLoad) {
    f.packets == PartPackets(f.parts) && f.bytes == PartBytes(f.parts) && OncePerShard(f.parts)
  }

  predicate Conserves(m: Metrics) {
    && m.total == Sum(m.shards)
    && m.total.Splits() && (forall i :: 0 <= i < |m.shards| ==> m.shards[i].Splits())
    && (forall key :: key in m.flows ==> FlowAddsUp(m.flows[key]))
  }

  lemma CountSplits(l: Load, kind: Kind, reason: Option<Reason>, bytes: nat)
    requires l.Splits()
    ensures Count(l, kind, reason, bytes).Splits()
  {
  }

  lemma CountAddsRight(l: Load, m: Load, kind: Kind, reason: Option<Reason>, bytes: nat)
    ensures l.Add(Count(m, kind, reason, bytes)) == Count(l.Add(m), kind, reason, bytes)
  {
  }

  lemma CountAddsLeft(l: Load, m: Load, kind: Kind, reason: Option<Reason>, bytes: nat)
    ensures Count(l, kind, reason, bytes).Add(m) == Count(l.Add(m), kind, reason, bytes)
  {
  }

  lemma {:induction false} SumCounts(loads: seq<Load>, i: nat, kind: Kind, reason: Option<Reason>, bytes: nat)
    requires i < |loads|
    ensures Sum(loads[i := Count(loads[i], kind, reason, bytes)]) == Count(Sum(loads), kind, reason, bytes)
    decreases |loads|
  {
    hide Count, Load.Add;
    var last := |loads| - 1;
    var counted := loads[i := Count(loads[i], kind, reason, bytes)];
    if i == last {
      CountAddsRight(Sum(loads[..last]), loads[last], kind, reason, bytes);
      assert counted[..last] == loads[..last];
    } else {
      assert counted[..last] == loads[..last][i := Count(loads[i], kind, reason, bytes)];
      SumCounts(loads[..last], i, kind, reason, bytes);
      CountAddsLeft(Sum(loads[..last]), loads[last], kind, reason, bytes);
    }
  }

  lemma {:induction false} AddPartAdds(parts: seq<Part>, shard: nat, bytes: nat)
    ensures var after := AddPart(parts, shard, bytes);
            && PartPackets(after) == PartPackets(parts) + 1 && PartBytes(after) == PartBytes(parts) + bytes
            && ShardsOf(after) == ShardsOf(parts) + {shard}
            && (OncePerShard(parts) ==> OncePerShard(after))
  {
    if parts != [] {
      AddPartAdds(parts[1..], shard, bytes);
      var after := AddPart(parts, shard, bytes);
      if parts[0].shard == shard {
        assert after[1..] == parts[1..];
      } else {
        assert after[1..] == AddPart(parts[1..], shard, bytes);
      }
    } else {
      var after := AddPart(parts, shard, bytes);
      assert after[1..] == [];
      assert PartPackets(after) == 1 + PartPackets([]) && PartBytes(after) == bytes + PartBytes([]);
    }
  }

  /** The part that grows is the first one of the shard, or a new one at the end. */
  lemma {:induction false} AddPartAt(parts: seq<Part>, shard: nat, bytes: nat, i: nat)
    requires i <= |parts| && (forall k :: 0 <= k < i ==> parts[k].shard != shard)
    requires i < |parts| ==> parts[i].shard == shard
    ensures AddPart(parts, shard, bytes)
            == if i < |parts| then parts[i := Part(shard, parts[i].packets + 1, parts[i].bytes + bytes)]
               else parts + [Part(shard, 1, bytes)]
  {
    if i > 0 {
      AddPartAt(parts[1..], shard, bytes, i - 1);
      if i < |parts| {
        var grown := Part(shard, parts[i].packets + 1, parts[i].bytes + bytes);
        assert parts[i := grown] == [parts[0]] + parts[1..][i - 1 := grown];
      } else {
        assert parts + [Part(shard, 1, bytes)] == [parts[0]] + (parts[1..] + [Part(shard, 1, bytes)]);
      }
    } else if parts != [] {
      var grown := Part(shard, parts[0].packets + 1, parts[0].bytes + bytes);
      assert parts[0 := grown] == [grown] + parts[1..];
    }
  }

  lemma ObserveFlowAddsUp(f: FlowLoad, shard: nat, bytes: nat, striped: bool)
    requires FlowAddsUp(f)
    ensures FlowAddsUp(ObserveFlow(f, shard, bytes, striped))
  {
    AddPartAdds(f.parts, shard, bytes);
  }

  predicate FlowsAddUp(flows: map<Key, FlowLoad>) {
    forall key :: key in flows ==> FlowAddsUp(flows[key])
  }

  lemma {:induction false} MakeRoomAddsUp(m: Metrics)
    requires FlowsAddUp(m.flows)
    ensures FlowsAddUp(MakeRoom(m).flows) && MakeRoom(m).total == m.total && MakeRoom(m).shards == m.shards
    decreases |m.flowOrder|
  {
    hide FlowAddsUp;
    if |m.flows| >= m.maxFlows && m.flowOrder != [] {
      MakeRoomAddsUp(m.(flows := m.flows - {m.flowOrder[0]}, flowOrder := m.flowOrder[1..]));
    }
  }

  lemma TrackFlowAddsUp(m: Metrics, key: Key, shard: nat, bytes: nat, striped: bool)
    requires FlowsAddUp(m.flows)
    ensures var after := TrackFlow(m, key, shard, bytes, striped);
            FlowsAddUp(after.flows) && after.total == m.total && after.shards == m.shards
  {
    hide FlowAddsUp, ObserveFlow, MakeRoom;
    MakeRoomAddsUp(m);
    NewFlowAddsUp();
    ObserveFlowAddsUp(NEW_FLOW, shard, bytes, striped);
    if key in m.flows {
      ObserveFlowAddsUp(m.flows[key], shard, bytes, striped);
    }
  }

  lemma NewFlowAddsUp()
    ensures FlowAddsUp(NEW_FLOW)
  {
  }

  /** The tracked flows and the queue of them are the same flows, each once, and no more than allowed. */
  predicate TrackOk(m: Metrics) {
    && m.maxFlows > 0 && |m.flowOrder| <= m.maxFlows && Distinct(m.flowOrder)
    && m.flows.Keys == Listed(m.flowOrder)
  }

  lemma FirstFlow(flows: map<Key, FlowLoad>, order: seq<Key>)
    requires Distinct(order) && flows.Keys == Listed(order)
    ensures |flows| == |order|
    ensures order != [] ==> Distinct(order[1..]) && (flows - {order[0]}).Keys == Listed(order[1..])
  {
    ListedCounts(order);
    assert |flows| == |flows.Keys|;
    if order != [] {
      assert Listed(order) == {order[0]} + Listed(order[1..]);
      assert order[0] !in order[1..];
    }
  }

  /** Making room costs the oldest flow its place, if and only if there is none. */
  lemma RoomIsMade(m: Metrics)
    requires TrackOk(m)
    ensures var room := MakeRoom(m);
            && TrackOk(room) && |room.flowOrder| < room.maxFlows && |room.flows| < room.maxFlows
            && room == if |m.flowOrder| == m.maxFlows
                       then m.(flows := m.flows - {m.flowOrder[0]}, flowOrder := m.flowOrder[1..]) else m
  {
    hide Distinct, Listed;
    FirstFlow(m.flows, m.flowOrder);
    if |m.flowOrder| == m.maxFlows {
      var rest := m.(flows := m.flows - {m.flowOrder[0]}, flowOrder := m.flowOrder[1..]);
      FirstFlow(rest.flows, rest.flowOrder);
      assert MakeRoom(m) == MakeRoom(rest) == rest;
    }
  }

  lemma LastFlow(flows: map<Key, FlowLoad>, order: seq<Key>, key: Key, load: FlowLoad)
    requires Distinct(order) && flows.Keys == Listed(order) && key !in flows
    ensures Distinct(order + [key]) && flows[key := load].Keys == Listed(order + [key])
  {
    assert key !in Listed(order);
    assert forall k :: k in order ==> k in Listed(order);
    assert Listed(order + [key]) == Listed(order) + {key};
  }

  /** A routed flow is always tracked, with this packet added to what it had, and no other flow is changed. */
  lemma FlowIsTracked(m: Metrics, key: Key, shard: nat, bytes: nat, striped: bool)
    requires TrackOk(m)
    ensures var after := TrackFlow(m, key, shard, bytes, striped);
            && TrackOk(after) && key in after.flows
            && after.flows[key] == ObserveFlow(if key in m.flows then m.flows[key] else NEW_FLOW, shard, bytes, striped)
            && (forall other :: other in after.flows && other != key ==>
                  other in m.flows && after.flows[other] == m.flows[other])
            && (forall other :: other in m.flows && other !in after.flows ==>
                  key !in m.flows && |m.flowOrder| == m.maxFlows && other == m.flowOrder[0])
  {
    hide ObserveFlow, MakeRoom, Distinct, Listed;
    if key in m.flows {
      assert m.flows[key := ObserveFlow(m.flows[key], shard, bytes, striped)].Keys == m.flows.Keys;
    } else {
      RoomIsMade(m);
      var room := MakeRoom(m);
      LastFlow(room.flows, room.flowOrder, key, ObserveFlow(NEW_FLOW, shard, bytes, striped));
    }
  }

  /** So whatever is routed, the tracked flows stay in step, and a flow's route is tracked. */
  lemma RouteTracks(m: Metrics, r: Route, bytes: nat)
    requires TrackOk(m)
    ensures var after := ObserveRoute(m, r, bytes);
            && TrackOk(after)
            && ((r.kind.FlowAffinity? || r.kind.StripedFlow?) && r.flow.Some? ==>
                  && r.flow.value in after.flows
                  && after.flows[r.flow.value]
                     == ObserveFlow(if r.flow.value in m.flows then m.flows[r.flow.value] else NEW_FLOW,
                                    r.shard, bytes, r.kind.StripedFlow?))
  {
    hide TrackFlow, ObserveFlow, Distinct, Listed, Count;
    var counted := m.(total := Count(m.total, r.kind, r.reason, bytes),
                      shards := if r.shard < |m.shards|
                                then m.shards[r.shard := Count(m.shards[r.shard], r.kind, r.reason, bytes)] else m.shards);
    if r.flow.Some? {
      FlowIsTracked(counted, r.flow.value, r.shard, bytes, r.kind.StripedFlow?);
    }
  }

  /** Whatever is routed to a shard that exists keeps all the sums. */
  lemma RouteConserves(m: Metrics, r: Route, bytes: nat)
    requires Conserves(m) && r.shard < |m.shards|
    ensures Conserves(ObserveRoute(m, r, bytes)) && |ObserveRoute(m, r, bytes).shards| == |m.shards|
    ensures ObserveRoute(m, r, bytes).total == Count(m.total, r.kind, r.reason, bytes)
  {
    hide Sum, Count, Load.Splits, FlowAddsUp, TrackFlow;
    SumCounts(m.shards, r.shard, r.kind, r.reason, bytes);
    CountSplits(m.total, r.kind, r.reason, bytes);
    CountSplits(m.shards[r.shard], r.kind, r.reason, bytes);
    assert FlowsAddUp(m.flows);
    var counted := m.(total := Count(m.total, r.kind, r.reason, bytes),
                      shards := m.shards[r.shard := Count(m.shards[r.shard], r.kind, r.reason, bytes)]);
    if r.flow.Some? {
      TrackFlowAddsUp(counted, r.flow.value, r.shard, bytes, r.kind.StripedFlow?);
    }
  }

  lemma NoLoadAddsNothing(l: Load)
    ensures l.Add(NO_LOAD) == l
  {
    hide Load.Splits;
  }

  lemma NoLoadSplits()
    ensures NO_LOAD.Splits()
  {
    hide Load.Add;
  }

  lemma {:induction false} NoLoadsSplit(n: nat)
    ensures Sum(NoLoads(n)) == NO_LOAD
    ensures forall i :: 0 <= i < n ==> NoLoads(n)[i].Splits()
  {
    hide Load.Splits, Load.Add;
    NoLoadAddsNothing(NO_LOAD);
    NoLoadSplits();
    if n > 0 {
      NoLoadsSplit(n - 1);
      assert NoLoads(n)[..n - 1] == NoLoads(n - 1);
    }
  }

  lemma NewConserves(shards: nat)
    ensures Conserves(NewMetrics(shards)) && TrackOk(NewMetrics(shards))
  {
    hide Load.Splits, Load.Add, Sum, NoLoads;
    NoLoadSplits();
    NoLoadsSplit(Max(shards, 1));
  }

  // ---------------------------------------------------------------------
  // Skew

  const U64_MAX: nat := 0xFFFF_FFFF_FFFF_FFFF

  function SkewRatioMilli(max: nat, total: nat, count: nat): nat {
    if total == 0 || count == 0 then 0 else Min(max * count * 1000 / total, U64_MAX)
  }

  /** The largest of some numbers. */
  function Largest(values: seq<nat>): nat {
    if values == [] then 0 else Max(Largest(values[..|values| - 1]), values[|values| - 1])
  }

  function SumOf(values: seq<nat>): nat {
    if values == [] then 0 else SumOf(values[..|values| - 1]) + values[|values| - 1]
  }

  lemma {:induction false} LargestBounds(values: seq<nat>)
    ensures Largest(values) <= SumOf(values) <= Largest(values) * |values|
  {
    if values != [] {
      var n := |values| - 1;
      LargestBounds(values[..n]);
      assert Largest(values[..n]) * n <= Largest(values) * n by {
        MulLess(Largest(values[..n]), Largest(values), n);
      }
      assert Largest(values) * (n + 1) == Largest(values) * n + Largest(values);
    }
  }

  lemma MulLess(a: nat, b: nat, n: nat)
    requires a <= b
    ensures a * n <= b * n
  {
    assert b * n == a * n + (b - a) * n;
  }

  /** An even split is 1000, everything on one shard is 1000 for each shard, and nothing is outside these. */
  lemma SkewIsBetween(values: seq<nat>)
    requires SumOf(values) > 0 && |values| * 1000 <= U64_MAX
    ensures 1000 <= SkewRatioMilli(Largest(values), SumOf(values), |values|) <= 1000 * |values|
  {
    LargestBounds(values);
    var largest, total, n := Largest(values), SumOf(values), |values|;
    var scaled := largest * n * 1000;
    assert 1000 * total <= scaled;
    MulLess(largest, total, n * 1000);
    assert scaled == largest * (n * 1000);
    QuotientBetween(scaled, total, 1000, n * 1000);
  }

  /** The skew is a thousand times the largest load by the mean load, rounded down, as far as it can be held. */
  lemma SkewIsRatio(max: nat, total: nat, count: nat)
    requires total > 0
    ensures var skew, scaled := SkewRatioMilli(max, total, count), 1000 * (max * count);
            && skew <= 0xFFFF_FFFF_FFFF_FFFF && skew * total <= scaled
            && (skew < 0xFFFF_FFFF_FFFF_FFFF ==> scaled < (skew + 1) * total)
  {
    if count > 0 {
      var scaled := max * count * 1000;
      var q := scaled / total;
      assert scaled == q * total + scaled % total;
      assert (q + 1) * total == q * total + total;
      if q > U64_MAX {
        MulLess(U64_MAX, q, total);
      }
    }
  }

  lemma QuotientBetween(a: nat, b: nat, low: nat, high: nat)
    requires b > 0 && low * b <= a <= b * high
    ensures low <= a / b <= high
  {
    var q := a / b;
    assert a == q * b + a % b;
    assert (q + 1) * b == q * b + b && (high + 1) * b == b * high + b;
    if q < low {
      MulLess(q + 1, low, b);
    }
    if q > high {
      MulLess(high + 1, q, b);
    }
  }

  function BytesOf(loads: seq<Load>): (r: seq<nat>)
    ensures |r| == |loads|
  {
    seq(|loads|, i requires 0 <= i < |loads| => loads[i].bytes)
  }

  function PacketsOf(loads: seq<Load>): (r: seq<nat>)
    ensures |r| == |loads|
  {
    seq(|loads|, i requires 0 <= i < |loads| => loads[i].packets)
  }

  lemma {:induction false} SumsAgree(loads: seq<Load>)
    ensures Sum(loads).bytes == SumOf(BytesOf(loads)) && Sum(loads).packets == SumOf(PacketsOf(loads))
  {
    if loads != [] {
      assert BytesOf(loads)[..|loads| - 1] == BytesOf(loads[..|loads| - 1]);
      assert PacketsOf(loads)[..|loads| - 1] == PacketsOf(loads[..|loads| - 1]);
      SumsAgree(loads[..|loads| - 1]);
    }
  }

  /** The skews of any conserved metrics with something in them. */
  lemma MetricsSkew(m: Metrics)
    requires Conserves(m) && |m.shards| * 1000 <= U64_MAX
    ensures m.total.bytes > 0 ==>
              1000 <= SkewRatioMilli(Largest(BytesOf(m.shards)), m.total.bytes, |m.shards|) <= 1000 * |m.shards|
    ensures m.total.packets > 0 ==>
              1000 <= SkewRatioMilli(Largest(PacketsOf(m.shards)), m.total.packets, |m.shards|) <= 1000 * |m.shards|
  {
    hide SkewRatioMilli, Sum, Largest, SumOf;
    SumsAgree(m.shards);
    if m.total.bytes > 0 {
      SkewIsBetween(BytesOf(m.shards));
    }
    if m.total.packets > 0 {
      SkewIsBetween(PacketsOf(m.shards));
    }
  }
}
