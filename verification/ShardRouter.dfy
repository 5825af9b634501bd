/**
 Where each packet goes: a flow stays with its owner shard, except that large UDP
 flows are spread to the least loaded of their candidate shards. The hashes are
 parameters.
 */
module ShardRouter {
  import opened Bytes
  import opened ShardTopology
  import opened ShardOwners
  import Tables = OldestFirst
  import opened ShardMetrics

  datatype Elephants = Elephants(enabled: bool, minPackets: nat, minBytes: nat, maxStripes: nat)

  datatype FallbackPolicy = RoundRobin | FirstShard

  datatype Hashes = Hashes(
    primary: Key -> nat, secondary: Key -> nat, stripe: (Key, nat) -> nat, tie: (Key, nat, nat) -> nat)

  datatype Config = Config(
    topology: Topology, dump: bool, fallback: FallbackPolicy, elephants: Elephants, hashes: Hashes)
  {
    predicate Valid() { topology == NewTopology(topology.count) && topology.count > 0 }
  }

  datatype State = State(sequence: nat, owners: Table, metrics: Metrics)

  /** What the headers say of a packet: its flow, or why it has none. */
  datatype Headers = Flow(key: Key) | NoFlow(reason: Reason)

  datatype Packet = Packet(headers: Headers, bytes: nat)

  // ---------------------------------------------------------------------
  // Placement

  /** Fewer bytes, or as many and fewer packets. */
  predicate Lighter(a: Load, b: Load) {
    a.bytes < b.bytes || (a.bytes == b.bytes && a.packets < b.packets)
  }

  predicate SameWeight(a: Load, b: Load) { a.bytes == b.bytes && a.packets == b.packets }

  function LoadOf(m: Metrics, shard: nat): Load {
    if shard < |m.shards| then m.shards[shard] else NO_LOAD
  }

  function ChooseForNewFlow(c: Config, m: Metrics, key: Key): nat
    requires c.Valid()
  {
    var primary := c.topology.ShardFor(c.hashes.primary(key));
    var secondary := c.topology.ShardFor(c.hashes.secondary(key));
    if primary == secondary then primary
    else if Lighter(LoadOf(m, secondary), LoadOf(m, primary)) then secondary
    else primary
  }

  function AllShards(n: nat): (r: seq<nat>)
    ensures |r| == n && forall i :: 0 <= i < n ==> r[i] == i
  {
    if n == 0 then [] else AllShards(n - 1) + [n - 1]
  }

  function MoreCandidates(c: Config, key: Key, found: seq<nat>, salt: nat): seq<nat>
    requires c.Valid()
    decreases 4 * c.topology.count - salt
  {
    if |found| >= Max(c.elephants.maxStripes, 1) || salt >= 4 * c.topology.count then found
    else
      var shard := c.topology.ShardFor(c.hashes.stripe(key, salt));
      MoreCandidates(c, key, if shard in found then found else found + [shard], salt + 1)
  }

  predicate StripesEverywhere(c: Config) {
    c.elephants.maxStripes == 0 || c.elephants.maxStripes >= c.topology.count
  }

  function Candidates(c: Config, key: Key, owner: nat): seq<nat>
    requires c.Valid()
  {
    if StripesEverywhere(c) then AllShards(c.topology.count) else MoreCandidates(c, key, [owner], 0)
  }

  /** The better of the shard chosen so far and the next: less loaded, or as loaded and lower on the tie hash. */
  function Better(c: Config, m: Metrics, key: Key, sequence: nat, chosen: nat, shard: nat): nat {
    var a, b := LoadOf(m, shard), LoadOf(m, chosen);
    if Lighter(a, b) || (SameWeight(a, b) && c.hashes.tie(key, sequence, shard) < c.hashes.tie(key, sequence, chosen))
    then shard else chosen
  }

  function BestOf(c: Config, m: Metrics, key: Key, sequence: nat, chosen: nat, candidates: seq<nat>): nat
    decreases |candidates|
  {
    if candidates == [] then chosen
    else BestOf(c, m, key, sequence, Better(c, m, key, sequence, chosen, candidates[0]), candidates[1..])
  }

  function ChooseForStripedFlow(c: Config, m: Metrics, key: Key, sequence: nat, owner: nat): nat
    requires c.Valid()
  {
    var candidates := Candidates(c, key, owner);
    if |candidates| <= 1 then owner else BestOf(c, m, key, sequence, owner, candidates)
  }

  predicate ShouldStripe(c: Config, key: Key, owner: Owner) {
    && c.elephants.enabled && !owner.striped && c.topology.count > 1 && key.udp
    && (owner.packets >= c.elephants.minPackets || owner.bytes >= c.elephants.minBytes)
  }

  // ---------------------------------------------------------------------
  // Routing

  /** The table with an owner for the flow. */
  function Installed(c: Config, s: State, key: Key): Table
    requires c.Valid()
  {
    if key in s.owners.entries then s.owners else Remember(s.owners, key, ChooseForNewFlow(c, s.metrics, key))
  }

  function Routed(c: Config, s: State, key: Key, bytes: nat): (Route, Table)
    requires c.Valid() && Tables.Valid(s.owners)
  {
    var installed := Installed(c, s, key);
    EveryStepKeeps(s.owners, key, ChooseForNewFlow(c, s.metrics, key));
    var owner := installed.entries[key];
    var stripes := owner.striped || ShouldStripe(c, key, owner);
    var marked := if ShouldStripe(c, key, owner) then MarkStriped(installed, key) else installed;
    var shard := if stripes then ChooseForStripedFlow(c, s.metrics, key, s.sequence, owner.shard) else owner.shard;
    (Route(shard, owner.shard, if stripes then StripedFlow else FlowAffinity, Some(key), None),
     Observe(marked, key, bytes))
  }

  function RoutePacket(c: Config, s: State, p: Packet): (Route, State)
    requires c.Valid() && Tables.Valid(s.owners)
  {
    var next :=
      if c.dump then (Route(0, 0, Dump, None, None), s.owners)
      else if c.topology.count <= 1 then (Route(0, 0, SingleShard, None, None), s.owners)
      else if p.headers.Flow? then Routed(c, s, p.headers.key, p.bytes)
      else (Route(if c.fallback.RoundRobin? then c.topology.ShardFor(s.sequence) else 0, 0, Fallback, None,
                  Some(p.headers.reason)), s.owners);
    (next.0, State(s.sequence + 1, next.1, ObserveRoute(s.metrics, next.0, p.bytes)))
  }

  // ---------------------------------------------------------------------
  // Candidates and the choice between them

  predicate GoodCandidates(c: Config, found: seq<nat>, owner: nat) {
    && owner in found
    && (forall i :: 0 <= i < |found| ==> found[i] < c.topology.count)
    && (forall i, j :: 0 <= i < j < |found| ==> found[i] != found[j])
  }

  lemma {:induction false} MoreCandidatesAreGood(c: Config, key: Key, found: seq<nat>, salt: nat, owner: nat)
    requires c.Valid() && GoodCandidates(c, found, owner) && |found| <= Max(c.elephants.maxStripes, 1)
    ensures var r := MoreCandidates(c, key, found, salt);
            GoodCandidates(c, r, owner) && |r| <= Max(c.elephants.maxStripes, 1)
    decreases 4 * c.topology.count - salt
  {
    if |found| < Max(c.elephants.maxStripes, 1) && salt < 4 * c.topology.count {
      hide Topology.ShardFor, NewTopology;
      var shard := c.topology.ShardFor(c.hashes.stripe(key, salt));
      ShardExists(c, c.hashes.stripe(key, salt));
      MoreCandidatesAreGood(c, key, if shard in found then found else found + [shard], salt + 1, owner);
    }
  }

  lemma ShardExists(c: Config, number: nat)
    requires c.Valid()
    ensures c.topology.ShardFor(number) == number % c.topology.count < c.topology.count
  {
    ShardIsTheRemainder(c.topology.count, number);
  }

  /** The candidates are different shards that exist, the owner among them, and no more than allowed. */
  lemma CandidatesAreGood(c: Config, key: Key, owner: nat)
    requires c.Valid() && owner < c.topology.count
    ensures GoodCandidates(c, Candidates(c, key, owner), owner)
    ensures if c.elephants.maxStripes == 0 || c.elephants.maxStripes >= c.topology.count
            then |Candidates(c, key, owner)| == c.topology.count
            else |Candidates(c, key, owner)| <= c.elephants.maxStripes
  {
    hide MoreCandidates, NewTopology;
    if StripesEverywhere(c) {
      assert AllShards(c.topology.count)[owner] == owner;
    } else {
      assert GoodCandidates(c, [owner], owner);
      MoreCandidatesAreGood(c, key, [owner], 0, owner);
    }
  }

  /** The shard that a stripe hash stands for. */
  function Striped(c: Config, key: Key, salt: nat): nat
    requires c.topology.count > 0
  {
    c.hashes.stripe(key, salt) % c.topology.count
  }

  /** The salt is the first that leads to a shard which is not among those before place `i`. */
  ghost predicate AddedBy(c: Config, key: Key, found: seq<nat>, i: nat, salt: nat)
    requires c.topology.count > 0 && i < |found|
  {
    salt < 4 * c.topology.count && Striped(c, key, salt) == found[i]
    && forall t: nat :: t < salt ==> Striped(c, key, t) in found[..i]
  }

  ghost predicate Added(c: Config, key: Key, found: seq<nat>, i: nat)
    requires c.topology.count > 0 && i < |found|
  {
    exists salt: nat :: AddedBy(c, key, found, i, salt)
  }

  /** After the owner come the shards that the first salts lead to, in the order of the salts. */
  ghost predicate InSaltOrder(c: Config, key: Key, owner: nat, found: seq<nat>)
    requires c.topology.count > 0
  {
    found != [] && found[0] == owner && forall i: nat :: 1 <= i < |found| ==> Added(c, key, found, i)
  }

  lemma {:induction false} MoreInSaltOrder(c: Config, key: Key, owner: nat, found: seq<nat>, salt: nat)
    requires c.Valid() && InSaltOrder(c, key, owner, found) && forall t: nat :: t < salt ==> Striped(c, key, t) in found
    ensures var r := MoreCandidates(c, key, found, salt);
            && InSaltOrder(c, key, owner, r)
            && (|r| < Max(c.elephants.maxStripes, 1) ==> forall t: nat :: t < 4 * c.topology.count ==> Striped(c, key, t) in r)
    decreases 4 * c.topology.count - salt
  {
    if |found| < Max(c.elephants.maxStripes, 1) && salt < 4 * c.topology.count {
      hide Topology.ShardFor, NewTopology;
      ShardExists(c, c.hashes.stripe(key, salt));
      var shard := Striped(c, key, salt);
      if shard in found {
        MoreInSaltOrder(c, key, owner, found, salt + 1);
      } else {
        OneMoreInOrder(c, key, owner, found, salt);
        MoreInSaltOrder(c, key, owner, found + [shard], salt + 1);
      }
    }
  }

  lemma OneMoreInOrder(c: Config, key: Key, owner: nat, found: seq<nat>, salt: nat)
    requires c.topology.count > 0 && salt < 4 * c.topology.count
    requires InSaltOrder(c, key, owner, found) && forall t: nat :: t < salt ==> Striped(c, key, t) in found
    ensures InSaltOrder(c, key, owner, found + [Striped(c, key, salt)])
  {
    hide Striped;
    var longer := found + [Striped(c, key, salt)];
    assert longer[..|found|] == found;
    assert AddedBy(c, key, longer, |found|, salt);
    forall i: nat | 1 <= i < |found|
      ensures Added(c, key, longer, i)
    {
      assert Added(c, key, found, i);
      var at: nat :| AddedBy(c, key, found, i, at);
      assert longer[..i] == found[..i];
      assert AddedBy(c, key, longer, i, at);
    }
  }

  /**
   The candidates are all shards, or the owner and then the shards that the stripe hashes
   of the first salts lead to: as many as allowed, or all that four salts for each shard give.
   */
  lemma CandidatesAreHashed(c: Config, key: Key, owner: nat)
    requires c.Valid() && 0 < c.elephants.maxStripes < c.topology.count
    ensures var candidates := Candidates(c, key, owner);
            && InSaltOrder(c, key, owner, candidates)
            && (|candidates| < c.elephants.maxStripes ==>
                  forall t: nat :: t < 4 * c.topology.count ==> Striped(c, key, t) in candidates)
  {
    hide MoreCandidates, NewTopology;
    MoreInSaltOrder(c, key, owner, [owner], 0);
  }

  /** Less loaded, or as loaded and lower on the tie hash. */
  predicate Beats(c: Config, m: Metrics, key: Key, sequence: nat, a: nat, b: nat) {
    || Lighter(LoadOf(m, a), LoadOf(m, b))
    || (SameWeight(LoadOf(m, a), LoadOf(m, b)) && c.hashes.tie(key, sequence, a) < c.hashes.tie(key, sequence, b))
  }

  /** The shard chosen first is kept, or the first candidate that beats it and that no other beats takes its place. */
  predicate IsBest(c: Config, m: Metrics, key: Key, sequence: nat, chosen: nat, candidates: seq<nat>, best: nat) {
    && (forall i :: 0 <= i < |candidates| ==> !Beats(c, m, key, sequence, candidates[i], best))
    && (best == chosen
        || (Beats(c, m, key, sequence, best, chosen)
            && exists k :: 0 <= k < |candidates| && candidates[k] == best
                 && forall i :: 0 <= i < k ==> Beats(c, m, key, sequence, best, candidates[i])))
  }

  lemma {:induction false} BestIs(
    c: Config, m: Metrics, key: Key, sequence: nat, chosen: nat, candidates: seq<nat>)
    ensures IsBest(c, m, key, sequence, chosen, candidates, BestOf(c, m, key, sequence, chosen, candidates))
    decreases |candidates|
  {
    hide LoadOf;
    if candidates != [] {
      var first := candidates[0];
      var better := if Beats(c, m, key, sequence, first, chosen) then first else chosen;
      assert better == Better(c, m, key, sequence, chosen, first);
      BestIs(c, m, key, sequence, better, candidates[1..]);
      var best := BestOf(c, m, key, sequence, better, candidates[1..]);
      forall i | 0 <= i < |candidates|
        ensures !Beats(c, m, key, sequence, candidates[i], best)
      {
        assert i > 0 ==> candidates[i] == candidates[1..][i - 1];
      }
      if best != better {
        var k :| 0 <= k < |candidates[1..]| && candidates[1..][k] == best
                 && forall i :: 0 <= i < k ==> Beats(c, m, key, sequence, best, candidates[1..][i]);
        forall i | 0 <= i < k + 1
          ensures Beats(c, m, key, sequence, best, candidates[i])
        {
          assert i > 0 ==> candidates[i] == candidates[1..][i - 1];
        }
      }
    }
  }

  /** A striped packet goes to a candidate than which none is lighter, by the tie hash among the lightest. */
  lemma StripedGoesToTheLightest(c: Config, m: Metrics, key: Key, sequence: nat, owner: nat)
    requires c.Valid() && owner < c.topology.count
    ensures var candidates := Candidates(c, key, owner);
            var shard := ChooseForStripedFlow(c, m, key, sequence, owner);
            && shard in candidates && shard < c.topology.count
            && IsBest(c, m, key, sequence, owner, candidates, shard)
            && forall i :: 0 <= i < |candidates| ==> !Lighter(LoadOf(m, candidates[i]), LoadOf(m, shard))
  {
    hide Candidates, BestOf, LoadOf;
    CandidatesAreGood(c, key, owner);
    var candidates := Candidates(c, key, owner);
    BestIs(c, m, key, sequence, owner, candidates);
    if |candidates| <= 1 {
      assert candidates == [owner];
    }
    forall i | 0 <= i < |candidates|
      ensures !Lighter(LoadOf(m, candidates[i]), LoadOf(m, ChooseForStripedFlow(c, m, key, sequence, owner)))
    {
      assert !Beats(c, m, key, sequence, candidates[i], ChooseForStripedFlow(c, m, key, sequence, owner));
    }
  }

  /** A new flow goes to the lighter of the two shards its hashes stand for, the first on a tie. */
  lemma NewFlowGoesToTheLighter(c: Config, m: Metrics, key: Key)
    requires c.Valid()
    ensures var primary := c.hashes.primary(key) % c.topology.count;
            var secondary := c.hashes.secondary(key) % c.topology.count;
            var shard := ChooseForNewFlow(c, m, key);
            && shard in {primary, secondary}
            && !Lighter(LoadOf(m, primary), LoadOf(m, shard)) && !Lighter(LoadOf(m, secondary), LoadOf(m, shard))
            && (!Lighter(LoadOf(m, secondary), LoadOf(m, primary)) ==> shard == primary)
  {
    hide NewTopology, Topology.ShardFor, LoadOf;
    ShardExists(c, c.hashes.primary(key));
    ShardExists(c, c.hashes.secondary(key));
  }

  // ---------------------------------------------------------------------
  // Affinity

  /** What the owner table keeps: owners that exist, and only large UDP flows striped. */
  predicate OwnersOk(c: Config, t: Table) {
    forall key :: key in t.entries ==>
      && t.entries[key].shard < c.topology.count
      && (t.entries[key].striped ==>
            && key.udp && c.elephants.enabled
            && (t.entries[key].packets >= c.elephants.minPackets || t.entries[key].bytes >= c.elephants.minBytes))
  }

  predicate Sane(c: Config, s: State) {
    c.Valid() && Tables.Valid(s.owners) && OwnersOk(c, s.owners) && |s.metrics.shards| == c.topology.count
    && Conserves(s.metrics) && TrackOk(s.metrics)
  }

  lemma InstalledIsOk(c: Config, s: State, key: Key)
    requires c.Valid() && Tables.Valid(s.owners) && OwnersOk(c, s.owners)
    ensures var t := Installed(c, s, key);
            && Tables.Valid(t) && OwnersOk(c, t) && key in t.entries
            && (key in s.owners.entries ==> t == s.owners)
            && forall other :: other != key && other in t.entries ==>
                 other in s.owners.entries && t.entries[other] == s.owners.entries[other]
  {
    hide Tables.Valid, Remember, NewTopology;
    if key !in s.owners.entries {
      var shard := ChooseForNewFlow(c, s.metrics, key);
      RememberNew(s.owners, key, shard);
      ShardExists(c, c.hashes.primary(key));
      ShardExists(c, c.hashes.secondary(key));
    }
  }

  /** Routing a flow's packet: its owner is installed once, and what is known of other flows is untouched. */
  lemma RoutedIsOk(c: Config, s: State, key: Key, bytes: nat)
    requires c.Valid() && Tables.Valid(s.owners) && OwnersOk(c, s.owners)
    ensures var (route, t) := Routed(c, s, key, bytes);
            && Tables.Valid(t) && OwnersOk(c, t) && key in t.entries
            && route.ownerShard == t.entries[key].shard && route.shard < c.topology.count
            && (route.kind.StripedFlow? <==> t.entries[key].striped) && (route.kind.FlowAffinity? || route.kind.StripedFlow?)
            && (route.kind.FlowAffinity? ==> route.shard == route.ownerShard)
            && (key in s.owners.entries ==>
                  && route.ownerShard == s.owners.entries[key].shard
                  && (s.owners.entries[key].striped ==> t.entries[key].striped))
            && forall other :: other != key && other in t.entries ==>
                 other in s.owners.entries && t.entries[other] == s.owners.entries[other]
  {
    hide Tables.Valid, Installed, ChooseForStripedFlow, NewTopology, ChooseForNewFlow, Remember;
    InstalledIsOk(c, s, key);
    var installed := Installed(c, s, key);
    var owner := installed.entries[key];
    EveryStepKeeps(installed, key, bytes);
    EveryStepKeeps(MarkStriped(installed, key), key, bytes);
    StripedGoesToTheLightest(c, s.metrics, key, s.sequence, owner.shard);
  }

  /**
   The owner entry counts its flow's packets since it was installed, and a flow is
   striped from the first packet that finds the entry past a threshold.
   */
  lemma RoutedIsCounted(c: Config, s: State, key: Key, bytes: nat)
    requires c.Valid() && Tables.Valid(s.owners)
    ensures var (route, t) := Routed(c, s, key, bytes);
            && key in t.entries
            && if key in s.owners.entries then
                 var o := s.owners.entries[key];
                 && t.entries[key].packets == o.packets + 1 && t.entries[key].bytes == o.bytes + bytes
                 && (route.kind.StripedFlow? <==>
                       || o.striped
                       || (c.elephants.enabled && c.topology.count > 1 && key.udp
                           && (o.packets >= c.elephants.minPackets || o.bytes >= c.elephants.minBytes)))
               else t.entries[key].packets == 1 && t.entries[key].bytes == bytes
  {
    hide Tables.Valid, ChooseForStripedFlow, NewTopology, ChooseForNewFlow, Remember;
    if key !in s.owners.entries {
      RememberNew(s.owners, key, ChooseForNewFlow(c, s.metrics, key));
    }
  }

  /** The state of a router that has routed nothing yet; it numbers its packets from zero. */
  function NewState(c: Config, maxOwners: nat): (s: State)
    requires c.Valid()
    ensures Sane(c, s) && s.sequence == 0
  {
    hide Conserves, TrackOk, Sum, NewTopology;
    NewConserves(c.topology.count);
    State(0, Tables.NewTable(maxOwners), NewMetrics(c.topology.count))
  }

  lemma NewIsValid(c: Config, shards: nat)
    requires c.topology == NewTopology(shards)
    ensures c.Valid()
  {
    hide IsPowerOfTwo;
  }

  lemma SaneParts(c: Config, s: State)
    requires Sane(c, s)
    ensures c.Valid() && Tables.Valid(s.owners)
  {
    hide Tables.Valid, OwnersOk, Conserves, TrackOk, NewTopology;
  }

  lemma PacketKeeps(c: Config, s: State, p: Packet)
    requires Sane(c, s)
    ensures var (route, after) := RoutePacket(c, s, p);
            && Sane(c, after) && route.shard < c.topology.count
            && after.metrics.total == Count(s.metrics.total, route.kind, route.reason, p.bytes)
  {
    hide Tables.Valid, Routed, ObserveRoute, Conserves, TrackOk, OwnersOk, Count, NewTopology, Topology.ShardFor;
    ShardExists(c, s.sequence);
    if p.headers.Flow? {
      RoutedIsOk(c, s, p.headers.key, p.bytes);
    }
    var (route, after) := RoutePacket(c, s, p);
    RouteConserves(s.metrics, route, p.bytes);
    RouteTracks(s.metrics, route, p.bytes);
  }

  /** A flow's packet is counted for the flow on the shard it goes to, in every state a run can reach. */
  lemma PacketIsTracked(c: Config, s: State, p: Packet)
    requires Sane(c, s) && !c.dump && c.topology.count > 1 && p.headers.Flow?
    ensures var (route, after) := RoutePacket(c, s, p);
            && p.headers.key in after.metrics.flows
            && var before := if p.headers.key in s.metrics.flows then s.metrics.flows[p.headers.key]
                             else FlowLoad(0, 0, false, []);
               after.metrics.flows[p.headers.key]
               == FlowLoad(before.packets + 1, before.bytes + p.bytes, before.striped || route.kind.StripedFlow?,
                           AddPart(before.parts, route.shard, p.bytes))
  {
    hide Tables.Valid, Routed, ObserveRoute, AddPart, Conserves, TrackOk, NewTopology, Topology.ShardFor, OwnersOk;
    RoutedIsOk(c, s, p.headers.key, p.bytes);
    RoutedFlow(c, s, p.headers.key, p.bytes);
    RouteTracks(s.metrics, RoutePacket(c, s, p).0, p.bytes);
  }

  /**
   A packet without a flow takes turns over the shards, or goes to the first one, as the
   fallback says; in dump mode and with one shard every packet goes to the first.
   */
  lemma FlowlessGoesTo(c: Config, s: State, p: Packet)
    requires c.Valid() && Tables.Valid(s.owners)
    ensures RoutePacket(c, s, p).1.sequence == s.sequence + 1
    ensures c.dump ==> RoutePacket(c, s, p).0 == Route(0, 0, Dump, None, None)
    ensures !c.dump && c.topology.count == 1 ==> RoutePacket(c, s, p).0 == Route(0, 0, SingleShard, None, None)
    ensures !c.dump && c.topology.count > 1 && p.headers.NoFlow? ==>
              RoutePacket(c, s, p).0 == Route(match c.fallback
                                              case RoundRobin => s.sequence % c.topology.count
                                              case FirstShard => 0, 0, Fallback, None, Some(p.headers.reason))
    ensures c.dump || c.topology.count == 1 || p.headers.NoFlow? ==> RoutePacket(c, s, p).1.owners == s.owners
  {
    hide Tables.Valid, Routed, ObserveRoute, NewTopology, Topology.ShardFor;
    ShardExists(c, s.sequence);
  }

  function RoutesOf(c: Config, s: State, packets: seq<Packet>): (r: seq<Route>)
    requires Sane(c, s)
    ensures |r| == |packets|
    decreases |packets|
  {
    if packets == [] then []
    else
      PacketKeeps(c, s, packets[0]);
      [RoutePacket(c, s, packets[0]).0] + RoutesOf(c, RoutePacket(c, s, packets[0]).1, packets[1..])
  }

  function AfterAll(c: Config, s: State, packets: seq<Packet>): (r: State)
    requires Sane(c, s)
    ensures Sane(c, r)
    decreases |packets|
  {
    if packets == [] then s
    else
      PacketKeeps(c, s, packets[0]);
      AfterAll(c, RoutePacket(c, s, packets[0]).1, packets[1..])
  }

  // ---------------------------------------------------------------------
  // What the counters tell

  predicate Concerns(shard: Option<nat>, r: Route) { shard.None? || shard.value == r.shard }

  /** How many packets went to a shard, or to any, for one of some kinds. */
  function Times(routes: seq<Route>, shard: Option<nat>, kinds: set<Kind>): nat {
    if routes == [] then 0
    else (if Concerns(shard, routes[0]) && routes[0].kind in kinds then 1 else 0) + Times(routes[1..], shard, kinds)
  }

  /** How many fallback packets went there for a reason. */
  function TimesFor(routes: seq<Route>, shard: Option<nat>, reason: Reason): nat {
    if routes == [] then 0
    else
      var r := routes[0];
      (if Concerns(shard, r) && r.kind.Fallback? && r.reason == Some(reason) then 1 else 0)
      + TimesFor(routes[1..], shard, reason)
  }

  /** How many bytes went there. */
  function BytesTo(routes: seq<Route>, packets: seq<Packet>, shard: Option<nat>): nat
    requires |routes| == |packets|
  {
    if routes == [] then 0
    else (if Concerns(shard, routes[0]) then packets[0].bytes else 0) + BytesTo(routes[1..], packets[1..], shard)
  }

  const EVERY_KIND: set<Kind> := {FlowAffinity, StripedFlow, Fallback, SingleShard, Dump}

  /** The counters of a shard, or of all of them, that a run of routes should leave. */
  function Told(routes: seq<Route>, packets: seq<Packet>, shard: Option<nat>): Load
    requires |routes| == |packets|
  {
    Load(Times(routes, shard, EVERY_KIND), BytesTo(routes, packets, shard),
         Times(routes, shard, {FlowAffinity, StripedFlow}), Times(routes, shard, {StripedFlow}),
         Times(routes, shard, {Fallback}),
         TimesFor(routes, shard, UnsupportedLink), TimesFor(routes, shard, NonIp), TimesFor(routes, shard, Malformed),
         TimesFor(routes, shard, Fragmented), TimesFor(routes, shard, UnsupportedTransport),
         Times(routes, shard, {Dump}), Times(routes, shard, {SingleShard}))
  }

  function One(counts: bool): nat { if counts then 1 else 0 }

  /** What one packet should leave. */
  function ToldOnce(r: Route, p: Packet): Load {
    var flow, striped := r.kind.FlowAffinity? || r.kind.StripedFlow?, r.kind.StripedFlow?;
    var because := reason => One(r.kind.Fallback? && r.reason == Some(reason));
    Load(1, p.bytes, One(flow), One(striped), One(r.kind.Fallback?),
         because(UnsupportedLink), because(NonIp), because(Malformed), because(Fragmented), because(UnsupportedTransport),
         One(r.kind.Dump?), One(r.kind.SingleShard?))
  }

  /** Counting a packet adds what one such packet should leave. */
  lemma CountAdds(l: Load, r: Route, p: Packet)
    requires r.kind.Fallback? ==> r.reason.Some?
    ensures l.Add(ToldOnce(r, p)) == Count(l, r.kind, r.reason, p.bytes)
  {
  }

  lemma ToldFirst(routes: seq<Route>, packets: seq<Packet>, shard: Option<nat>)
    requires |routes| == |packets| && routes != []
    ensures Told(routes, packets, shard)
            == (if Concerns(shard, routes[0]) then ToldOnce(routes[0], packets[0]) else NO_LOAD).Add(
                 Told(routes[1..], packets[1..], shard))
  {
    hide Times, TimesFor, BytesTo;
    TimesFirst(routes, shard, EVERY_KIND);
    TimesFirst(routes, shard, {FlowAffinity, StripedFlow});
    TimesFirst(routes, shard, {StripedFlow});
    TimesFirst(routes, shard, {Fallback});
    TimesFirst(routes, shard, {Dump});
    TimesFirst(routes, shard, {SingleShard});
    TimesForFirst(routes, shard, UnsupportedLink);
    TimesForFirst(routes, shard, NonIp);
    TimesForFirst(routes, shard, Malformed);
    TimesForFirst(routes, shard, Fragmented);
    TimesForFirst(routes, shard, UnsupportedTransport);
    BytesToFirst(routes, packets, shard);
  }

  lemma TimesFirst(routes: seq<Route>, shard: Option<nat>, kinds: set<Kind>)
    requires routes != []
    ensures Times(routes, shard, kinds)
            == One(Concerns(shard, routes[0]) && routes[0].kind in kinds) + Times(routes[1..], shard, kinds)
  {
  }

  lemma TimesForFirst(routes: seq<Route>, shard: Option<nat>, reason: Reason)
    requires routes != []
    ensures var r := routes[0];
            TimesFor(routes, shard, reason)
            == One(Concerns(shard, r) && r.kind.Fallback? && r.reason == Some(reason)) + TimesFor(routes[1..], shard, reason)
  {
  }

  lemma BytesToFirst(routes: seq<Route>, packets: seq<Packet>, shard: Option<nat>)
    requires |routes| == |packets| && routes != []
    ensures BytesTo(routes, packets, shard)
            == (if Concerns(shard, routes[0]) then packets[0].bytes else 0) + BytesTo(routes[1..], packets[1..], shard)
  {
  }

  lemma NothingTold(shard: Option<nat>, l: Load)
    ensures l.Add(Told([], [], shard)) == l
  {
  }

  /** New counters tell of nothing yet. */
  lemma {:induction false} NewCountersTellNothing(n: nat, i: nat)
    requires i < n
    ensures NewMetrics(n).total == Told([], [], None)
    ensures |NewMetrics(n).shards| == n && NewMetrics(n).shards[i] == Told([], [], Some(i))
  {
    NoLoadsAre(n, i);
  }

  lemma {:induction false} NoLoadsAre(n: nat, i: nat)
    requires i < n
    ensures NoLoads(n)[i] == Told([], [], Some(i))
  {
    if i < n - 1 {
      NoLoadsAre(n - 1, i);
    }
  }

  /** What one packet does to the counters of all shards and of each. */
  lemma PacketIsCounted(c: Config, s: State, p: Packet, n: nat)
    requires Sane(c, s) && n < c.topology.count
    ensures var (route, after) := RoutePacket(c, s, p);
            && (route.kind.Fallback? ==> route.reason.Some?)
            && |after.metrics.shards| == c.topology.count
            && after.metrics.total == Count(s.metrics.total, route.kind, route.reason, p.bytes)
            && after.metrics.shards[n]
               == if route.shard == n then Count(s.metrics.shards[n], route.kind, route.reason, p.bytes)
                  else s.metrics.shards[n]
  {
    hide Tables.Valid, Routed, Sum, Load.Splits, FlowAddsUp, TrackFlow, TrackOk, OwnersOk, Count, NewTopology,
      Topology.ShardFor;
    PacketKeeps(c, s, p);
    if p.headers.Flow? {
      RoutedIsOk(c, s, p.headers.key, p.bytes);
    }
    var r := RoutePacket(c, s, p).0;
    var m := s.metrics;
    assert FlowsAddUp(m.flows);
    if r.flow.Some? {
      var counted := m.(total := Count(m.total, r.kind, r.reason, p.bytes),
                        shards := m.shards[r.shard := Count(m.shards[r.shard], r.kind, r.reason, p.bytes)]);
      TrackFlowAddsUp(counted, r.flow.value, r.shard, p.bytes, r.kind.StripedFlow?);
    }
  }

  /**
   Over any run, the counters of all shards together and of each shard tell exactly
   how many packets and bytes went there, of which kinds and for which reasons.
   */
  lemma {:induction false} CountersTell(c: Config, s: State, packets: seq<Packet>, n: nat)
    requires Sane(c, s) && n < c.topology.count
    ensures var after, routes := AfterAll(c, s, packets).metrics, RoutesOf(c, s, packets);
            && |after.shards| == |s.metrics.shards| == c.topology.count
            && after.total == s.metrics.total.Add(Told(routes, packets, None))
            && after.shards[n] == s.metrics.shards[n].Add(Told(routes, packets, Some(n)))
    decreases |packets|
  {
    hide RoutePacket, Told, Load.Add, Count, Tables.Valid, Conserves, TrackOk, OwnersOk, NewTopology;
    if packets == [] {
      NothingTold(None, s.metrics.total);
      NothingTold(Some(n), s.metrics.shards[n]);
    } else {
      var p := packets[0];
      PacketKeeps(c, s, p);
      PacketIsCounted(c, s, p, n);
      var (route, next) := RoutePacket(c, s, p);
      CountersTell(c, next, packets[1..], n);
      var routes := RoutesOf(c, s, packets);
      assert routes[0] == route && routes[1..] == RoutesOf(c, next, packets[1..]);
      ToldFirst(routes, packets, None);
      ToldFirst(routes, packets, Some(n));
      OneMoreTold(s.metrics.total, route, p, None, Told(routes[1..], packets[1..], None));
      OneMoreTold(s.metrics.shards[n], route, p, Some(n), Told(routes[1..], packets[1..], Some(n)));
    }
  }

  lemma OneMoreTold(l: Load, r: Route, p: Packet, shard: Option<nat>, rest: Load)
    requires r.kind.Fallback? ==> r.reason.Some?
    ensures l.Add((if Concerns(shard, r) then ToldOnce(r, p) else NO_LOAD).Add(rest))
            == (if Concerns(shard, r) then Count(l, r.kind, r.reason, p.bytes) else l).Add(rest)
  {
    hide Count, ToldOnce;
    CountAdds(l, r, p);
  }

  lemma RoutedFlow(c: Config, s: State, key: Key, bytes: nat)
    requires c.Valid() && Tables.Valid(s.owners)
    ensures Routed(c, s, key, bytes).0.flow == Some(key)
  {
  }

  // ---------------------------------------------------------------------
  // Packets without a flow

  /** Over any run, the packet at place `i` finds the sequence number that many further on. */
  lemma {:induction false} FallbackTakesTurns(c: Config, s: State, packets: seq<Packet>, i: nat)
    requires Sane(c, s) && !c.dump && c.topology.count > 1 && i < |packets| && packets[i].headers.NoFlow?
    ensures RoutesOf(c, s, packets)[i] == Route(match c.fallback
                                                case RoundRobin => (s.sequence + i) % c.topology.count
                                                case FirstShard => 0, 0, Fallback, None, Some(packets[i].headers.reason))
    decreases i
  {
    hide RoutePacket, Sane;
    SaneParts(c, s);
    PacketKeeps(c, s, packets[0]);
    FlowlessGoesTo(c, s, packets[0]);
    if i > 0 {
      FallbackTakesTurns(c, RoutePacket(c, s, packets[0]).1, packets[1..], i - 1);
    }
  }

  /** Of as many packets without a flow as there are shards, each shard gets exactly one. */
  lemma EachShardOnce(c: Config, s: State, packets: seq<Packet>, shard: nat) returns (i: nat)
    requires Sane(c, s) && !c.dump && c.topology.count > 1 && c.fallback.RoundRobin?
    requires |packets| == c.topology.count && shard < c.topology.count
    requires forall k :: 0 <= k < |packets| ==> packets[k].headers.NoFlow?
    ensures i < |packets|
    ensures forall k :: 0 <= k < |packets| ==> (RoutesOf(c, s, packets)[k].shard == shard <==> k == i)
  {
    hide RoutesOf, Sane;
    var n := c.topology.count;
    var at := s.sequence % n;
    i := if shard >= at then shard - at else shard + n - at;
    forall k | 0 <= k < n
      ensures RoutesOf(c, s, packets)[k].shard == shard <==> k == i
    {
      FallbackTakesTurns(c, s, packets, k);
      Turn(s.sequence, k, n);
    }
  }

  lemma Turn(start: nat, k: nat, n: nat)
    requires k < n
    ensures var at := start % n;
            (start + k) % n == if at + k < n then at + k else at + k - n
  {
    var q, at := start / n, start % n;
    assert start + k == q * n + (at + k);
    if at + k < n {
      RemainderIs(start + k, n, q, at + k);
    } else {
      assert (q + 1) * n == q * n + n;
      RemainderIs(start + k, n, q + 1, at + k - n);
    }
  }

  // ---------------------------------------------------------------------
  // The spread between shards

  /** No two shards differ by more bytes than this. */
  predicate SpreadWithin(m: Metrics, spread: nat) {
    forall i, j :: 0 <= i < |m.shards| && 0 <= j < |m.shards| ==> m.shards[i].bytes - m.shards[j].bytes <= spread
  }

  /** A packet sent to the lightest of all shards spreads them by no more than its own size. */
  lemma StripedSpread(c: Config, s: State, p: Packet, spread: nat)
    requires Sane(c, s) && StripesEverywhere(c) && SpreadWithin(s.metrics, spread) && p.bytes <= spread
    requires RoutePacket(c, s, p).0.kind.StripedFlow?
    ensures SpreadWithin(RoutePacket(c, s, p).1.metrics, spread)
  {
    hide Tables.Valid, ObserveRoute, Conserves, TrackOk, NewTopology, Topology.ShardFor, Routed, OwnersOk;
    var (route, after) := RoutePacket(c, s, p);
    StripedShard(c, s, p.headers.key, p.bytes);
    ShardBytes(s.metrics, route, p.bytes);
    forall i, j | 0 <= i < |after.metrics.shards| && 0 <= j < |after.metrics.shards|
      ensures after.metrics.shards[i].bytes - after.metrics.shards[j].bytes <= spread
    {
      assert s.metrics.shards[i].bytes - s.metrics.shards[j].bytes <= spread;
      assert !Lighter(LoadOf(s.metrics, j), LoadOf(s.metrics, route.shard));
    }
  }

  /** With all shards candidates a striped packet goes to one than which none is lighter. */
  lemma StripedShard(c: Config, s: State, key: Key, bytes: nat)
    requires Sane(c, s) && StripesEverywhere(c) && Routed(c, s, key, bytes).0.kind.StripedFlow?
    ensures var shard := Routed(c, s, key, bytes).0.shard;
            shard < c.topology.count
            && forall j :: 0 <= j < c.topology.count ==> !Lighter(LoadOf(s.metrics, j), LoadOf(s.metrics, shard))
  {
    hide Tables.Valid, Conserves, TrackOk, NewTopology, ChooseForStripedFlow, LoadOf, Installed;
    InstalledIsOk(c, s, key);
    var owner := Installed(c, s, key).entries[key];
    StripedGoesToTheLightest(c, s.metrics, key, s.sequence, owner.shard);
    var shard := ChooseForStripedFlow(c, s.metrics, key, s.sequence, owner.shard);
    forall j | 0 <= j < c.topology.count
      ensures !Lighter(LoadOf(s.metrics, j), LoadOf(s.metrics, shard))
    {
      assert AllShards(c.topology.count)[j] == j;
    }
  }

  lemma ShardBytes(m: Metrics, r: Route, bytes: nat)
    requires Conserves(m) && r.shard < |m.shards|
    ensures var after := ObserveRoute(m, r, bytes);
            && |after.shards| == |m.shards|
            && forall i :: 0 <= i < |m.shards| ==>
                 after.shards[i].bytes == m.shards[i].bytes + if i == r.shard then bytes else 0
  {
    hide Sum, TrackFlow, FlowAddsUp, Load.Splits;
    assert FlowsAddUp(m.flows);
    var counted := m.(total := Count(m.total, r.kind, r.reason, bytes),
                      shards := m.shards[r.shard := Count(m.shards[r.shard], r.kind, r.reason, bytes)]);
    if r.flow.Some? {
      TrackFlowAddsUp(counted, r.flow.value, r.shard, bytes, r.kind.StripedFlow?);
    }
  }

  predicate AllStriped(c: Config, s: State, packets: seq<Packet>)
    requires Sane(c, s)
    decreases |packets|
  {
    packets == []
    || (RoutePacket(c, s, packets[0]).0.kind.StripedFlow?
        && (PacketKeeps(c, s, packets[0]); AllStriped(c, RoutePacket(c, s, packets[0]).1, packets[1..])))
  }

  /** While every packet is striped over all shards, they stay within the larger of the first spread and the largest packet. */
  lemma {:induction false} SpreadIsBounded(c: Config, s: State, packets: seq<Packet>, spread: nat)
    requires Sane(c, s) && StripesEverywhere(c) && SpreadWithin(s.metrics, spread) && AllStriped(c, s, packets)
    requires forall i :: 0 <= i < |packets| ==> packets[i].bytes <= spread
    ensures SpreadWithin(AfterAll(c, s, packets).metrics, spread)
    decreases |packets|
  {
    if packets != [] {
      hide RoutePacket, Sane, SpreadWithin;
      PacketKeeps(c, s, packets[0]);
      StripedSpread(c, s, packets[0], spread);
      SpreadIsBounded(c, RoutePacket(c, s, packets[0]).1, packets[1..], spread);
    }
  }
}
