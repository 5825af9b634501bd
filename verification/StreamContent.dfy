/** All stored streams, within one bound on their number and one on their bytes. */
module StreamContents {
  import opened Bytes
  import opened ContentRecords
  import Sums = MapSums

  const EVICTION_INTERVAL_PACKETS := 16_384

  datatype Config = Config(
    enabled: bool, maxStreams: nat, idleTimeoutMs: nat,
    maxTotalBytes: nat, maxBytesPerStream: nat, maxSegmentBytes: nat)
  {
    function Normalized(): Config {
      if !enabled || maxTotalBytes == 0 || maxBytesPerStream == 0 then DISABLED
      else
        var perStream := Max(Min(maxBytesPerStream, maxTotalBytes), 1);
        Config(true, Max(maxStreams, 1), idleTimeoutMs, maxTotalBytes, perStream, Max(Min(maxSegmentBytes, perStream), 1))
    }

    /** What the eviction loops rely on. */
    predicate Bounded() {
      enabled ==> 0 < maxStreams && 0 < maxSegmentBytes <= maxBytesPerStream <= maxTotalBytes
    }

    function Limits(): ContentRecords.Limits { ContentRecords.Limits(maxSegmentBytes, maxBytesPerStream) }
  }

  const DISABLED := Config(false, 0, 0, 0, 0, 0)

  lemma NormalizedIsBounded(config: Config)
    ensures config.Normalized().Bounded()
    ensures config.Bounded() && config.enabled ==> config.Normalized() == config
    ensures config.Normalized().enabled <==> config.enabled && config.maxTotalBytes > 0 && config.maxBytesPerStream > 0
  {
  }

  // ---------------------------------------------------------------------
  // Sums over all streams

  function StoredOf(r: Record): nat { r.Stored() }

  ghost function StoredIn<K(!new)>(streams: map<K, Record>): nat {
    Sums.Total(streams, StoredOf)
  }

  lemma StoredWithout<K(!new)>(streams: map<K, Record>, key: K)
    requires key in streams
    ensures StoredIn(streams) == streams[key].Stored() + StoredIn(streams - {key})
  {
    hide Sums.Total;
    Sums.TotalWithout(streams, StoredOf, key);
  }

  lemma StoredWith<K(!new)>(streams: map<K, Record>, key: K, record: Record)
    ensures StoredIn(streams[key := record])
            == StoredIn(streams) + record.Stored() - if key in streams then streams[key].Stored() else 0
  {
    hide Sums.Total;
    Sums.TotalWith(streams, StoredOf, key, record);
  }

  /** Fewer streams store no more. */
  lemma {:induction false} StoredInMore<K(!new)>(some: map<K, Record>, all: map<K, Record>)
    requires forall key :: key in some ==> key in all && all[key] == some[key]
    ensures StoredIn(some) <= StoredIn(all)
    decreases |all|
  {
    hide StoredIn, Record.Stored;
    if some != all {
      var key :| key in all && key !in some;
      StoredWithout(all, key);
      Sums.OneFewer(all, key);
      StoredInMore(some, all - {key});
    }
  }

  /** The only stream there is stores all there is. */
  lemma StoredInOne<K(!new)>(streams: map<K, Record>, key: K)
    requires key in streams && |streams| <= 1
    ensures StoredIn(streams) == streams[key].Stored()
  {
    StoredWithout(streams, key);
    assert |streams - {key}| == 0;
  }

  // ---------------------------------------------------------------------
  // Every stream on its own

  /** Each stream is the tail of what it was given and keeps to its bound. */
  ghost predicate AllRefine<K(!new)>(streams: map<K, Record>, histories: map<K, Histories>, config: Config) {
    && histories.Keys == streams.Keys
    && forall key :: key in streams ==>
         && RecordRefines(streams[key], histories[key], config.maxSegmentBytes)
         && streams[key].Stored() <= config.maxBytesPerStream
  }

  lemma AllRefineWith<K(!new)>(
    streams: map<K, Record>, histories: map<K, Histories>, config: Config, key: K, record: Record, history: Histories)
    requires AllRefine(streams, histories, config)
    requires RecordRefines(record, history, config.maxSegmentBytes) && record.Stored() <= config.maxBytesPerStream
    ensures AllRefine(streams[key := record], histories[key := history], config)
  {
    hide RecordRefines, Record.Stored;
  }

  lemma AllRefineWithout<K(!new)>(streams: map<K, Record>, histories: map<K, Histories>, config: Config, key: K)
    requires AllRefine(streams, histories, config)
    ensures AllRefine(streams - {key}, histories - {key}, config)
  {
    hide RecordRefines, Record.Stored;
  }

  lemma AllRefineAt<K(!new)>(streams: map<K, Record>, histories: map<K, Histories>, config: Config, key: K)
    requires AllRefine(streams, histories, config) && key in streams
    ensures key in histories && RecordRefines(streams[key], histories[key], config.maxSegmentBytes)
    ensures streams[key].Stored() <= config.maxBytesPerStream
  {
    hide RecordRefines, Record.Stored;
  }

  // ---------------------------------------------------------------------
  // Which streams go

  predicate Idle(r: Record, now: nat, config: Config) {
    SaturatingSub(now, r.lastSeen) > config.idleTimeoutMs * 1_000
  }

  function NotIdle<K(==)>(streams: map<K, Record>, now: nat, config: Config): map<K, Record> {
    map key | key in streams && !Idle(streams[key], now, config) :: streams[key]
  }

  /** No stream but the spared one was seen before this one. */
  ghost predicate Oldest<K(!new)>(streams: map<K, Record>, key: K, spared: Option<K>) {
    && key in streams && Some(key) != spared
    && forall other :: other in streams && Some(other) != spared ==> streams[key].lastSeen <= streams[other].lastSeen
  }

  /** With room nothing goes; with a full table the idle streams go, and one more if it is still full. */
  ghost predicate MadeRoom<K(!new)>(before: map<K, Record>, after: map<K, Record>, now: nat, config: Config) {
    if |before| < config.maxStreams then after == before
    else
      var kept := NotIdle(before, now, config);
      if |kept| < config.maxStreams then after == kept
      else exists gone :: Oldest(kept, gone, None) && after == kept - {gone}
  }

  /** Room is made for a stream that is not known, and it starts empty. */
  ghost predicate Ensured<K(!new)>(before: map<K, Record>, after: map<K, Record>, key: K, now: nat, config: Config) {
    if key in before then after == before
    else key in after && after[key] == New(now) && MadeRoom(before, after - {key}, now, config)
  }

  /**
   The total is within its bound, the oldest streams went first, the current one
   is spared, and with the last that went the total would not be within its bound.
   */
  ghost predicate Limited<K(!new)>(before: map<K, Record>, after: map<K, Record>, current: K, config: Config) {
    && StoredIn(after) <= config.maxTotalBytes
    && current in after
    && (forall key :: key in after ==> key in before && after[key] == before[key])
    && (after != before ==> exists last :: WentLast(before, after, current, last, config))
  }

  /** A flow was given a stream, the stream its new record, and then the total was brought within its bound. */
  ghost predicate TookIn<K(!new)>(
    before: map<K, Record>, after: map<K, Record>, key: K, record: Record, now: nat, config: Config)
  {
    exists ensured: map<K, Record> ::
      Ensured(before, ensured, key, now, config) && Limited(ensured[key := record], after, key, config)
  }

  ghost predicate WentLast<K(!new)>(
    before: map<K, Record>, after: map<K, Record>, current: K, last: K, config: Config)
  {
    && last in before && last !in after
    && StoredIn(after) + before[last].Stored() > config.maxTotalBytes
    && (forall gone :: gone in before && gone !in after ==> before[gone].lastSeen <= before[last].lastSeen)
    && (forall kept :: kept in after && kept in before && kept != current ==>
          before[last].lastSeen <= before[kept].lastSeen)
  }

  // ---------------------------------------------------------------------

  /** A flow's payload: the ordered chunks of a TCP stream, or what one datagram carries. */
  datatype Flow = Tcp(chunks: seq<Chunk>) | Datagram(direction: Direction, bytes: seq<byte>) {
    predicate HasContent() { if Tcp? then chunks != [] else bytes != [] }

    function Chunks(): seq<Chunk> { if Tcp? then chunks else [Chunk(direction, None, bytes)] }
  }

  class StreamContent<K(==, !new)> {
    const config: Config
    var streams: map<K, Record>
    var observedPackets: nat
    var storedBytes: nat
    var observedBytes: nat
    var droppedBytes: nat
    var evictedStreams: nat
    var truncatedStreams: nat
    var updates: nat
    var mergedSegments: nat
    /** Everything each present stream was given since it was created. */
    ghost var histories: map<K, Histories>
    /** How many streams were ever created. */
    ghost var created: nat

    constructor (config: Config)
      ensures this.config == config.Normalized() && Valid() && streams == map[] && observedPackets == 0
      ensures observedBytes == droppedBytes == evictedStreams == truncatedStreams == updates == mergedSegments == 0
    {
      this.config := config.Normalized();
      streams, histories, created := map[], map[], 0;
      observedPackets, storedBytes, observedBytes, droppedBytes := 0, 0, 0, 0;
      evictedStreams, truncatedStreams, updates, mergedSegments := 0, 0, 0, 0;
      new;
      NormalizedIsBounded(config);
    }

    /** Each stream is the tail of its history and within its bound, and every byte is accounted for. */
    ghost predicate Sound()
      reads this
    {
      && config.Bounded()
      && AllRefine(streams, histories, config)
      && storedBytes == StoredIn(streams)
      && observedBytes == storedBytes + droppedBytes
      && created == |streams| + evictedStreams
    }

    ghost predicate Valid()
      reads this
    {
      Sound() && |streams| <= config.maxStreams && storedBytes <= config.maxTotalBytes
    }

    /**
     Takes in what a packet brought for a flow: when it is time the idle streams go,
     the flow gets a stream if it has none, that stream takes in exactly the update of
     its record, and the oldest others go as far as the total exceeds its bound.
     */
    method ObserveFlow(key: K, flow: Flow, now: nat) returns (update: Option<Update>)
      requires Valid()
      modifies this
      ensures Valid()
      ensures !config.enabled || !flow.HasContent() ==> update == None && streams == old(streams)
      ensures config.enabled && flow.HasContent() ==>
                && key in streams
                && var due := old(observedPackets + 1) % EVICTION_INTERVAL_PACKETS == 0;
                   var current := if due then NotIdle(old(streams), now, config) else old(streams);
                   var before := if key in current then current[key] else New(now);
                   var (after, did) := ObserveAll(before.(lastSeen := now), flow.Chunks(), now, config.Limits());
                   && streams[key] == after
                   && update == (if did.ranges == [] then None else Some(did))
                   && TookIn(current, streams, key, after, now, config)
                   && (key in current || |current| < config.maxStreams ==>
                         StoredIn(current[key := after]) <= config.maxTotalBytes ==> streams == current[key := after])
      ensures forall other :: other in streams && other != key ==>
                other in old(streams) && streams[other] == old(streams)[other]
      ensures update.Some? ==> update.value.observed == TotalBytes(flow.Chunks())
      ensures config.enabled && flow.HasContent() ==> (update.None? <==> TotalBytes(flow.Chunks()) == 0)
      ensures updates == old(updates) + if update.None? then 0 else 1
      ensures mergedSegments == old(mergedSegments) + if update.None? then 0 else update.value.merged
      ensures truncatedStreams == old(truncatedStreams) + if update.Some? && update.value.newlyTruncated then 1 else 0
      ensures observedBytes == old(observedBytes) + if update.None? then 0 else update.value.observed
    {
      hide ObserveAll, AllRefine, Record.Stored, TotalBytes, Flow.Chunks, StoredIn, Ensured, Limited, TookIn, New, NotIdle;
      if !config.enabled || !flow.HasContent() {
        return None;
      }
      observedPackets := observedPackets + 1;
      if observedPackets % EVICTION_INTERVAL_PACKETS == 0 {
        EvictIdle(now);
      }
      ghost var current := streams;
      NotIdleHas(old(streams), now, config);
      EnsureStream(key, now);
      ghost var ensured := streams;
      EnsuredHas(current, ensured, key, now, config);
      update := Extend(key, flow.Chunks(), now);
      ghost var grown := streams;
      EnforceGlobalLimit(key);
      IsTookIn(current, ensured, streams, key, grown[key], now, config);
    }

    static lemma NotIdleHas(streams: map<K, Record>, now: nat, config: Config)
      ensures forall key :: key in NotIdle(streams, now, config) ==>
                key in streams && NotIdle(streams, now, config)[key] == streams[key]
    {
    }

    /** A stream that is there after room was made is the flow's own or as it was. */
    static lemma EnsuredHas(before: map<K, Record>, after: map<K, Record>, key: K, now: nat, config: Config)
      requires Ensured(before, after, key, now, config)
      ensures key in after && after[key] == if key in before then before[key] else New(now)
      ensures key in before ==> after == before
      ensures forall other :: other in after && other != key ==> other in before && after[other] == before[other]
      ensures key !in before && |before| < config.maxStreams ==> after == before[key := New(now)]
    {
      hide New;
      if key !in before {
        assert after == (after - {key})[key := New(now)];
        forall other | other in after && other != key
          ensures other in before && after[other] == before[other]
        {
          assert other in after - {key};
        }
      }
    }

    /** Every other stream stays as it was unless it goes, and with room and within the bound none goes. */
    static lemma IsTookIn(
      before: map<K, Record>, ensured: map<K, Record>, after: map<K, Record>,
      key: K, record: Record, now: nat, config: Config)
      requires Ensured(before, ensured, key, now, config) && Limited(ensured[key := record], after, key, config)
      ensures TookIn(before, after, key, record, now, config)
      ensures key in after && after[key] == record
      ensures forall other :: other in after && other != key ==> other in before && after[other] == before[other]
      ensures key in before || |before| < config.maxStreams ==>
                StoredIn(before[key := record]) <= config.maxTotalBytes ==> after == before[key := record]
    {
      hide New, Ensured, StoredIn, Record.Stored;
      EnsuredHas(before, ensured, key, now, config);
      LimitedKeeps(ensured[key := record], after, key, config);
      if key !in before && |before| < config.maxStreams {
        assert ensured[key := record] == before[key := record];
      }
    }

    /** Nothing goes while the total is within its bound. */
    static lemma LimitedKeeps(before: map<K, Record>, after: map<K, Record>, current: K, config: Config)
      requires Limited(before, after, current, config)
      ensures StoredIn(before) <= config.maxTotalBytes ==> after == before
    {
      hide StoredIn, Record.Stored;
      if after != before {
        var last :| WentLast(before, after, current, last, config);
        StoredWithout(before, last);
        StoredInMore(after, before - {last});
      }
    }

    /** The part of an observation that touches the flow's own stream. */
    method Extend(key: K, chunks: seq<Chunk>, now: nat) returns (update: Option<Update>)
      requires Valid() && config.enabled && key in streams
      modifies this
      ensures Sound() && |streams| <= config.maxStreams
      ensures streams == old(streams)[key := ObserveAll(old(streams)[key].(lastSeen := now), chunks, now, config.Limits()).0]
      ensures var did := ObserveAll(old(streams)[key].(lastSeen := now), chunks, now, config.Limits()).1;
              update == if did.ranges == [] then None else Some(did)
      ensures observedBytes == old(observedBytes) + TotalBytes(chunks)
      ensures update.None? <==> TotalBytes(chunks) == 0
      ensures update.None? ==> storedBytes == old(storedBytes)
      ensures update.Some? ==> update.value.observed == TotalBytes(chunks)
      ensures updates == old(updates) + if update.None? then 0 else 1
      ensures mergedSegments == old(mergedSegments) + if update.None? then 0 else update.value.merged
      ensures truncatedStreams == old(truncatedStreams) + if update.Some? && update.value.newlyTruncated then 1 else 0
    {
      hide ObserveAll, RecordRefines, AllRefine, GrownAll, TotalBytes, Record.Stored, StoredIn;
      AllRefineAt(streams, histories, config, key);
      var seen := streams[key].(lastSeen := now);
      var observed := ObserveAll(seen, chunks, now, config.Limits());
      SeenRefines(streams[key], histories[key], now, config.maxSegmentBytes);
      ObserveAllKeeps(seen, histories[key], chunks, now, config.Limits());
      AllRefineWith(streams, histories, config, key, observed.0, GrownAll(histories[key], chunks));
      StoredWith(streams, key, observed.0);
      Sums.SameSize(streams, key, observed.0);
      streams := streams[key := observed.0];
      histories := histories[key := GrownAll(histories[key], chunks)];
      update := Some(observed.1);
      if observed.1.ranges == [] {
        NothingToObserve(seen, chunks, now, config.Limits());
        return None;
      }
      storedBytes := SaturatingSub(storedBytes + observed.1.stored, observed.1.trimmed);
      observedBytes := observedBytes + observed.1.observed;
      droppedBytes := droppedBytes + observed.1.trimmed;
      updates := updates + 1;
      mergedSegments := mergedSegments + observed.1.merged;
      if observed.1.newlyTruncated {
        truncatedStreams := truncatedStreams + 1;
      }
    }

    static lemma SeenRefines(r: Record, h: Histories, now: nat, max: nat)
      requires RecordRefines(r, h, max)
      ensures RecordRefines(r.(lastSeen := now), h, max) && r.(lastSeen := now).Stored() == r.Stored()
    {
    }

    method EnsureStream(key: K, now: nat)
      requires Valid() && config.enabled
      modifies `streams, `histories, `storedBytes, `droppedBytes, `evictedStreams, `created
      ensures Valid() && key in streams
      ensures observedBytes == old(observedBytes)
      ensures Ensured(old(streams), streams, key, now, config)
    {
      hide AllRefine, New, Record.Stored, StoredIn;
      if key in streams {
        return;
      }
      if |streams| >= config.maxStreams {
        EvictIdle(now);
        if |streams| >= config.maxStreams {
          MapHasKey(streams);
          var evicted := EvictOldest(None);
        }
      }
      ghost var room := streams;
      Insert(key, now);
      assert streams - {key} == room;
    }

    static lemma MapHasKey(streams: map<K, Record>)
      requires |streams| > 0
      ensures exists key :: key in streams && Some(key) != None
    {
      var key :| key in streams.Keys;
    }

    method Insert(key: K, now: nat)
      requires Valid() && config.enabled && key !in streams && |streams| < config.maxStreams
      modifies `streams, `histories, `storedBytes, `droppedBytes, `evictedStreams, `created
      ensures Valid() && streams == old(streams)[key := New(now)]
      ensures observedBytes == old(observedBytes)
    {
      hide AllRefine, New, Record.Stored, StoredIn, RecordRefines;
      StoredWith(streams, key, New(now));
      NewRefines(now, config.maxSegmentBytes);
      AllRefineWith(streams, histories, config, key, New(now), Histories([], []));
      streams := streams[key := New(now)];
      histories := histories[key := Histories([], [])];
      created := created + 1;
    }

    static lemma NewRefines(now: nat, max: nat)
      ensures RecordRefines(New(now), Histories([], []), max) && New(now).Stored() == 0
    {
    }

    /** Removes exactly the streams not seen for longer than the timeout. */
    method EvictIdle(now: nat)
      requires Sound()
      modifies `streams, `histories, `storedBytes, `droppedBytes, `evictedStreams
      ensures Sound() && storedBytes <= old(storedBytes) && observedBytes == old(observedBytes)
      ensures |streams| <= |old(streams)|
      ensures streams == NotIdle(old(streams), now, config)
    {
      hide AllRefine, Record.Stored, StoredIn;
      var expired := set key | key in streams && Idle(streams[key], now, config);
      while expired != {}
        invariant Sound() && storedBytes <= old(storedBytes) && observedBytes == old(observedBytes)
        invariant |streams| <= |old(streams)|
        invariant expired <= streams.Keys <= old(streams).Keys
        invariant forall key :: key in streams ==> streams[key] == old(streams)[key]
        invariant forall key :: key in old(streams) && key !in streams ==> Idle(old(streams)[key], now, config)
        invariant forall key :: key in streams ==> (key in expired <==> Idle(streams[key], now, config))
        decreases |expired|
      {
        var key :| key in expired;
        RemoveStream(key);
        expired := expired - {key};
      }
    }

    /**
     Evicts the least recently seen streams, but never the current one, until
     the total fits. It can always go on: a stream on its own fits.
     */
    method EnforceGlobalLimit(current: K)
      requires Sound() && config.enabled && current in streams
      modifies `streams, `histories, `storedBytes, `droppedBytes, `evictedStreams
      ensures Sound() && storedBytes <= config.maxTotalBytes && observedBytes == old(observedBytes)
      ensures |streams| <= |old(streams)| && Limited(old(streams), streams, current, config)
    {
      hide AllRefine, Record.Stored, StoredIn;
      while storedBytes > config.maxTotalBytes
        invariant Sound() && current in streams && observedBytes == old(observedBytes)
        invariant |streams| <= |old(streams)|
        invariant forall key :: key in streams ==> key in old(streams) && streams[key] == old(streams)[key]
        invariant streams == old(streams) || exists last :: WentLast(old(streams), streams, current, last, config)
        decreases |streams|
      {
        if |streams| <= 1 {
          StoredInOne(streams, current);
          AllRefineAt(streams, histories, config, current);
        } else {
          Another(streams, current);
        }
        var except := if |streams| > 1 then Some(current) else None;
        ghost var before := streams;
        ghost var total := storedBytes;
        var evicted := EvictOldest(except);
        if !evicted {
          break;
        }
        ghost var gone :| gone in before && Oldest(before, gone, except) && streams == before - {gone};
        StoredWithout(before, gone);
        assert WentLast(old(streams), streams, current, gone, config);
      }
    }

    static lemma Another(streams: map<K, Record>, current: K)
      requires |streams| > 1
      ensures exists key :: key in streams && key != current
    {
      var others := streams.Keys - {current};
      assert |others| >= |streams.Keys| - 1 by {
        assert if current in streams then streams.Keys == others + {current} else streams.Keys == others;
      }
      var key :| key in others;
    }

    /** Removes one stream seen no later than any other but the excepted one; false if there is none. */
    method EvictOldest(except: Option<K>) returns (evicted: bool)
      requires Sound()
      modifies `streams, `histories, `storedBytes, `droppedBytes, `evictedStreams
      ensures Sound() && observedBytes == old(observedBytes)
      ensures evicted <==> exists key :: key in old(streams) && Some(key) != except
      ensures !evicted ==> streams == old(streams) && storedBytes == old(storedBytes)
      ensures evicted ==>
                && |streams| == |old(streams)| - 1 && storedBytes <= old(storedBytes)
                && exists key :: Oldest(old(streams), key, except) && streams == old(streams) - {key}
    {
      hide AllRefine, Record.Stored, StoredIn;
      var candidates := set key | key in streams && Some(key) != except;
      if candidates == {} {
        forall key | key in streams
          ensures Some(key) == except
        {
          assert key !in candidates;
        }
        return false;
      }
      var key := OldestOf(candidates);
      RemoveStream(key);
      assert streams == old(streams) - {key};
      return true;
    }

    method OldestOf(candidates: set<K>) returns (oldest: K)
      requires candidates != {} && candidates <= streams.Keys
      ensures oldest in candidates
      ensures forall key :: key in candidates ==> streams[oldest].lastSeen <= streams[key].lastSeen
    {
      oldest :| oldest in candidates;
      var left := candidates - {oldest};
      while left != {}
        invariant oldest in candidates && left <= candidates
        invariant forall key :: key in candidates && key !in left ==> streams[oldest].lastSeen <= streams[key].lastSeen
        decreases |left|
      {
        var key :| key in left;
        left := left - {key};
        if streams[key].lastSeen < streams[oldest].lastSeen {
          oldest := key;
        }
      }
    }

    method RemoveStream(key: K)
      requires Sound()
      modifies `streams, `histories, `storedBytes, `droppedBytes, `evictedStreams
      ensures Sound() && observedBytes == old(observedBytes)
      ensures streams == old(streams) - {key}
      ensures key in old(streams) ==>
                && |streams| == |old(streams)| - 1
                && evictedStreams == old(evictedStreams) + 1
                && storedBytes == old(storedBytes) - old(streams)[key].Stored()
    {
      hide AllRefine, Record.Stored, StoredIn;
      if key !in streams {
        return;
      }
      var stored := streams[key].Stored();
      StoredWithout(streams, key);
      Sums.OneFewer(streams, key);
      AllRefineWithout(streams, histories, config, key);
      streams := streams - {key};
      histories := histories - {key};
      storedBytes := SaturatingSub(storedBytes, stored);
      droppedBytes := droppedBytes + stored;
      evictedStreams := evictedStreams + 1;
    }
  }
}
