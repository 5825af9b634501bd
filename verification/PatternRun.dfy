/**
 Runs of the stream store and the pattern engine: the packets of many streams are
 stored and scanned one after the other, and streams are evicted and start anew.
 */
module PatternRuns {
  import opened Bytes
  import C = ContentDirection
  import opened ContentRecords
  import opened PatternScan
  import opened PatternEngines
  import Store = StreamContents

  /** What one packet brings to a stream; `anew` says that the store starts the stream anew with it. */
  datatype Arrival = Arrival(stream: nat, seen: Observation, anew: bool)

  /** The record of a stream, or that of a stream that has none yet. */
  function RecordOf(records: map<nat, Record>, stream: nat): Record {
    if stream in records then records[stream] else New(0)
  }

  function Before(records: map<nat, Record>, a: Arrival): Record {
    if a.anew then New(0) else RecordOf(records, a.stream)
  }

  /** The matches for which the engine asks over a run, as often as it does. */
  function Asked(
    patterns: Patterns, regexWindow: nat, records: map<nat, Record>, arrivals: seq<Arrival>, limits: Limits)
    : multiset<Key>
    requires limits.segment > 0
    decreases |arrivals|
  {
    if arrivals == [] then multiset{}
    else
      var a := arrivals[0];
      var (after, update) := ObserveAll(Before(records, a), a.seen.chunks, a.seen.now, limits);
      multiset(Wanted(patterns, regexWindow, a.stream, after, update.ranges))
      + Asked(patterns, regexWindow, records[a.stream := after], arrivals[1..], limits)
  }

  /** What came to one stream, life by life: first what it goes on with, then what comes each time it starts anew. */
  function Lives(arrivals: seq<Arrival>, stream: nat): (lives: seq<seq<Observation>>)
    ensures lives != []
    decreases |arrivals|
  {
    if arrivals == [] then [[]]
    else
      var a, lives := arrivals[0], Lives(arrivals[1..], stream);
      if a.stream != stream then lives
      else (if a.anew then [[]] else []) + [[a.seen] + lives[0]] + lives[1..]
  }

  /** How often the scans of each life find a match. */
  function FoundInLives(
    m: Match, patterns: Patterns, regexWindow: nat, first: Record, lives: seq<seq<Observation>>, limits: Limits,
    d: Direction): nat
    requires limits.segment > 0 && lives != []
    decreases |lives|
  {
    FoundInRun(m, patterns, regexWindow, first, lives[0], limits, d)
    + if |lives| == 1 then 0 else FoundInLives(m, patterns, regexWindow, New(0), lives[1..], limits, d)
  }

  /**
   In how many lives a match is an occurrence that has ended by now and whose start
   was still kept when its end came in.
   */
  ghost function OccurrencesIn(
    m: Match, patterns: Patterns, first: Record, h: Histories, lives: seq<seq<Observation>>, limits: Limits, d: Direction)
    : nat
    requires limits.segment > 0 && lives != []
    decreases |lives|
  {
    (if && Occurs(m, patterns, C.Data(HistoryAfter(h, lives[0]).Of(d)))
        && first.Of(d).next < m.end && BaseWhenSeen(first, lives[0], limits, d, m.end) <= m.start then 1 else 0)
    + if |lives| == 1 then 0 else OccurrencesIn(m, patterns, New(0), NO_HISTORY, lives[1..], limits, d)
  }

  const NO_HISTORY := Histories([], [])

  /** All records are what their histories leave of them. */
  predicate AllRefine(records: map<nat, Record>, histories: map<nat, Histories>, limits: Limits) {
    && histories.Keys == records.Keys
    && forall id :: id in records ==>
         RecordRefines(records[id], histories[id], limits.segment) && records[id].Stored() <= limits.stream
  }

  function HistoryOf(histories: map<nat, Histories>, stream: nat): Histories {
    if stream in histories then histories[stream] else NO_HISTORY
  }

  /** The ranges of one update find a match once or not at all. */
  lemma FoundOnce(
    m: Match, patterns: Patterns, regexWindow: nat, r: Record, h: Histories, seen: Observation, limits: Limits, d: Direction)
    requires NonEmpty(patterns) && limits.segment > 0
    requires RecordRefines(r, h, limits.segment) && r.Stored() <= limits.stream
    ensures var (after, u) := ObserveAll(r, seen.chunks, seen.now, limits);
            Found(m, patterns, regexWindow, after.Of(d), RangesIn(u.ranges, d)) <= 1
  {
    hide ObserveAll, GrownAll, Found, C.Chain, C.Data, RangesIn, EndToEnd, Expected, NonEmpty;
    var (after, u) := ObserveAll(r, seen.chunks, seen.now, limits);
    ObserveAllKeeps(r, h, seen.chunks, seen.now, limits);
    ObservationReports(r, h, seen.chunks, seen.now, limits, d);
    UpdateFinds(m, patterns, regexWindow, after.Of(d), GrownAll(h, seen.chunks).Of(d), limits.segment,
                RangesIn(u.ranges, d), r.Of(d).next, after.Of(d).next);
  }

  /** A record that nothing was stored in yet. */
  lemma NewRefines(limits: Limits)
    ensures RecordRefines(New(0), NO_HISTORY, limits.segment) && New(0).Stored() == 0
  {
  }

  lemma BeforeRefines(records: map<nat, Record>, histories: map<nat, Histories>, a: Arrival, limits: Limits)
    requires limits.segment > 0 && AllRefine(records, histories, limits)
    ensures var h := if a.anew then NO_HISTORY else HistoryOf(histories, a.stream);
            var r := Before(records, a);
            && RecordRefines(r, h, limits.segment) && r.Stored() <= limits.stream
            && AllRefine(records[a.stream := ObserveAll(r, a.seen.chunks, a.seen.now, limits).0],
                         histories[a.stream := GrownAll(h, a.seen.chunks)], limits)
  {
    hide ObserveAll, GrownAll, RecordRefines, Record.Stored, New;
    NewRefines(limits);
    ObserveAllKeeps(Before(records, a), if a.anew then NO_HISTORY else HistoryOf(histories, a.stream), a.seen.chunks,
                    a.seen.now, limits);
  }

  lemma {:induction false} AskedFirst(
    patterns: Patterns, regexWindow: nat, records: map<nat, Record>, arrivals: seq<Arrival>, limits: Limits)
    requires limits.segment > 0 && arrivals != []
    ensures var a := arrivals[0];
            var (after, update) := ObserveAll(Before(records, a), a.seen.chunks, a.seen.now, limits);
            Asked(patterns, regexWindow, records, arrivals, limits)
            == multiset(Wanted(patterns, regexWindow, a.stream, after, update.ranges))
               + Asked(patterns, regexWindow, records[a.stream := after], arrivals[1..], limits)
  {
    hide ObserveAll, Wanted, Before;
  }

  /** What the first arrival adds to what is found in a stream's lives. */
  lemma {:induction false} LivesFirst(
    m: Match, patterns: Patterns, regexWindow: nat, first: Record, arrivals: seq<Arrival>, stream: nat, limits: Limits,
    d: Direction)
    requires limits.segment > 0 && arrivals != []
    ensures var a, rest := arrivals[0], Lives(arrivals[1..], stream);
            var (after, u) := ObserveAll(if a.anew then New(0) else first, a.seen.chunks, a.seen.now, limits);
            FoundInLives(m, patterns, regexWindow, first, Lives(arrivals, stream), limits, d)
            == if a.stream != stream then FoundInLives(m, patterns, regexWindow, first, rest, limits, d)
               else Found(m, patterns, regexWindow, after.Of(d), RangesIn(u.ranges, d))
                    + FoundInLives(m, patterns, regexWindow, after, rest, limits, d)
  {
    hide ObserveAll, Found, RangesIn, Lives, New, Record.Of;
    var a, rest := arrivals[0], Lives(arrivals[1..], stream);
    NextLife(arrivals, stream);
    if a.stream == stream {
      var start := if a.anew then New(0) else first;
      var life := [a.seen] + rest[0];
      assert life[1..] == rest[0];
      var lives := [life] + rest[1..];
      assert lives[1..] == rest[1..];
      if a.anew {
        assert ([[]] + lives)[1..] == lives;
        assert FoundInRun(m, patterns, regexWindow, first, [], limits, d) == 0;
      }
    }
  }

  lemma {:induction false} NextLife(arrivals: seq<Arrival>, stream: nat)
    requires arrivals != []
    ensures var a, rest := arrivals[0], Lives(arrivals[1..], stream);
            Lives(arrivals, stream)
            == if a.stream != stream then rest
               else if a.anew then [[]] + ([[a.seen] + rest[0]] + rest[1..]) else [[a.seen] + rest[0]] + rest[1..]
  {
    var a, rest := arrivals[0], Lives(arrivals[1..], stream);
    assert [] + [[a.seen] + rest[0]] + rest[1..] == [[a.seen] + rest[0]] + rest[1..];
    assert [[]] + [[a.seen] + rest[0]] + rest[1..] == [[]] + ([[a.seen] + rest[0]] + rest[1..]);
  }

  /** A match is asked for just as often as the scans of its own stream's lives find it. */
  lemma {:induction false} AskedIsFound(
    key: Key, patterns: Patterns, regexWindow: nat,
    records: map<nat, Record>, histories: map<nat, Histories>, arrivals: seq<Arrival>, limits: Limits)
    requires NonEmpty(patterns) && limits.segment > 0 && AllRefine(records, histories, limits)
    ensures Asked(patterns, regexWindow, records, arrivals, limits)[key]
            == FoundInLives(key.match_, patterns, regexWindow, RecordOf(records, key.stream), Lives(arrivals, key.stream),
                            limits, key.direction)
    decreases |arrivals|
  {
    hide *;
    if arrivals != [] {
      var a := arrivals[0];
      var r := Before(records, a);
      var h := if a.anew then NO_HISTORY else HistoryOf(histories, a.stream);
      var (after, u) := ObserveAll(r, a.seen.chunks, a.seen.now, limits);
      AskedFirst(patterns, regexWindow, records, arrivals, limits);
      LivesFirst(key.match_, patterns, regexWindow, RecordOf(records, key.stream), arrivals, key.stream, limits,
                 key.direction);
      BeforeRefines(records, histories, a, limits);
      AskedIsFound(key, patterns, regexWindow, records[a.stream := after], histories[a.stream := GrownAll(h, a.seen.chunks)],
                   arrivals[1..], limits);
      WantedIsFound(patterns, regexWindow, a.stream, after, u.ranges, key);
      FoundOnce(key.match_, patterns, regexWindow, r, h, a.seen, limits, key.direction);
      RecordsNext(records, a, after, key.stream);
    } else {
      NothingFound(key.match_, patterns, regexWindow, records, key.stream, limits, key.direction);
    }
  }

  lemma RecordsNext(records: map<nat, Record>, a: Arrival, after: Record, stream: nat)
    ensures RecordOf(records[a.stream := after], stream) == if a.stream == stream then after else RecordOf(records, stream)
    ensures a.stream == stream ==> Before(records, a) == if a.anew then New(0) else RecordOf(records, stream)
  {
  }

  lemma NothingFound(
    m: Match, patterns: Patterns, regexWindow: nat, records: map<nat, Record>, stream: nat, limits: Limits, d: Direction)
    requires limits.segment > 0
    ensures Asked(patterns, regexWindow, records, [], limits) == multiset{}
    ensures FoundInLives(m, patterns, regexWindow, RecordOf(records, stream), Lives([], stream), limits, d) == 0
  {
  }

  /**
   Over any run over any streams, evicted and started anew as the store does, the
   engine asks for a match once for each life of its stream in which it is an
   occurrence in all that its direction has carried, that has ended by now and whose
   start was still kept when its end came in; and never otherwise.
   */
  lemma {:induction false} EveryOccurrenceAsksOnce(
    key: Key, patterns: Patterns, regexWindow: nat,
    records: map<nat, Record>, histories: map<nat, Histories>, arrivals: seq<Arrival>, limits: Limits)
    requires NonEmpty(patterns) && limits.segment > 0 && AllRefine(records, histories, limits)
    ensures Asked(patterns, regexWindow, records, arrivals, limits)[key]
            == OccurrencesIn(key.match_, patterns, RecordOf(records, key.stream), HistoryOf(histories, key.stream),
                             Lives(arrivals, key.stream), limits, key.direction)
  {
    hide Asked, FoundInLives, RecordRefines, NonEmpty, OccurrencesIn, Lives, Record.Of, Record.Stored, New;
    AskedIsFound(key, patterns, regexWindow, records, histories, arrivals, limits);
    NewRefines(limits);
    FoundIsOccurrences(key.match_, patterns, regexWindow, RecordOf(records, key.stream), HistoryOf(histories, key.stream),
                       Lives(arrivals, key.stream), limits, key.direction);
  }

  lemma {:induction false} FoundIsOccurrences(
    m: Match, patterns: Patterns, regexWindow: nat, first: Record, h: Histories, lives: seq<seq<Observation>>,
    limits: Limits, d: Direction)
    requires NonEmpty(patterns) && limits.segment > 0 && lives != []
    requires RecordRefines(first, h, limits.segment) && first.Stored() <= limits.stream
    ensures FoundInLives(m, patterns, regexWindow, first, lives, limits, d)
            == OccurrencesIn(m, patterns, first, h, lives, limits, d)
    decreases |lives|
  {
    hide FoundInRun, RecordRefines, NonEmpty, HistoryAfter, BaseWhenSeen, Occurs, C.Data, Record.Of, Record.Stored, New;
    EveryOccurrenceOnce(m, patterns, regexWindow, first, h, lives[0], limits, d);
    if |lives| > 1 {
      NewRefines(limits);
      FoundIsOccurrences(m, patterns, regexWindow, New(0), NO_HISTORY, lives[1..], limits, d);
    }
  }

  lemma {:induction false} AskedOnce(earlier: seq<Key>, events: seq<Key>, calls: seq<Key>, caps: Caps, wanted: set<Key>)
    requires Accounted(earlier, events, calls, caps, {}, wanted)
    ensures multiset(calls) == multiset(wanted) && earlier + events == Granted(earlier, calls, caps)
  {
    assert wanted - {} == wanted;
  }

  lemma EventsAreCounted(engine: PatternEngine)
    requires engine.Valid()
    ensures engine.patternMatches == |engine.emitted| <= engine.maxTotalMatches
  {
  }

  // ---------------------------------------------------------------------
  // The store and the engine

  /** The same but for when they were last seen. */
  predicate Same(a: Record, b: Record) { a.(lastSeen := b.lastSeen) == b }

  lemma TrimFirst(r: Record, limit: nat)
    ensures TrimToLimit(r, limit)
            == if r.Stored() <= limit || OldestDirection(r).None? then (r, 0)
               else
                 var d, excess := OldestDirection(r).value, r.Stored() - limit;
                 var dropped, cut := C.TrimmedBy(r.Of(d).segments, excess), r.With(d, C.Trim(r.Of(d), excess));
                 if dropped == 0 then (cut, 0)
                 else
                   var rest := TrimToLimit(cut.(truncated := true), limit);
                   (rest.0, dropped + rest.1)
    ensures r.Stored() > limit && OldestDirection(r).Some? ==>
              var d, excess := OldestDirection(r).value, r.Stored() - limit;
              var cut := r.With(d, C.Trim(r.Of(d), excess));
              C.TrimmedBy(r.Of(d).segments, excess) > 0 ==>
                |C.Joined(cut.aToB.segments)| + |C.Joined(cut.bToA.segments)|
                < |C.Joined(r.aToB.segments)| + |C.Joined(r.bToA.segments)|
  {
    hide C.Trim, C.TrimmedBy, C.Joined, OldestDirection;
    if r.Stored() > limit && OldestDirection(r).Some? {
      C.TrimTakes(r.Of(OldestDirection(r).value), r.Stored() - limit);
    }
  }

  lemma SeenAt(r: Record, t: nat, d: Direction, c: C.Content)
    ensures var later := r.(lastSeen := t);
            && later.Stored() == r.Stored() && OldestDirection(later) == OldestDirection(r) && later.Of(d) == r.Of(d)
            && later.With(d, c) == r.With(d, c).(lastSeen := t)
  {
  }

  lemma {:induction false} TrimmedLater(r: Record, limit: nat, t: nat)
    ensures TrimToLimit(r.(lastSeen := t), limit) == (TrimToLimit(r, limit).0.(lastSeen := t), TrimToLimit(r, limit).1)
    decreases |C.Joined(r.aToB.segments)| + |C.Joined(r.bToA.segments)|
  {
    hide *;
    TrimFirst(r, limit);
    TrimFirst(r.(lastSeen := t), limit);
    SeenAt(r, t, AToB, r.aToB);
    if r.Stored() > limit && OldestDirection(r).Some? {
      var d, excess := OldestDirection(r).value, r.Stored() - limit;
      var cut := r.With(d, C.Trim(r.Of(d), excess));
      SeenAt(r, t, d, C.Trim(r.Of(d), excess));
      if C.TrimmedBy(r.Of(d).segments, excess) > 0 {
        TrimmedLater(cut.(truncated := true), limit, t);
      }
    }
  }

  /** When a record was last seen makes no difference to what is observed of it. */
  lemma {:induction false} ObservedLater(r: Record, chunks: seq<Chunk>, now: nat, limits: Limits, t: nat)
    requires limits.segment > 0
    ensures var (after, u) := ObserveAll(r, chunks, now, limits);
            ObserveAll(r.(lastSeen := t), chunks, now, limits) == (after.(lastSeen := t), u)
    decreases |chunks|
  {
    if chunks != [] {
      hide TrimToLimit, C.Append, C.RangesOf, C.MergedBy, Report, Merge;
      var c := r.Of(chunks[0].direction);
      TrimmedLater(r.With(chunks[0].direction, C.Append(c, chunks[0].bytes, chunks[0].sequence, now, limits.segment)),
                   limits.stream, t);
      ObservedLater(Observe(r, chunks[0], now, limits).0, chunks[1..], now, limits, t);
    }
  }

  lemma {:induction false} ObservedSame(a: Record, b: Record, chunks: seq<Chunk>, now: nat, limits: Limits)
    requires limits.segment > 0 && Same(a, b)
    ensures Same(ObserveAll(a, chunks, now, limits).0, ObserveAll(b, chunks, now, limits).0)
    ensures ObserveAll(a, chunks, now, limits).1 == ObserveAll(b, chunks, now, limits).1
  {
    hide ObserveAll;
    ObservedLater(a, chunks, now, limits, b.lastSeen);
    ObservedLater(b, chunks, now, limits, a.lastSeen);
  }

  lemma {:induction false} WantedSame(
    patterns: Patterns, regexWindow: nat, stream: nat, a: Record, b: Record, reported: seq<Reported>)
    requires Same(a, b)
    ensures Wanted(patterns, regexWindow, stream, a, reported) == Wanted(patterns, regexWindow, stream, b, reported)
  {
    if reported != [] {
      hide InRange, Keys;
      WantedSame(patterns, regexWindow, stream, a, b, reported[1..]);
    }
  }

  /** A packet of a flow, which the engine knows by its stream's number. */
  datatype Packet = Packet(stream: nat, flow: Store.Flow, now: nat)

  /** The packets that bring anything, in order. */
  function WithContent(packets: seq<Packet>): seq<Packet> {
    if packets == [] then []
    else WithContent(packets[..|packets| - 1])
         + if packets[|packets| - 1].flow.HasContent() then [packets[|packets| - 1]] else []
  }

  /** The arrivals are the packets that bring anything. */
  predicate AreArrivals(arrivals: seq<Arrival>, packets: seq<Packet>) {
    && |arrivals| == |WithContent(packets)|
    && forall i :: 0 <= i < |arrivals| ==>
         && arrivals[i].stream == WithContent(packets)[i].stream
         && arrivals[i].seen == Observation(WithContent(packets)[i].flow.Chunks(), WithContent(packets)[i].now)
  }

  function RecordsAfter(records: map<nat, Record>, arrivals: seq<Arrival>, limits: Limits): map<nat, Record>
    requires limits.segment > 0
    decreases |arrivals|
  {
    if arrivals == [] then records
    else
      var a := arrivals[0];
      RecordsAfter(records[a.stream := ObserveAll(Before(records, a), a.seen.chunks, a.seen.now, limits).0],
                   arrivals[1..], limits)
  }

  /** What more arrivals ask for goes on from the records that are left. */
  lemma {:induction false} AskedOn(
    patterns: Patterns, regexWindow: nat, records: map<nat, Record>, arrivals: seq<Arrival>, more: seq<Arrival>,
    limits: Limits)
    requires limits.segment > 0
    ensures var known := RecordsAfter(records, arrivals, limits);
            && RecordsAfter(records, arrivals + more, limits) == RecordsAfter(known, more, limits)
            && Asked(patterns, regexWindow, records, arrivals + more, limits)
               == Asked(patterns, regexWindow, records, arrivals, limits) + Asked(patterns, regexWindow, known, more, limits)
    decreases |arrivals|
  {
    hide ObserveAll, Wanted, Before;
    if arrivals == [] {
      assert [] + more == more;
    } else {
      var first := arrivals[0];
      var next := records[first.stream := ObserveAll(Before(records, first), first.seen.chunks, first.seen.now, limits).0];
      assert (arrivals + more)[1..] == arrivals[1..] + more && (arrivals + more)[0] == first;
      AskedOn(patterns, regexWindow, next, arrivals[1..], more, limits);
    }
  }

  /** The store's records are those of the run, as far as they are still there. */
  predicate Mirrors(streams: map<nat, Record>, known: map<nat, Record>) {
    forall id :: id in streams ==> id in known && Same(known[id], streams[id])
  }

  /** What the store does with a packet is what the run says of its arrival. */
  lemma StoreMirrors(
    streams: map<nat, Record>, after: map<nat, Record>, known: map<nat, Record>, a: Arrival, before: Record, limits: Limits)
    requires limits.segment > 0 && Mirrors(streams, known) && a.stream in after
    requires a.anew || a.stream in streams
    requires before == (if a.anew then New(a.seen.now) else streams[a.stream]).(lastSeen := a.seen.now)
    requires after[a.stream] == ObserveAll(before, a.seen.chunks, a.seen.now, limits).0
    requires forall other :: other in after && other != a.stream ==> other in streams && after[other] == streams[other]
    ensures var (r, u) := ObserveAll(Before(known, a), a.seen.chunks, a.seen.now, limits);
            && Mirrors(after, known[a.stream := r]) && Same(r, after[a.stream])
            && u == ObserveAll(before, a.seen.chunks, a.seen.now, limits).1
  {
    hide ObserveAll;
    ObservedSame(Before(known, a), before, a.seen.chunks, a.seen.now, limits);
  }

  /** One arrival on its own. */
  lemma OneArrival(patterns: Patterns, regexWindow: nat, known: map<nat, Record>, a: Arrival, limits: Limits)
    requires limits.segment > 0
    ensures var (r, u) := ObserveAll(Before(known, a), a.seen.chunks, a.seen.now, limits);
            && RecordsAfter(known, [a], limits) == known[a.stream := r]
            && multiset(Wanted(patterns, regexWindow, a.stream, r, u.ranges))
               == Asked(patterns, regexWindow, known, [a], limits)
    ensures RecordsAfter(known, [], limits) == known && Asked(patterns, regexWindow, known, [], limits) == multiset{}
  {
    hide ObserveAll, Wanted, Before;
    assert [a][1..] == [];
  }

  /** The store has no record of the packet's stream, or is about to evict it as idle. */
  predicate StartsAnew(content: Store.StreamContent<nat>, packet: Packet)
    reads content
  {
    packet.stream !in content.streams
    || ((content.observedPackets + 1) % Store.EVICTION_INTERVAL_PACKETS == 0
        && SaturatingSub(packet.now, content.streams[packet.stream].lastSeen) > content.config.idleTimeoutMs * 1_000)
  }

  /** Stores what one packet brings and scans what is new of it. */
  method ScanPacket(engine: PatternEngine, content: Store.StreamContent<nat>, packet: Packet, ghost known: map<nat, Record>)
    returns (events: seq<Key>, ghost arrived: seq<Arrival>, ghost calls: seq<Key>)
    requires engine.Valid() && content.Valid() && content.config.enabled && Mirrors(content.streams, known)
    modifies engine, content
    ensures engine.Valid() && content.Valid() && engine.emitted == old(engine.emitted) + events
    ensures AreArrivals(arrived, [packet]) && (arrived != [] ==> (arrived[0].anew <==> old(StartsAnew(content, packet))))
    ensures Mirrors(content.streams, RecordsAfter(known, arrived, content.config.Limits()))
    ensures multiset(calls) == Asked(engine.patterns, engine.regexWindow, known, arrived, content.config.Limits())
    ensures engine.emitted == Granted(old(engine.emitted), calls, engine.Limits())
    ensures engine.patternMatches + engine.droppedMatches
            == old(engine.patternMatches) + old(engine.droppedMatches) + |calls|
  {
    hide Asked, RecordsAfter, ObserveAll, Granted, Wanted, PatternEngine.Valid, Store.StreamContent.Valid, Mirrors, Before,
         Store.Flow.Chunks, Same;
    var now := packet.now;
    ghost var limits := content.config.Limits();
    ghost var streams, emitted := content.streams, engine.emitted;
    ghost var a := Arrival(packet.stream, Observation(packet.flow.Chunks(), now), StartsAnew(content, packet));
    LimitsArePositive(content);
    OneArrival(engine.patterns, engine.regexWindow, known, a, limits);
    OnePacket(packet, a);
    var update := content.ObserveFlow(packet.stream, packet.flow, now);
    NothingGranted(emitted, engine.Limits());
    events, arrived, calls := [], [], [];
    if packet.flow.HasContent() {
      arrived := [a];
      ghost var before := (if a.anew then New(now) else streams[packet.stream]).(lastSeen := now);
      StoreMirrors(streams, content.streams, known, a, before, limits);
      ghost var r, u := ObserveAll(Before(known, a), a.seen.chunks, now, limits).0,
        ObserveAll(Before(known, a), a.seen.chunks, now, limits).1;
      WantedSame(engine.patterns, engine.regexWindow, packet.stream, r, content.streams[packet.stream], u.ranges);
      if update.Some? {
        events, calls := engine.ScanUpdate(packet.stream, content.streams[packet.stream], update.value.ranges);
        AskedOnce(emitted, events, calls, engine.Limits(),
                  Wanted(engine.patterns, engine.regexWindow, packet.stream, r, u.ranges));
      } else {
        NothingWanted(engine.patterns, engine.regexWindow, packet.stream, r);
      }
    }
  }

  lemma LimitsArePositive(content: Store.StreamContent<nat>)
    requires content.Valid() && content.config.enabled
    ensures content.config.Limits().segment > 0
  {
    hide Store.AllRefine, Store.StoredIn;
  }

  lemma OnePacket(packet: Packet, a: Arrival)
    requires a.stream == packet.stream && a.seen == Observation(packet.flow.Chunks(), packet.now)
    ensures AreArrivals(if packet.flow.HasContent() then [a] else [], [packet])
  {
    assert [packet][..0] == [];
    assert WithContent([packet]) == if packet.flow.HasContent() then [packet] else [];
  }

  lemma {:induction false} NothingGranted(emitted: seq<Key>, caps: Caps)
    ensures Granted(emitted, [], caps) == emitted && emitted + [] == emitted
  {
  }

  lemma NothingWanted(patterns: Patterns, regexWindow: nat, stream: nat, r: Record)
    ensures Wanted(patterns, regexWindow, stream, r, []) == {}
  {
  }

  lemma {:induction false} ArrivalsOn(arrivals: seq<Arrival>, more: seq<Arrival>, packets: seq<Packet>, i: nat)
    requires i < |packets| && AreArrivals(arrivals, packets[..i]) && AreArrivals(more, [packets[i]])
    ensures AreArrivals(arrivals + more, packets[..i + 1])
  {
    assert packets[..i + 1][..i] == packets[..i] && [packets[i]][..0] == [];
    assert WithContent(packets[..i + 1]) == WithContent(packets[..i]) + WithContent([packets[i]]);
  }

  lemma {:induction false} NoArrivals(packets: seq<Packet>, streams: map<nat, Record>)
    ensures packets[..0] == [] && packets[..|packets|] == packets && AreArrivals([], []) && Mirrors(streams, streams)
  {
  }

  /**
   Stores what each packet brings and scans what is new. The matches that ask are
   those the run asks for; each gets its event in turn unless a cap is reached, and
   the events handed out and those dropped make up all that asked.
   */
  method ScanRun(engine: PatternEngine, content: Store.StreamContent<nat>, packets: seq<Packet>)
    returns (events: seq<Key>, ghost arrivals: seq<Arrival>, ghost calls: seq<Key>)
    requires engine.Valid() && content.Valid() && content.config.enabled
    modifies engine, content
    ensures engine.Valid() && content.Valid() && engine.emitted == old(engine.emitted) + events
    ensures AreArrivals(arrivals, packets)
    ensures multiset(calls)
            == Asked(engine.patterns, engine.regexWindow, old(content.streams), arrivals, content.config.Limits())
    ensures engine.emitted == Granted(old(engine.emitted), calls, engine.Limits())
    ensures |events| + engine.droppedMatches == old(engine.droppedMatches) + |calls|
  {
    hide *;
    ghost var limits, streams, emitted := content.config.Limits(), content.streams, engine.emitted;
    LimitsArePositive(content);
    events, arrivals, calls := [], [], [];
    NoArrivals(packets, streams);
    NothingAsked(engine.patterns, engine.regexWindow, streams, limits);
    NothingGranted(emitted, engine.Limits());
    EventsAreCounted(engine);
    for i := 0 to |packets|
      invariant engine.Valid() && content.Valid() && engine.emitted == emitted + events
      invariant AreArrivals(arrivals, packets[..i])
      invariant Mirrors(content.streams, RecordsAfter(streams, arrivals, limits))
      invariant multiset(calls) == Asked(engine.patterns, engine.regexWindow, streams, arrivals, limits)
      invariant engine.emitted == Granted(emitted, calls, engine.Limits())
      invariant engine.patternMatches + engine.droppedMatches
             == old(engine.patternMatches) + old(engine.droppedMatches) + |calls|
    {
      ghost var known := RecordsAfter(streams, arrivals, limits);
      ghost var arrived, asked;
      var more;
      more, arrived, asked := ScanPacket(engine, content, packets[i], known);
      AskedOn(engine.patterns, engine.regexWindow, streams, arrivals, arrived, limits);
      GrantedOn(emitted, calls, asked, engine.Limits());
      ArrivalsOn(arrivals, arrived, packets, i);
      events, arrivals, calls := events + more, arrivals + arrived, calls + asked;
    }
    EventsAreCounted(engine);
  }

  lemma NothingAsked(patterns: Patterns, regexWindow: nat, records: map<nat, Record>, limits: Limits)
    requires limits.segment > 0
    ensures Asked(patterns, regexWindow, records, [], limits) == multiset{} && RecordsAfter(records, [], limits) == records
  {
  }
}
