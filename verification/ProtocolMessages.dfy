/**
 The analyzer that hands each chunk to the framers it is for: always to the HTTP/1
 framer of its stream, to the TLS framer once the stream looked like TLS, and to the
 WebSocket framer when its flow was upgraded by an earlier chunk.
 */
module ProtocolMessages {
  import opened Bytes
  import opened OldestFirst
  import opened StreamStates
  import Http1 = Http1Framer
  import Records = RecordFramer
  import WireFrames
  import Written = RecordRoundTrip

  /** One direction of a flow. */
  datatype Stream = Stream(flow: nat, forward: bool)

  datatype Chunk = Chunk(stream: Stream, bytes: seq<byte>)

  /** `upgrades` says which HTTP/1 messages upgrade their flow to WebSocket. */
  datatype Rules = Rules(ctx: Http1.Context, upgrades: Http1.Message -> bool, maxBufferBytes: nat)
  {
    function Http(): Framer<Http1.State, seq<byte>, Http1.Message> { StreamStates.Http1(ctx) }

    function Tls(): Framer<Records.State, seq<byte>, Records.Message> {
      StreamStates.Records(WireFrames.Tls, maxBufferBytes)
    }

    function WebSocket(): Framer<Records.State, seq<byte>, Records.Message> {
      StreamStates.Records(WireFrames.WebSocket, maxBufferBytes)
    }
  }

  datatype Nothing = Nothing

  datatype State = State(
    http: Table<Stream, Http1.State>, tls: Table<Stream, Records.State>, websocket: Table<Stream, Records.State>,
    active: Table<nat, Nothing>)
  {
    ghost predicate Valid() {
      OldestFirst.Valid(http) && OldestFirst.Valid(tls) && OldestFirst.Valid(websocket) && OldestFirst.Valid(active)
    }
  }

  datatype Emitted = Emitted(
    tls: seq<Tagged<Stream, Records.Message>>, websocket: seq<Tagged<Stream, Records.Message>>,
    http: seq<Tagged<Stream, Http1.Message>>)

  predicate LooksLikeTls(bytes: seq<byte>) {
    && bytes != [] && 20 <= bytes[0] <= 23
    && (|bytes| < 3 || (bytes[1] == 3 && bytes[2] <= 4))
  }

  /** The bytes start like the record: with its content type, and its version once that is there. */
  predicate StartsLike(bytes: seq<byte>, record: Written.OutRecord)
    requires record.Valid()
  {
    && bytes != [] && bytes[0] == record.Bytes()[0]
    && (|bytes| >= 3 ==> bytes[1..3] == record.Bytes()[1..3])
  }

  /** Bytes look like TLS exactly when a record can start like them. */
  lemma LooksLikeTlsExactly(bytes: seq<byte>)
    ensures LooksLikeTls(bytes) <==> exists r: Written.OutRecord :: r.Valid() && StartsLike(bytes, r)
  {
    if LooksLikeTls(bytes) {
      var r := Written.OutRecord(bytes[0], if |bytes| >= 3 then bytes[2] else 3, []);
      assert r.Valid() && StartsLike(bytes, r);
    }
    if |bytes| >= 3 {
      assert bytes[1..3] == [bytes[1], bytes[2]];
    }
    forall r: Written.OutRecord | r.Valid()
      ensures r.Bytes()[1..3] == [3, r.minor] && r.Bytes()[0] == r.contentType
    {
    }
  }

  predicate Upgrades(messages: seq<Http1.Message>, rules: Rules) {
    exists i :: 0 <= i < |messages| && rules.upgrades(messages[i])
  }

  function Activate(active: Table<nat, Nothing>, flow: nat): Table<nat, Nothing> {
    StateFor(active, flow, Nothing)
  }

  predicate ForTls(st: State, c: Chunk) { c.stream in st.tls.entries || LooksLikeTls(c.bytes) }

  predicate ForWebSocket(st: State, c: Chunk) { c.stream.flow in st.active.entries }

  /** One chunk: TLS first, then WebSocket, then HTTP/1, whose messages may upgrade the flow. */
  function Analyze(st: State, c: Chunk, rules: Rules): (State, Emitted) {
    var tls := if ForTls(st, c) then Feed(st.tls, c.stream, c.bytes, rules.Tls()) else Fed(st.tls, [], false);
    var websocket := if ForWebSocket(st, c) then Feed(st.websocket, c.stream, c.bytes, rules.WebSocket())
                     else Fed(st.websocket, [], false);
    var http := Feed(st.http, c.stream, c.bytes, rules.Http());
    var active := if Upgrades(http.messages, rules) then Activate(st.active, c.stream.flow) else st.active;
    (State(http.table, tls.table, websocket.table, active),
     Emitted(Tag(c.stream, tls.messages), Tag(c.stream, websocket.messages), Tag(c.stream, http.messages)))
  }

  function AnalyzeAll(st: State, chunks: seq<Chunk>, rules: Rules): (State, Emitted)
    decreases |chunks|
  {
    if chunks == [] then (st, Emitted([], [], []))
    else
      var first := Analyze(st, chunks[0], rules);
      var rest := AnalyzeAll(first.0, chunks[1..], rules);
      (rest.0, Emitted(first.1.tls + rest.1.tls, first.1.websocket + rest.1.websocket, first.1.http + rest.1.http))
  }

  lemma {:induction false} UpgradesNext(messages: seq<Http1.Message>, i: nat, rules: Rules)
    requires i < |messages|
    ensures Upgrades(messages[..i + 1], rules) <==> Upgrades(messages[..i], rules) || rules.upgrades(messages[i])
  {
    assert messages[..i + 1][i] == messages[i] && forall k :: 0 <= k < i ==> messages[..i + 1][k] == messages[..i][k];
  }

  class ProtocolMessageAnalyzer {
    const rules: Rules
    const http: StateTable<Stream, Http1.State>
    const tls: StateTable<Stream, Records.State>
    const websocket: StateTable<Stream, Records.State>
    const active: StateTable<nat, Nothing>

    constructor (rules: Rules, max: Maxima)
      ensures this.rules == rules && Separate() && fresh(http) && fresh(tls) && fresh(websocket) && fresh(active)
      ensures Value() == NewState(max) && Value().Valid()
    {
      this.rules := rules;
      http := new StateTable(max.http);
      tls := new StateTable(max.tls);
      websocket := new StateTable(max.websocket);
      active := new StateTable(max.websocket);
    }

    /** The two tables of one type are not the same; the others cannot be. */
    predicate Separate() { tls != websocket }

    function Value(): State
      reads http, tls, websocket, active
    {
      State(http.Value(), tls.Value(), websocket.Value(), active.Value())
    }

    /** Any of the messages may upgrade the flow. */
    method ActivateFor(messages: seq<Http1.Message>, flow: nat)
      requires Valid(active.Value())
      modifies active
      ensures Valid(active.Value())
      ensures active.Value() == if Upgrades(messages, rules) then Activate(old(active.Value()), flow)
                                else old(active.Value())
    {
      hide Valid, Install;
      ActivateIs(active.Value(), flow);
      for i := 0 to |messages|
        invariant Valid(active.Value())
        invariant active.Value() == if Upgrades(messages[..i], rules) then Activate(old(active.Value()), flow)
                                    else old(active.Value())
      {
        UpgradesNext(messages, i, rules);
        if rules.upgrades(messages[i]) {
          var found := active.Ensure(flow, Nothing);
        }
      }
      assert messages[..|messages|] == messages;
    }

    method EmitMessages(c: Chunk) returns (emitted: Emitted)
      requires Separate() && Value().Valid()
      modifies http, tls, websocket, active
      ensures Value().Valid() && (Value(), emitted) == Analyze(old(Value()), c, rules)
    {
      hide OldestFirst.Valid, Install, Feed, Rules.Http, Rules.Tls, Rules.WebSocket, Tag, LooksLikeTls, Upgrades, Activate;
      var records := [];
      if c.stream in tls.states || LooksLikeTls(c.bytes) {
        records := tls.FeedTo(c.stream, c.bytes, rules.Tls());
      }
      var frames := [];
      if c.stream.flow in active.states {
        frames := websocket.FeedTo(c.stream, c.bytes, rules.WebSocket());
      }
      var messages := http.FeedTo(c.stream, c.bytes, rules.Http());
      ActivateFor(messages, c.stream.flow);
      emitted := Emitted(Tag(c.stream, records), Tag(c.stream, frames), Tag(c.stream, messages));
    }
  }

  /** How many streams of each kind have framers; the upgraded flows are limited like WebSocket streams. */
  datatype Maxima = Maxima(http: nat, tls: nat, websocket: nat)

  function NewState(max: Maxima): State {
    State(NewTable(max.http), NewTable(max.tls), NewTable(max.websocket), NewTable(max.websocket))
  }

  // ---------------------------------------------------------------------
  // Which chunks each kind of framer gets

  function PieceOf(c: Chunk): Piece<Stream, seq<byte>> { Piece(c.stream, c.bytes) }

  function HandedToTls(st: State, chunks: seq<Chunk>, rules: Rules): seq<Piece<Stream, seq<byte>>>
    decreases |chunks|
  {
    if chunks == [] then []
    else (if ForTls(st, chunks[0]) then [PieceOf(chunks[0])] else [])
         + HandedToTls(Analyze(st, chunks[0], rules).0, chunks[1..], rules)
  }

  function HandedToWebSocket(st: State, chunks: seq<Chunk>, rules: Rules): seq<Piece<Stream, seq<byte>>>
    decreases |chunks|
  {
    if chunks == [] then []
    else (if ForWebSocket(st, chunks[0]) then [PieceOf(chunks[0])] else [])
         + HandedToWebSocket(Analyze(st, chunks[0], rules).0, chunks[1..], rules)
  }

  function HandedToHttp(chunks: seq<Chunk>): seq<Piece<Stream, seq<byte>>>
    decreases |chunks|
  {
    if chunks == [] then [] else [PieceOf(chunks[0])] + HandedToHttp(chunks[1..])
  }

  /** The framers of each kind do what they do on the chunks handed to them, whatever the others do. */
  lemma {:induction false} FramersAreSeparate(st: State, chunks: seq<Chunk>, rules: Rules)
    ensures var (after, emitted) := AnalyzeAll(st, chunks, rules);
            && (after.http, emitted.http) == Run(st.http, HandedToHttp(chunks), rules.Http())
            && (after.tls, emitted.tls) == Run(st.tls, HandedToTls(st, chunks, rules), rules.Tls())
            && (after.websocket, emitted.websocket)
               == Run(st.websocket, HandedToWebSocket(st, chunks, rules), rules.WebSocket())
    decreases |chunks|
  {
    if chunks != [] {
      hide Feed, Run, ForTls, ForWebSocket, Upgrades, Activate, Rules.Http, Rules.Tls, Rules.WebSocket, Tag;
      var first := Analyze(st, chunks[0], rules);
      FramersAreSeparate(first.0, chunks[1..], rules);
      OneMoreRun(st.http, chunks[0], true, HandedToHttp(chunks[1..]), rules.Http());
      OneMoreRun(st.tls, chunks[0], ForTls(st, chunks[0]), HandedToTls(first.0, chunks[1..], rules), rules.Tls());
      OneMoreRun(st.websocket, chunks[0], ForWebSocket(st, chunks[0]), HandedToWebSocket(first.0, chunks[1..], rules),
                 rules.WebSocket());
    } else {
      NothingToRun(st.http, rules.Http());
      NothingToRun(st.tls, rules.Tls());
      NothingToRun(st.websocket, rules.WebSocket());
    }
  }

  lemma {:induction false} NothingToRun<S, M>(t: Table<Stream, S>, f: Framer<S, seq<byte>, M>)
    ensures Run(t, [], f) == (t, [])
  {
  }

  lemma {:induction false} OneMoreRun<S, M>(
    t: Table<Stream, S>, c: Chunk, handed: bool, later: seq<Piece<Stream, seq<byte>>>, f: Framer<S, seq<byte>, M>)
    ensures var fed := if handed then Feed(t, c.stream, c.bytes, f) else Fed(t, [], false);
            var rest := Run(fed.table, later, f);
            Run(t, (if handed then [PieceOf(c)] else []) + later, f) == (rest.0, Tag(c.stream, fed.messages) + rest.1)
  {
    hide Feed;
    if handed {
      assert ([PieceOf(c)] + later)[1..] == later;
    } else {
      var nothing: seq<M> := [];
      assert [] + later == later && Tag(c.stream, nothing) == [];
      assert [] + Run(t, later, f).1 == Run(t, later, f).1;
    }
  }

  // ---------------------------------------------------------------------
  // When a flow is handed to the WebSocket framer

  /** For each chunk, the flow that it upgrades, if it completes an upgrade. */
  function UpgradesIn(st: State, chunks: seq<Chunk>, rules: Rules): (r: seq<Option<nat>>)
    ensures |r| == |chunks|
    decreases |chunks|
  {
    if chunks == [] then []
    else
      var upgrades := Upgrades(Feed(st.http, chunks[0].stream, chunks[0].bytes, rules.Http()).messages, rules);
      [if upgrades then Some(chunks[0].stream.flow) else None]
      + UpgradesIn(Analyze(st, chunks[0], rules).0, chunks[1..], rules)
  }

  /** The chunks of which the flow is in a queue that the upgrades before them have filled. */
  function InQueue(queue: seq<nat>, max: nat, upgrades: seq<Option<nat>>, chunks: seq<Chunk>)
    : seq<Piece<Stream, seq<byte>>>
    requires |upgrades| == |chunks|
    decreases |chunks|
  {
    if chunks == [] then []
    else (if chunks[0].stream.flow in queue then [PieceOf(chunks[0])] else [])
         + InQueue(NextQueue(queue, max, upgrades[0]), max, upgrades[1..], chunks[1..])
  }

  lemma ActivateIs(active: Table<nat, Nothing>, flow: nat)
    requires Valid(active)
    ensures var after := Activate(active, flow);
            && Valid(after) && after.order == NextQueue(active.order, active.max, Some(flow)) && after.max == active.max
            && flow in after.entries
  {
    hide Valid, Install;
    QueueHolds(active, flow);
    if flow !in active.entries {
      InstallNew(active, flow, Nothing);
    }
  }

  /**
   A chunk is handed to the WebSocket framer exactly if its flow is queued by the
   upgrades of earlier chunks, never its own.
   */
  lemma {:induction false} HandedExactly(st: State, chunks: seq<Chunk>, rules: Rules)
    requires Valid(st.active)
    ensures HandedToWebSocket(st, chunks, rules)
            == InQueue(st.active.order, st.active.max, UpgradesIn(st, chunks, rules), chunks)
    decreases |chunks|
  {
    if chunks != [] {
      hide Valid, Feed, Activate, Upgrades, NextQueue, ForTls, Rules.Http, Rules.Tls, Rules.WebSocket;
      ActivateIs(st.active, chunks[0].stream.flow);
      QueueHolds(st.active, chunks[0].stream.flow);
      NoUse(st.active.order, st.active.max);
      HandedExactly(Analyze(st, chunks[0], rules).0, chunks[1..], rules);
    }
  }

  lemma {:induction false} NoUse<K>(queue: seq<K>, max: nat)
    ensures NextQueue(queue, max, None) == queue
  {
  }

  /** The inputs of a stream among some chunks. */
  function BytesOf(chunks: seq<Chunk>, stream: Stream): seq<seq<byte>> {
    InputsOf(HandedToHttp(chunks), stream)
  }

  lemma {:induction false} InputsOfConcat(
    a: seq<Piece<Stream, seq<byte>>>, b: seq<Piece<Stream, seq<byte>>>, stream: Stream)
    ensures InputsOf(a + b, stream) == InputsOf(a, stream) + InputsOf(b, stream)
  {
    if a == [] {
      assert a + b == b;
    } else {
      assert (a + b)[1..] == a[1..] + b;
      InputsOfConcat(a[1..], b, stream);
    }
  }

  /** While its flow stays queued, every chunk of a stream is handed over. */
  lemma {:induction false} AllInQueue(
    queue: seq<nat>, max: nat, upgrades: seq<Option<nat>>, chunks: seq<Chunk>, stream: Stream)
    requires |upgrades| == |chunks| && stream.flow in queue
    requires Distinct(queue) && max > 0 && |Listed(queue) + UsedIn(upgrades)| <= max
    ensures InputsOf(InQueue(queue, max, upgrades, chunks), stream) == BytesOf(chunks, stream)
    decreases |chunks|
  {
    if chunks != [] {
      hide Distinct, Listed, UsedIn, NextQueue, InputsOf;
      RoomGoesOn(queue, max, upgrades);
      AllInQueue(NextQueue(queue, max, upgrades[0]), max, upgrades[1..], chunks[1..], stream);
      FirstInput(chunks, stream);
      FirstQueued(queue, max, upgrades, chunks, stream);
    }
  }

  lemma {:induction false} RoomGoesOn<K>(queue: seq<K>, max: nat, uses: seq<Option<K>>)
    requires uses != [] && Distinct(queue) && max > 0 && |Listed(queue) + UsedIn(uses)| <= max
    ensures var next := NextQueue(queue, max, uses[0]);
            queue <= next && Distinct(next) && |Listed(next) + UsedIn(uses[1..])| <= max
  {
    hide Distinct, Listed, UsedIn, NextQueue;
    UsedFirst(uses);
    SubsetIsSmaller(Listed(queue) + UsedIn([uses[0]]), Listed(queue) + UsedIn(uses));
    NextIsListed(queue, max, uses[0]);
    SubsetIsSmaller(Listed(NextQueue(queue, max, uses[0])) + UsedIn(uses[1..]), Listed(queue) + UsedIn(uses));
  }

  lemma {:induction false} FirstInput(chunks: seq<Chunk>, stream: Stream)
    requires chunks != []
    ensures BytesOf(chunks, stream)
            == (if chunks[0].stream == stream then [chunks[0].bytes] else []) + BytesOf(chunks[1..], stream)
  {
    var rest := HandedToHttp(chunks[1..]);
    assert ([PieceOf(chunks[0])] + rest)[1..] == rest;
  }

  lemma {:induction false} FirstQueued(
    queue: seq<nat>, max: nat, upgrades: seq<Option<nat>>, chunks: seq<Chunk>, stream: Stream)
    requires |upgrades| == |chunks| && chunks != []
    ensures var rest := InQueue(NextQueue(queue, max, upgrades[0]), max, upgrades[1..], chunks[1..]);
            InputsOf(InQueue(queue, max, upgrades, chunks), stream)
            == (if chunks[0].stream.flow in queue && chunks[0].stream == stream then [chunks[0].bytes] else [])
               + InputsOf(rest, stream)
  {
    hide NextQueue;
    var rest := InQueue(NextQueue(queue, max, upgrades[0]), max, upgrades[1..], chunks[1..]);
    var first := if chunks[0].stream.flow in queue then [PieceOf(chunks[0])] else [];
    InputsOfConcat(first, rest, stream);
    assert InputsOf([PieceOf(chunks[0])], stream) == if chunks[0].stream == stream then [chunks[0].bytes] else [];
  }

  /** Chunk `a` is the first that upgrades the flow. */
  predicate FirstUpgrade(upgrades: seq<Option<nat>>, flow: nat, a: nat) {
    a < |upgrades| && upgrades[a] == Some(flow) && forall i :: 0 <= i < a ==> upgrades[i] != Some(flow)
  }

  /** A flow that is queued by chunk `a`: its streams are handed over from the next chunk on, and not before. */
  lemma {:induction false} QueuedFrom(
    queue: seq<nat>, max: nat, upgrades: seq<Option<nat>>, chunks: seq<Chunk>, stream: Stream, a: nat)
    requires |upgrades| == |chunks| && stream.flow !in queue && FirstUpgrade(upgrades, stream.flow, a)
    requires Distinct(queue) && max > 0 && |Listed(queue) + UsedIn(upgrades)| <= max
    ensures InputsOf(InQueue(queue, max, upgrades, chunks), stream) == BytesOf(chunks[a + 1..], stream)
    decreases |chunks|
  {
    hide Distinct, Listed, UsedIn, NextQueue, InputsOf, BytesOf;
    var next := NextQueue(queue, max, upgrades[0]);
    RoomGoesOn(queue, max, upgrades);
    FirstQueued(queue, max, upgrades, chunks, stream);
    QueuedNext(queue, max, upgrades[0], stream.flow);
    if a == 0 {
      AllInQueue(next, max, upgrades[1..], chunks[1..], stream);
    } else {
      assert FirstUpgrade(upgrades[1..], stream.flow, a - 1);
      QueuedFrom(next, max, upgrades[1..], chunks[1..], stream, a - 1);
      assert chunks[1..][a..] == chunks[a + 1..];
    }
  }

  lemma {:induction false} QueuedNext(queue: seq<nat>, max: nat, use: Option<nat>, flow: nat)
    requires flow !in queue
    ensures flow in NextQueue(queue, max, use) <==> use == Some(flow)
  {
  }

  /**
   The WebSocket framer of a stream gets exactly the chunks that come after the one
   in which its flow's first upgrade is completed, while there is room for all
   flows that are upgraded.
   */
  lemma {:induction false} HandedAfterUpgrade(st: State, chunks: seq<Chunk>, rules: Rules, stream: Stream, a: nat)
    requires st.Valid() && stream.flow !in st.active.entries
    requires FirstUpgrade(UpgradesIn(st, chunks, rules), stream.flow, a)
    requires |st.active.entries.Keys + UsedIn(UpgradesIn(st, chunks, rules))| <= st.active.max
    ensures InputsOf(HandedToWebSocket(st, chunks, rules), stream) == BytesOf(chunks[a + 1..], stream)
  {
    hide Valid, Distinct, Listed, UsedIn, InputsOf, BytesOf, HandedToWebSocket, UpgradesIn;
    QueueHolds(st.active, stream.flow);
    HandedExactly(st, chunks, rules);
    QueuedFrom(st.active.order, st.active.max, UpgradesIn(st, chunks, rules), chunks, stream, a);
  }

  /** All the bytes of a stream among some chunks. */
  function AllOf(chunks: seq<Chunk>, stream: Stream): seq<byte> { Records.Concat(BytesOf(chunks, stream)) }

  lemma {:induction false} AllOfSplits(chunks: seq<Chunk>, n: nat, stream: Stream)
    requires n <= |chunks|
    ensures AllOf(chunks, stream) == AllOf(chunks[..n], stream) + AllOf(chunks[n..], stream)
    decreases n
  {
    hide *;
    if n == 0 {
      NoBytes(stream);
      assert chunks[0..] == chunks && chunks[..0] == [];
    } else {
      AllOfSplits(chunks[1..], n - 1, stream);
      assert chunks[1..][..n - 1] == chunks[..n][1..] && chunks[1..][n - 1..] == chunks[n..];
      FirstBytes(chunks, stream);
      FirstBytes(chunks[..n], stream);
    }
  }

  lemma NoBytes(stream: Stream)
    ensures AllOf([], stream) == []
  {
  }

  lemma {:induction false} FirstBytes(chunks: seq<Chunk>, stream: Stream)
    requires chunks != []
    ensures AllOf(chunks, stream)
            == (if chunks[0].stream == stream then chunks[0].bytes else []) + AllOf(chunks[1..], stream)
  {
    hide BytesOf;
    FirstInput(chunks, stream);
    var rest := BytesOf(chunks[1..], stream);
    if chunks[0].stream == stream {
      assert ([chunks[0].bytes] + rest)[1..] == rest;
    } else {
      assert [] + rest == rest;
    }
  }

  /** A framer that starts on a stream's inputs and is not evicted between them, wherever they come from. */
  lemma {:induction false} FramedRecords(
    p: WireFrames.Protocol, maxBufferBytes: nat, t: Table<Stream, Records.State>, pieces: seq<Piece<Stream, seq<byte>>>,
    stream: Stream)
    requires Valid(t) && stream !in t.entries && NeverBack(t, pieces, stream)
    requires Records.Fits(p, [], InputsOf(pieces, stream), maxBufferBytes)
    requires !Records.Broken(p, Records.Concat(InputsOf(pieces, stream)))
    ensures var (after, emitted) := Run(t, pieces, StreamStates.Records(p, maxBufferBytes));
            var all := Records.Concat(InputsOf(pieces, stream));
            && MessagesOf(emitted, stream) == Records.Messages(Records.Units(p, all), 0, 0)
            && (stream in after.entries ==> after.entries[stream] == Records.StateAfter(p, all))
  {
    hide Valid, NeverBack, Run, Records.Fits, Records.Broken, Records.Units, Records.PushAll, MessagesOf, Alone,
         Records.StateAfter, InputsOf;
    StreamsAreIndependent(t, pieces, StreamStates.Records(p, maxBufferBytes), stream);
    RecordsAlone(p, maxBufferBytes, Records.INITIAL, InputsOf(pieces, stream));
    Records.SplitInvariance(p, InputsOf(pieces, stream), maxBufferBytes);
  }

  /** A WebSocket framer that got some bytes of its stream and was not evicted between them. */
  predicate Framed(st: State, emitted: Emitted, stream: Stream, bytes: seq<byte>) {
    && MessagesOf(emitted.websocket, stream) == Records.Messages(Records.Units(WireFrames.WebSocket, bytes), 0, 0)
    && (stream in st.websocket.entries ==>
          st.websocket.entries[stream] == Records.StateAfter(WireFrames.WebSocket, bytes))
  }

  lemma {:induction false} HandedIsFramed(st: State, chunks: seq<Chunk>, rules: Rules, stream: Stream)
    requires st.Valid() && stream !in st.websocket.entries
    requires NeverBack(st.websocket, HandedToWebSocket(st, chunks, rules), stream)
    requires var inputs := InputsOf(HandedToWebSocket(st, chunks, rules), stream);
             && Records.Fits(WireFrames.WebSocket, [], inputs, rules.maxBufferBytes)
             && !Records.Broken(WireFrames.WebSocket, Records.Concat(inputs))
    ensures var (after, emitted) := AnalyzeAll(st, chunks, rules);
            Framed(after, emitted, stream, Records.Concat(InputsOf(HandedToWebSocket(st, chunks, rules), stream)))
  {
    hide Valid, NeverBack, Run, Records.Fits, Records.Broken, Records.Units, Records.Concat, MessagesOf, AnalyzeAll,
         Records.StateAfter, Records.Messages, InputsOf, HandedToWebSocket, HandedToHttp, HandedToTls;
    FramersAreSeparate(st, chunks, rules);
    FramedRecords(WireFrames.WebSocket, rules.maxBufferBytes, st.websocket, HandedToWebSocket(st, chunks, rules), stream);
  }

  /**
   The WebSocket messages of a stream are the units of what comes after the chunk that
   completes the upgrade. They start right after some earlier point of the stream, as
   the end of the upgrade, if and only if that chunk ends there: what it brings
   beyond it is never framed.
   */
  lemma {:induction false} WebSocketAfterUpgrade(
    st: State, chunks: seq<Chunk>, rules: Rules, stream: Stream, a: nat, end: nat)
    requires st.Valid() && stream.flow !in st.active.entries && stream !in st.websocket.entries
    requires FirstUpgrade(UpgradesIn(st, chunks, rules), stream.flow, a)
    requires |st.active.entries.Keys + UsedIn(UpgradesIn(st, chunks, rules))| <= st.active.max
    requires NeverBack(st.websocket, HandedToWebSocket(st, chunks, rules), stream)
    requires Records.Fits(WireFrames.WebSocket, [], BytesOf(chunks[a + 1..], stream), rules.maxBufferBytes)
    requires !Records.Broken(WireFrames.WebSocket, AllOf(chunks[a + 1..], stream))
    requires end <= |AllOf(chunks[..a + 1], stream)|
    ensures var (after, emitted) := AnalyzeAll(st, chunks, rules);
            Framed(after, emitted, stream, AllOf(chunks[a + 1..], stream))
    ensures end <= |AllOf(chunks, stream)|
    ensures Records.StateAfter(WireFrames.WebSocket, AllOf(chunks[a + 1..], stream))
            == Records.StateAfter(WireFrames.WebSocket, AllOf(chunks, stream)[end..])
            <==> |AllOf(chunks[..a + 1], stream)| == end
  {
    hide *;
    UpgradeIsOneChunk(st, chunks, rules, stream.flow, a);
    HandedAfterUpgrade(st, chunks, rules, stream, a);
    AllOfIs(chunks[a + 1..], stream);
    HandedIsFramed(st, chunks, rules, stream);
    CutExactly(chunks, stream, a, end);
  }

  lemma {:induction false} AllOfIs(chunks: seq<Chunk>, stream: Stream)
    ensures AllOf(chunks, stream) == Records.Concat(BytesOf(chunks, stream))
  {
    hide BytesOf;
  }

  lemma {:induction false} CutExactly(chunks: seq<Chunk>, stream: Stream, a: nat, end: nat)
    requires a < |chunks| && end <= |AllOf(chunks[..a + 1], stream)|
    ensures end <= |AllOf(chunks, stream)|
    ensures Records.StateAfter(WireFrames.WebSocket, AllOf(chunks[a + 1..], stream))
            == Records.StateAfter(WireFrames.WebSocket, AllOf(chunks, stream)[end..])
            <==> |AllOf(chunks[..a + 1], stream)| == end
  {
    hide *;
    AllOfSplits(chunks, a + 1, stream);
    var before, later := AllOf(chunks[..a + 1], stream), AllOf(chunks[a + 1..], stream);
    EndOfConcat(before, later, end);
    SameStateSameLength(WireFrames.WebSocket, later, AllOf(chunks, stream)[end..]);
  }

  lemma {:induction false} UpgradeIsOneChunk(st: State, chunks: seq<Chunk>, rules: Rules, flow: nat, a: nat)
    requires FirstUpgrade(UpgradesIn(st, chunks, rules), flow, a)
    ensures a < |chunks|
  {
    hide UpgradesIn;
  }

  lemma {:induction false} EndOfConcat(before: seq<byte>, later: seq<byte>, end: nat)
    requires end <= |before|
    ensures end <= |before + later| && |(before + later)[end..]| == |before| - end + |later|
    ensures |before| == end ==> (before + later)[end..] == later
  {
  }

  lemma {:induction false} SameStateSameLength(p: WireFrames.Protocol, a: seq<byte>, b: seq<byte>)
    ensures Records.StateAfter(p, a) == Records.StateAfter(p, b) ==> |a| == |b|
  {
  }

  /** The first chunk of all is never handed to a WebSocket framer, even when it upgrades its flow. */
  lemma FirstChunk(rules: Rules, max: Maxima, c: Chunk)
    ensures var (after, emitted) := Analyze(NewState(max), c, rules);
            && emitted.websocket == [] && after.websocket == NewTable(max.websocket)
            && (Upgrades(Http1.Push(rules.ctx, Http1.INITIAL, c.bytes).emitted, rules) ==>
                  c.stream.flow in after.active.entries)
  {
    hide Valid, Install, Http1.Push, Records.Push, Upgrades, Feed;
    NewIsValid<Stream, Http1.State>(max.http);
    NewIsValid<nat, Nothing>(max.websocket);
    var t: Table<Stream, Http1.State> := NewTable(max.http);
    FeedIsOwn(t, c.stream, c.bytes, rules.Http());
    InstallNew(NewTable(max.websocket), c.stream.flow, Nothing);
  }

  predicate IsFrame(bytes: seq<byte>) {
    bytes != [] && WireFrames.Parse(WireFrames.WebSocket, bytes).Complete?
    && WireFrames.Parse(WireFrames.WebSocket, bytes).frame.totalLen == |bytes|
  }

  function MessageOf(frame: seq<byte>): Records.Message
    requires IsFrame(frame)
  {
    Records.FrameMessage(WireFrames.Parse(WireFrames.WebSocket, frame).frame, 0, 0)
  }

  lemma WholeFrame(st: State, c: Chunk, rules: Rules)
    requires Valid(st.websocket) && c.stream.flow in st.active.entries && c.stream !in st.websocket.entries
    requires IsFrame(c.bytes) && |c.bytes| <= rules.maxBufferBytes
    ensures Analyze(st, c, rules).1.websocket == [Tagged(c.stream, MessageOf(c.bytes))]
  {
    hide Valid, Feed, Upgrades, Activate, WireFrames.Parse, Records.FrameMessage;
    FeedIsOwn(st.websocket, c.stream, c.bytes, rules.WebSocket());
    assert [] + c.bytes == c.bytes;
    assert Records.Push(WireFrames.WebSocket, Records.INITIAL, c.bytes, rules.maxBufferBytes).emitted == [MessageOf(c.bytes)];
  }

  /**
   So a frame that comes in one chunk with the upgrade of its flow is lost, and in a
   chunk of its own it is not.
   */
  lemma {:induction false} FrameInTheUpgradesChunk(
    rules: Rules, max: Maxima, stream: Stream, upgrade: seq<byte>, frame: seq<byte>)
    requires Upgrades(Http1.Push(rules.ctx, Http1.INITIAL, upgrade).emitted, rules)
    requires IsFrame(frame) && |frame| <= rules.maxBufferBytes
    ensures AnalyzeAll(NewState(max), [Chunk(stream, upgrade + frame)], rules).1.websocket == []
    ensures AnalyzeAll(NewState(max), [Chunk(stream, upgrade), Chunk(stream, frame)], rules).1.websocket
            == [Tagged(stream, MessageOf(frame))]
  {
    hide *;
    var st, one, two := NewState(max), Chunk(stream, upgrade), Chunk(stream, frame);
    FirstChunk(rules, max, Chunk(stream, upgrade + frame));
    FirstChunk(rules, max, one);
    NewIsValid<Stream, Records.State>(max.websocket);
    NoneInNew(max.websocket, stream);
    WholeFrame(Analyze(st, one, rules).0, two, rules);
    FewChunks(st, Chunk(stream, upgrade + frame), two, rules);
    FewChunks(st, one, two, rules);
  }

  lemma NoneInNew(max: nat, stream: Stream)
    ensures var t: Table<Stream, Records.State> := NewTable(max);
            stream !in t.entries
  {
  }

  lemma FewChunks(st: State, one: Chunk, two: Chunk, rules: Rules)
    ensures AnalyzeAll(st, [one], rules).1.websocket == Analyze(st, one, rules).1.websocket
    ensures AnalyzeAll(st, [one, two], rules).1.websocket
            == Analyze(st, one, rules).1.websocket + Analyze(Analyze(st, one, rules).0, two, rules).1.websocket
  {
    hide Analyze;
    assert [one, two][1..] == [two] && [one][1..] == [] && [two][1..] == [];
    var first := Analyze(st, one, rules);
    assert first.1.websocket + [] == first.1.websocket;
    var second := Analyze(first.0, two, rules);
    assert second.1.websocket + [] == second.1.websocket;
    assert AnalyzeAll(first.0, [two], rules).1.websocket == second.1.websocket;
  }

  /**
   When the request has already upgraded the flow, the answer's head, which starts with
   `HT`, is taken for a frame: it is reported as a parse error, and all that comes in
   its chunk is thrown away, frames included.
   */
  lemma AnswerIsNoFrame(st: State, c: Chunk, rules: Rules)
    requires Valid(st.websocket) && c.stream.flow in st.active.entries && c.stream !in st.websocket.entries
    requires 2 <= |c.bytes| <= rules.maxBufferBytes && c.bytes[0] == 72
    ensures var (after, emitted) := Analyze(st, c, rules);
            && |emitted.websocket| == 1 && emitted.websocket[0].message.status.ParseError?
            && c.stream in after.websocket.entries && after.websocket.entries[c.stream].buffer == []
  {
    hide Valid, Feed, Upgrades, Activate;
    FeedIsOwn(st.websocket, c.stream, c.bytes, rules.WebSocket());
    assert [] + c.bytes == c.bytes;
    assert WireFrames.Parse(WireFrames.WebSocket, c.bytes).Invalid?;
  }

  // ---------------------------------------------------------------------
  // When a stream is handed to the TLS framer

  function StreamsOf(chunks: seq<Chunk>): seq<Option<Stream>> {
    if chunks == [] then [] else [Some(chunks[0].stream)] + StreamsOf(chunks[1..])
  }

  /** Any first bytes of what looks like TLS look like TLS. */
  lemma {:induction false} PrefixLooksLikeTls(bytes: seq<byte>, more: seq<byte>)
    requires bytes != [] && LooksLikeTls(bytes + more)
    ensures LooksLikeTls(bytes)
  {
    assert (bytes + more)[0] == bytes[0];
    assert |bytes| >= 3 ==> (bytes + more)[1] == bytes[1] && (bytes + more)[2] == bytes[2];
  }

  /**
   A stream that starts like TLS is handed to its framer from its first byte on, however
   it is cut, while there is room for the framers of all streams.
   */
  lemma {:induction false} TlsIsHanded(st: State, chunks: seq<Chunk>, rules: Rules, stream: Stream)
    requires Valid(st.tls) && |Listed(st.tls.order) + UsedIn(StreamsOf(chunks))| <= st.tls.max
    requires stream in st.tls.entries || AllOf(chunks, stream) == [] || LooksLikeTls(AllOf(chunks, stream))
    ensures Records.Concat(InputsOf(HandedToTls(st, chunks, rules), stream)) == AllOf(chunks, stream)
    decreases |chunks|
  {
    hide *;
    if chunks == [] {
      NoBytes(stream);
      NoneHandedToTls(st, rules, stream);
    } else {
      var c := chunks[0];
      TlsStep(st, chunks, rules, stream);
      FirstBytes(chunks, stream);
      FirstHandedToTls(st, chunks, rules, stream);
      ForTlsIs(st, c);
      if c.stream == stream && c.bytes != [] && stream !in st.tls.entries {
        PrefixLooksLikeTls(c.bytes, AllOf(chunks[1..], stream));
      }
      assert [] + AllOf(chunks[1..], stream) == AllOf(chunks[1..], stream);
      TlsIsHanded(Analyze(st, c, rules).0, chunks[1..], rules, stream);
    }
  }

  lemma ForTlsIs(st: State, c: Chunk)
    ensures ForTls(st, c) <==> c.stream in st.tls.entries || LooksLikeTls(c.bytes)
    ensures LooksLikeTls(c.bytes) ==> c.bytes != []
  {
  }

  lemma NoneHandedToTls(st: State, rules: Rules, stream: Stream)
    ensures Records.Concat(InputsOf(HandedToTls(st, [], rules), stream)) == []
  {
  }

  lemma {:induction false} FirstHandedToTls(st: State, chunks: seq<Chunk>, rules: Rules, stream: Stream)
    requires chunks != []
    ensures Records.Concat(InputsOf(HandedToTls(st, chunks, rules), stream))
            == (if ForTls(st, chunks[0]) && chunks[0].stream == stream then chunks[0].bytes else [])
               + Records.Concat(InputsOf(HandedToTls(Analyze(st, chunks[0], rules).0, chunks[1..], rules), stream))
  {
    hide Analyze, ForTls;
    var c := chunks[0];
    var rest := HandedToTls(Analyze(st, c, rules).0, chunks[1..], rules);
    if ForTls(st, c) {
      assert ([PieceOf(c)] + rest)[1..] == rest;
      var later := InputsOf(rest, stream);
      assert c.stream == stream ==> ([c.bytes] + later)[1..] == later;
    } else {
      assert [] + rest == rest;
    }
  }

  /** One chunk: streams that have a TLS framer keep it while there is room, and one that is handed over gets it. */
  lemma {:induction false} TlsStep(st: State, chunks: seq<Chunk>, rules: Rules, stream: Stream)
    requires chunks != [] && Valid(st.tls) && |Listed(st.tls.order) + UsedIn(StreamsOf(chunks))| <= st.tls.max
    ensures var after := Analyze(st, chunks[0], rules).0.tls;
            && Valid(after) && |Listed(after.order) + UsedIn(StreamsOf(chunks[1..]))| <= after.max
            && (stream in st.tls.entries || (ForTls(st, chunks[0]) && chunks[0].stream == stream) ==>
                  stream in after.entries)
            && (!ForTls(st, chunks[0]) ==> after == st.tls)
  {
    hide Valid, Distinct, Listed, UsedIn, NextQueue, Feed, Upgrades, ForTls, Activate;
    var c := chunks[0];
    var uses := StreamsOf(chunks);
    assert uses[0] == Some(c.stream) && uses[1..] == StreamsOf(chunks[1..]);
    QueueHolds(st.tls, stream);
    RoomGoesOn(st.tls.order, st.tls.max, uses);
    FeedIsOwn(st.tls, c.stream, c.bytes, rules.Tls());
    QueueHolds(Feed(st.tls, c.stream, c.bytes, rules.Tls()).table, stream);
    UsedFirst(uses);
    SubsetIsSmaller(Listed(st.tls.order) + UsedIn(uses[1..]), Listed(st.tls.order) + UsedIn(uses));
  }

  lemma {:induction false} HandedAreStreams(st: State, chunks: seq<Chunk>, rules: Rules)
    ensures UsedIn(UsesOf(HandedToTls(st, chunks, rules))) <= UsedIn(StreamsOf(chunks))
    decreases |chunks|
  {
    if chunks != [] {
      hide Analyze, ForTls, UsesOf, UsedIn;
      HandedAreStreams(Analyze(st, chunks[0], rules).0, chunks[1..], rules);
      var rest := HandedToTls(Analyze(st, chunks[0], rules).0, chunks[1..], rules);
      UsedFirst(StreamsOf(chunks));
      if ForTls(st, chunks[0]) {
        UsesFirst([PieceOf(chunks[0])] + rest);
        UsedFirst(UsesOf([PieceOf(chunks[0])] + rest));
      } else {
        assert [] + rest == rest;
      }
    } else {
      assert UsesOf(HandedToTls(st, [], rules)) == [];
    }
  }

  lemma {:induction false} TlsNeverBack(st: State, chunks: seq<Chunk>, rules: Rules, stream: Stream)
    requires Valid(st.tls) && |Listed(st.tls.order) + UsedIn(StreamsOf(chunks))| <= st.tls.max
    ensures NeverBack(st.tls, HandedToTls(st, chunks, rules), stream)
  {
    hide Valid, Distinct, Listed, UsedIn, StreamsOf, HandedToTls, UsesOf;
    var uses := UsesOf(HandedToTls(st, chunks, rules));
    QueueHolds(st.tls, stream);
    HandedAreStreams(st, chunks, rules);
    SubsetIsSmaller(Listed(st.tls.order) + UsedIn(uses), Listed(st.tls.order) + UsedIn(StreamsOf(chunks)));
    FewKeysStay(st.tls.order, st.tls.max, uses, stream, stream in st.tls.entries);
  }

  /** So the TLS messages of a new stream that starts like TLS are its units, however it is cut and interleaved. */
  lemma {:induction false} TlsMessages(st: State, chunks: seq<Chunk>, rules: Rules, stream: Stream)
    requires st.Valid() && stream !in st.tls.entries && LooksLikeTls(AllOf(chunks, stream))
    requires |Listed(st.tls.order) + UsedIn(StreamsOf(chunks))| <= st.tls.max
    requires Records.Fits(WireFrames.Tls, [], InputsOf(HandedToTls(st, chunks, rules), stream), rules.maxBufferBytes)
    requires !Records.Broken(WireFrames.Tls, AllOf(chunks, stream))
    ensures MessagesOf(AnalyzeAll(st, chunks, rules).1.tls, stream)
            == Records.Messages(Records.Units(WireFrames.Tls, AllOf(chunks, stream)), 0, 0)
  {
    hide Valid, NeverBack, Run, Records.Fits, Records.Broken, Records.Units, Records.Concat, MessagesOf, AnalyzeAll,
         Records.StateAfter, Records.Messages, InputsOf, HandedToWebSocket, HandedToHttp, HandedToTls, AllOf, LooksLikeTls,
         Listed, UsedIn, StreamsOf;
    TlsIsHanded(st, chunks, rules, stream);
    TlsNeverBack(st, chunks, rules, stream);
    FramersAreSeparate(st, chunks, rules);
    FramedRecords(WireFrames.Tls, rules.maxBufferBytes, st.tls, HandedToTls(st, chunks, rules), stream);
  }
}
