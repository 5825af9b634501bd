/**
 What the network delivers: by the end every event made has been received, every
 chunk submitted has been worked on, and each flow's chunks by one node in order.
 */
module NetworkDelivery {
  import opened Bytes
  import opened StreamPlacement
  import opened OffloadNetwork
  import opened NetworkInvariant

  // ---------------------------------------------------------------------
  // Reading histories

  function EventsOf(ms: seq<Message>): seq<Event> {
    if ms == [] then []
    else EventsOf(ms[..|ms| - 1]) + if ms[|ms| - 1].Events? then ms[|ms| - 1].events else []
  }

  /** The messages of one node, in order. */
  function From(ms: seq<Message>, n: nat): seq<Message> {
    if ms == [] then []
    else if ms[|ms| - 1].from == n then From(ms[..|ms| - 1], n) + [ms[|ms| - 1]]
    else From(ms[..|ms| - 1], n)
  }

  function Carried(command: Command): seq<Chunk> { if command.Work? then command.chunks else [] }

  function ChunksIn(queue: seq<Command>): seq<Chunk> {
    if queue == [] then [] else Carried(queue[0]) + ChunksIn(queue[1..])
  }

  function LeftOf(at: Control): seq<Chunk> { if at.Working? then at.left else [] }

  /** How many chunks there are, and how many bytes they have. */
  function TallyOf(chunks: seq<Chunk>): Tally { Tally(|chunks|, BytesIn(chunks)) }

  function BytesIn(chunks: seq<Chunk>): nat {
    if chunks == [] then 0 else BytesIn(chunks[..|chunks| - 1]) + chunks[|chunks| - 1].size
  }

  /** The chunks of any flow that had one of some outcomes, in order. */
  function Having(visits: seq<Visit>, rules: Rules, outcomes: set<Outcome>): seq<Chunk> {
    if visits == [] then []
    else if OutcomeOfLast(visits, rules) in outcomes
    then Having(visits[..|visits| - 1], rules, outcomes) + [visits[|visits| - 1].chunk]
    else Having(visits[..|visits| - 1], rules, outcomes)
  }

  /** All the chunks routed to a shard, in order. */
  function ChunksFor(input: seq<Routed>, n: nat): seq<Chunk> {
    if input == [] then [] else (if input[0].shard == n then input[0].chunks else []) + ChunksFor(input[1..], n)
  }

  lemma EventsOfAppend(ms: seq<Message>, m: Message)
    ensures EventsOf(ms + [m]) == EventsOf(ms) + if m.Events? then m.events else []
  {
    assert (ms + [m])[..|ms|] == ms;
  }

  lemma FromAppend(ms: seq<Message>, m: Message, n: nat)
    ensures From(ms + [m], n) == if m.from == n then From(ms, n) + [m] else From(ms, n)
  {
    assert (ms + [m])[..|ms|] == ms;
  }

  lemma {:induction false} FromFirst(ms: seq<Message>, n: nat)
    requires ms != []
    ensures From(ms, n) == (if ms[0].from == n then [ms[0]] else []) + From(ms[1..], n)
  {
    if |ms| > 1 {
      FromFirst(ms[..|ms| - 1], n);
      assert ms[..|ms| - 1][1..] == ms[1..][..|ms| - 2];
    } else {
      assert ms[..0] == [] && ms[1..] == [];
    }
  }

  lemma {:induction false} ChunksInPush(queue: seq<Command>, command: Command)
    ensures ChunksIn(queue + [command]) == ChunksIn(queue) + Carried(command)
  {
    hide Carried;
    if queue == [] {
      assert [] + [command] == [command] && [command][1..] == [];
      assert Carried(command) + [] == Carried(command) == [] + Carried(command);
    } else {
      assert (queue + [command])[1..] == queue[1..] + [command];
      ChunksInPush(queue[1..], command);
    }
  }

  lemma TallyOfAppend(chunks: seq<Chunk>, c: Chunk)
    ensures TallyOf(chunks + [c]) == TallyOf(chunks).Plus(c)
  {
    assert (chunks + [c])[..|chunks|] == chunks;
  }

  lemma TallyCounts(chunks: seq<Chunk>)
    ensures TallyOf(chunks).chunks == |chunks|
  {
  }

  // ---------------------------------------------------------------------
  // One node's books

  function Handled(c: Config, n: nat, node: Node): seq<Chunk> {
    if n < c.workers then ChunksOf(node.visits) else node.worked
  }

  /** What came is what was handled, what is being handled and what is queued. */
  predicate ChunksOk(c: Config, n: nat, node: Node) {
    node.arrived == Handled(c, n, node) + (LeftOf(node.at) + ChunksIn(node.queue))
  }

  /** What was made is what was sent and what is yet unflushed; a report comes last. */
  predicate EventsOk(n: nat, node: Node) {
    && node.made == EventsOf(node.sent) + node.dirty
    && (node.at.Reporting? || node.at.Finished? ==> node.dirty == [])
    && (node.at.Finished? ==> node.sent != [] && node.sent[|node.sent| - 1] == ReportOf(n, node))
  }

  /** The counters and the placements are those of the decisions made. */
  predicate CountersOk(c: Config, n: nat, node: Node) {
    if n < c.workers then
      && node.table == TableAfter(node.visits, c.rules)
      && node.submitted == TallyOf(Having(node.visits, c.rules, {Submitted}))
      && node.inlined == TallyOf(Having(node.visits, c.rules, {Inlined}))
      && node.dropped == TallyOf(Having(node.visits, c.rules, {Dropped}))
      && node.worked == Having(node.visits, c.rules, {Inlined, Parsed})
      && node.processed == Tally(0, 0)
    else node.processed == TallyOf(node.worked) && node.submitted == Tally(0, 0)
  }

  predicate BooksOk(c: Config, n: nat, node: Node) {
    ChunksOk(c, n, node) && EventsOk(n, node) && CountersOk(c, n, node)
  }

  lemma PushBooks(c: Config, n: nat, node: Node, command: Command)
    requires BooksOk(c, n, node)
    ensures BooksOk(c, n, Push(node, command))
  {
    hide EventsOf, ChunksIn, Having, TallyOf, TableAfter, Handled, LeftOf;
    ChunksInPush(node.queue, command);
    SameHandled(c, n, node, command);
    MoreQueued(Handled(c, n, node), LeftOf(node.at), ChunksIn(node.queue), Carried(command));
  }

  lemma SameHandled(c: Config, n: nat, node: Node, command: Command)
    ensures Handled(c, n, Push(node, command)) == Handled(c, n, node)
    ensures Push(node, command).arrived == node.arrived + if command.Work? then command.chunks else []
  {
  }

  lemma MoreQueued(handled: seq<Chunk>, left: seq<Chunk>, queued: seq<Chunk>, more: seq<Chunk>)
    ensures handled + (left + queued) + more == handled + (left + (queued + more))
  {
  }

  lemma TakeBooks(c: Config, n: nat, node: Node, events: seq<Event>)
    requires BooksOk(c, n, node) && node.at.Receiving? && node.queue != []
    ensures BooksOk(c, n, TakeNext(node, events))
  {
    hide EventsOf, Having, TallyOf, TableAfter;
    assert node.made + events == EventsOf(node.sent) + (node.dirty + events);
    if node.queue[0].Work? {
      assert [] + ChunksIn(node.queue) == node.queue[0].chunks + ChunksIn(node.queue[1..]);
    } else {
      assert [] + ChunksIn(node.queue) == [] + ChunksIn(node.queue[1..]);
    }
  }

  /** Moving on without sending or working. */
  lemma MoveBooks(c: Config, n: nat, node: Node, at: Control)
    requires BooksOk(c, n, node) && LeftOf(at) == LeftOf(node.at) && !at.Reporting? && !at.Finished?
    ensures BooksOk(c, n, node.(at := at))
  {
    hide EventsOf, ChunksIn, Having, TallyOf, TableAfter;
  }

  lemma SendBooks(c: Config, n: nat, node: Node, m: Message, at: Control)
    requires BooksOk(c, n, node) && LeftOf(at) == LeftOf(node.at)
    requires (m.Events? ==> m.events == node.dirty) && (at.Reporting? ==> m.Events?)
    requires at.Finished? ==> m == ReportOf(n, node) && node.at.Reporting?
    ensures BooksOk(c, n, Sent(node, m, at))
  {
    hide EventsOf, ChunksIn, Having, TallyOf, TableAfter;
    EventsOfAppend(node.sent, m);
  }

  lemma ProcessBooks(c: Config, n: nat, node: Node, events: seq<Event>)
    requires BooksOk(c, n, node) && n >= c.workers && node.at.Working? && node.at.left != []
    ensures BooksOk(c, n, Processed(node, events))
  {
    hide EventsOf, ChunksIn, Having, TallyOf, TableAfter;
    var chunk := node.at.left[0];
    TallyOfAppend(node.worked, chunk);
    NextChunk(node.worked, node.at.left, ChunksIn(node.queue));
    assert node.made + events == EventsOf(node.sent) + (node.dirty + events);
  }

  lemma NextChunk(handled: seq<Chunk>, left: seq<Chunk>, queued: seq<Chunk>)
    requires left != []
    ensures handled + (left + queued) == handled + [left[0]] + (left[1..] + queued)
  {
  }

  lemma LastHaving(visits: seq<Visit>, v: Visit, rules: Rules, outcomes: set<Outcome>)
    ensures var d := Decide(TableAfter(visits, rules), v.chunk.flow, v.room, rules);
            && TableAfter(visits + [v], rules) == d.table
            && Having(visits + [v], rules, outcomes)
               == if d.outcome in outcomes then Having(visits, rules, outcomes) + [v.chunk]
                  else Having(visits, rules, outcomes)
  {
    hide Decide;
    assert (visits + [v])[..|visits|] == visits;
  }

  lemma DispatchBooks(c: Config, n: nat, node: Node, room: bool, events: seq<Event>)
    requires BooksOk(c, n, node) && n < c.workers && node.at.Working? && node.at.left != []
    ensures var d := Decide(node.table, node.at.left[0].flow, room, c.rules);
            BooksOk(c, n, Dispatched(node, d, room, events))
  {
    hide EventsOf, ChunksIn, Having, TallyOf, TableAfter, Decide;
    var chunk := node.at.left[0];
    var v := Visit(chunk, room);
    LastHaving(node.visits, v, c.rules, {Submitted});
    LastHaving(node.visits, v, c.rules, {Inlined});
    LastHaving(node.visits, v, c.rules, {Dropped});
    LastHaving(node.visits, v, c.rules, {Inlined, Parsed});
    TallyOfAppend(Having(node.visits, c.rules, {Submitted}), chunk);
    TallyOfAppend(Having(node.visits, c.rules, {Inlined}), chunk);
    TallyOfAppend(Having(node.visits, c.rules, {Dropped}), chunk);
    NextChunk(ChunksOf(node.visits), node.at.left, ChunksIn(node.queue));
    assert ChunksOf(node.visits + [v]) == ChunksOf(node.visits) + [chunk];
    assert node.made + events == EventsOf(node.sent) + (node.dirty + events);
  }

  // ---------------------------------------------------------------------
  // The books of all nodes

  predicate AllBooks(c: Config, nodes: seq<Node>) {
    forall n :: 0 <= n < |nodes| ==> BooksOk(c, n, nodes[n])
  }

  /** What a node sent has been received or is on its way, in order. */
  predicate NothingLost(s: State) {
    forall n :: 0 <= n < |s.nodes| ==> s.nodes[n].sent == From(s.received, n) + From(s.out, n)
  }

  /** What is routed to a shard has come to it or is still to be fed. */
  predicate InputOk(c: Config, s: State, input: seq<Routed>) {
    forall n :: 0 <= n < c.workers && n < |s.nodes| ==>
      ChunksFor(input, n) == s.nodes[n].arrived + if s.phase.Feeding? then ChunksFor(s.phase.input, n) else []
  }

  /** The node a step of a thread is about, and what it becomes, but for a submitted chunk's new home. */
  function Stepped(c: Config, s: State, a: Action): Node
    requires !a.Send? && !a.EndOfInput? && !a.SendStop? && !a.Receive? && !a.Join? && Enabled(c, s, a)
  {
    if a.Dispatch? then Dispatched(s.nodes[a.n], Decided(c, s, a.n), RoomFor(c, s, s.nodes[a.n].at.left[0]), a.events)
    else Apply(c, s, a).nodes[a.n]
  }

  lemma SteppedBooks(c: Config, s: State, a: Action)
    requires !a.Send? && !a.EndOfInput? && !a.SendStop? && !a.Receive? && !a.Join? && Enabled(c, s, a)
    requires BooksOk(c, a.n, s.nodes[a.n])
    ensures BooksOk(c, a.n, Stepped(c, s, a))
  {
    hide BooksOk, TakeNext, Dispatched, Processed, Sent, Decide, RoomFor;
    var node := s.nodes[a.n];
    match a
    case Take(n, events) => TakeBooks(c, n, node, events);
    case Dispatch(n, events) => DispatchBooks(c, n, node, RoomFor(c, s, node.at.left[0]), events);
    case Process(n, events) => ProcessBooks(c, n, node, events);
    case Flush(n) => SendBooks(c, n, node, Events(n, node.dirty), if node.at.stopping then Reporting else Receiving);
    case MakeReport(n) => SendBooks(c, n, node, ReportOf(n, node), Finished);
    case MakeSnapshot(n) => SendBooks(c, n, node, Snapshot(n), Receiving);
    case Timeout(n) => MoveBooks(c, n, node, Flushing(false));
    case EndWork(n, flush) => MoveBooks(c, n, node, if flush then Flushing(false) else Receiving);
  }

  /** The nodes after a step: the one stepped, and the one a chunk is submitted to. */
  lemma NodesAfter(c: Config, s: State, a: Action)
    requires Sane(c, s) && Enabled(c, s, a)
    ensures var after := Apply(c, s, a);
            if a.Send? then
              var r := s.phase.input[0];
              after.nodes == s.nodes[r.shard := Push(s.nodes[r.shard], Work(r.chunks))]
            else if a.SendStop? then after.nodes == s.nodes[s.phase.next := Push(s.nodes[s.phase.next], Stop)]
            else if a.EndOfInput? || a.Receive? || a.Join? then after.nodes == s.nodes
            else if a.Dispatch? && Decided(c, s, a.n).outcome.Submitted? then
              var chunk := s.nodes[a.n].at.left[0];
              c.offloads > 0 && var t := c.Target(chunk.flow);
              a.n < c.workers <= t < |s.nodes|
              && after.nodes == s.nodes[a.n := Stepped(c, s, a)][t := Push(s.nodes[t], Work([chunk]))]
            else after.nodes == s.nodes[a.n := Stepped(c, s, a)]
  {
    hide Sane, Push, TakeNext, Dispatched, Processed, Sent, Decide;
    SaneParts(c, s);
  }

  lemma BooksStep(c: Config, s: State, a: Action)
    requires Sane(c, s) && AllBooks(c, s.nodes) && Enabled(c, s, a)
    ensures AllBooks(c, Apply(c, s, a).nodes)
  {
    hide Sane, BooksOk, Push, Stepped, Apply, Decide;
    NodesAfter(c, s, a);
    if a.Send? {
      PushBooks(c, s.phase.input[0].shard, s.nodes[s.phase.input[0].shard], Work(s.phase.input[0].chunks));
    } else if a.SendStop? {
      PushBooks(c, s.phase.next, s.nodes[s.phase.next], Stop);
    } else if !(a.EndOfInput? || a.Receive? || a.Join?) {
      SteppedBooks(c, s, a);
      if a.Dispatch? && Decided(c, s, a.n).outcome.Submitted? {
        var chunk := s.nodes[a.n].at.left[0];
        PushBooks(c, c.Target(chunk.flow), s.nodes[c.Target(chunk.flow)], Work([chunk]));
      }
    }
  }

  /** Only the three sending steps send, and what they send goes out. */
  lemma SentAndOut(c: Config, s: State, a: Action, n: nat)
    requires Sane(c, s) && Enabled(c, s, a) && !a.Receive? && n < |s.nodes|
    ensures var after := Apply(c, s, a);
            && after.received == s.received && |after.nodes| == |s.nodes|
            && if a.Flush? || a.MakeReport? || a.MakeSnapshot?
               then |after.out| == |s.out| + 1 && after.out == s.out + [after.out[|s.out|]]
                    && after.out[|s.out|].from == a.n
                    && after.nodes[n].sent == if n == a.n then s.nodes[n].sent + [after.out[|s.out|]] else s.nodes[n].sent
               else after.out == s.out && after.nodes[n].sent == s.nodes[n].sent
  {
    hide Sane, Decide;
    SaneParts(c, s);
  }

  lemma NothingLostStep(c: Config, s: State, a: Action)
    requires Sane(c, s) && NothingLost(s) && Enabled(c, s, a)
    ensures NothingLost(Apply(c, s, a))
  {
    hide Sane, From, Enabled, NodeApply, Received;
    var after := Apply(c, s, a);
    forall n | 0 <= n < |after.nodes|
      ensures after.nodes[n].sent == From(after.received, n) + From(after.out, n)
    {
      if a.Receive? {
        ReceivedMoves(c, s);
        FromFirst(s.out, n);
        FromAppend(s.received, s.out[0], n);
      } else {
        SameCount(c, s, a);
        SentAndOut(c, s, a, n);
        if after.out != s.out {
          FromAppend(s.out, after.out[|s.out|], n);
        }
      }
    }
  }

  lemma SameCount(c: Config, s: State, a: Action)
    requires Sane(c, s) && Enabled(c, s, a)
    ensures |Apply(c, s, a).nodes| == |s.nodes| == c.Nodes()
  {
    hide Sane, Decide;
    SaneParts(c, s);
  }

  lemma ReceivedMoves(c: Config, s: State)
    requires Enabled(c, s, Receive)
    ensures var after := Apply(c, s, Receive);
            s.out != [] && after.nodes == s.nodes && after.out == s.out[1..] && after.received == s.received + [s.out[0]]
  {
  }

  /** Only what is fed arrives at a worker, and only what is submitted at an offload worker. */
  lemma Arrives(c: Config, s: State, a: Action, n: nat)
    requires Sane(c, s) && Enabled(c, s, a) && n < |s.nodes|
    ensures var after := Apply(c, s, a);
            && |after.nodes| == |s.nodes|
            && after.nodes[n].arrived
               == s.nodes[n].arrived
                  + if a.Send? && n == s.phase.input[0].shard then s.phase.input[0].chunks
                    else if a.Dispatch? && Decided(c, s, a.n).outcome.Submitted? && n >= c.workers
                            && c.offloads > 0 && n == c.Target(s.nodes[a.n].at.left[0].flow)
                    then [s.nodes[a.n].at.left[0]] else []
  {
    hide Sane, Decide;
    SaneParts(c, s);
  }

  lemma InputStep(c: Config, s: State, a: Action, input: seq<Routed>)
    requires Sane(c, s) && InputOk(c, s, input) && Enabled(c, s, a)
    ensures InputOk(c, Apply(c, s, a), input)
  {
    hide Sane, Decide, Enabled, Apply, ChunksFor;
    var after := Apply(c, s, a);
    PhaseAfter(c, s, a);
    SameCount(c, s, a);
    forall n | 0 <= n < c.workers && n < |after.nodes|
      ensures ChunksFor(input, n)
              == after.nodes[n].arrived + if after.phase.Feeding? then ChunksFor(after.phase.input, n) else []
    {
      Arrives(c, s, a, n);
      if a.Send? {
        ChunksForFirst(s.phase.input, n);
      } else if a.EndOfInput? {
        NoChunksFor(n);
      }
    }
  }

  lemma ChunksForFirst(input: seq<Routed>, n: nat)
    requires input != []
    ensures ChunksFor(input, n) == (if input[0].shard == n then input[0].chunks else []) + ChunksFor(input[1..], n)
  {
  }

  lemma NoChunksFor(n: nat)
    ensures ChunksFor([], n) == []
  {
  }

  lemma PhaseAfter(c: Config, s: State, a: Action)
    requires Enabled(c, s, a)
    ensures a.Send? ==> s.phase.Feeding? && s.phase.input != [] && Apply(c, s, a).phase == Feeding(s.phase.input[1..])
    ensures a.EndOfInput? ==> s.phase == Feeding([]) && !Apply(c, s, a).phase.Feeding?
    ensures !a.Send? && !a.EndOfInput? ==>
              Apply(c, s, a).phase == s.phase || (!s.phase.Feeding? && !Apply(c, s, a).phase.Feeding?)
  {
    hide Decide;
  }

  // ---------------------------------------------------------------------
  // One flow

  /** All the flow's chunks are routed to one shard. */
  predicate Owned(c: Config, input: seq<Routed>, flow: nat, owner: nat) {
    owner < c.workers
    && forall n :: 0 <= n < c.workers && n != owner ==> NoneOf(ChunksFor(input, n), flow)
  }

  predicate NoneOf(chunks: seq<Chunk>, flow: nat) {
    forall i :: 0 <= i < |chunks| ==> chunks[i].flow != flow
  }

  /** The flow's offload worker gets what its owner submits, in order, and no other gets any of it. */
  predicate FlowOk(c: Config, s: State, flow: nat, owner: nat) {
    c.offloads > 0 && owner < c.workers <= |s.nodes|
    && forall t :: c.workers <= t < |s.nodes| ==>
         OfFlow(s.nodes[t].arrived, flow)
         == if t == c.Target(flow) then With(s.nodes[owner].visits, c.rules, flow, Submitted) else []
  }

  lemma Visited(c: Config, s: State, a: Action, n: nat)
    requires Sane(c, s) && Enabled(c, s, a) && n < |s.nodes|
    ensures |Apply(c, s, a).nodes| == |s.nodes|
    ensures Apply(c, s, a).nodes[n].visits
            == if a.Dispatch? && n == a.n
               then s.nodes[n].visits + [Visit(s.nodes[n].at.left[0], RoomFor(c, s, s.nodes[n].at.left[0]))]
               else s.nodes[n].visits
  {
    hide Sane, Decide;
    SaneParts(c, s);
  }

  lemma LastWith(visits: seq<Visit>, v: Visit, rules: Rules, flow: nat, outcome: Outcome)
    ensures var d := Decide(TableAfter(visits, rules), v.chunk.flow, v.room, rules);
            With(visits + [v], rules, flow, outcome)
            == if v.chunk.flow == flow && d.outcome == outcome then With(visits, rules, flow, outcome) + [v.chunk]
               else With(visits, rules, flow, outcome)
  {
    hide Decide;
    assert (visits + [v])[..|visits|] == visits;
  }

  /** A chunk a worker is at was routed to it. */
  lemma ChunkWasRouted(c: Config, s: State, input: seq<Routed>, flow: nat, owner: nat, n: nat)
    requires Sane(c, s) && AllBooks(c, s.nodes) && InputOk(c, s, input) && Owned(c, input, flow, owner)
    requires n < c.workers && s.nodes[n].at.Working? && s.nodes[n].at.left != [] && s.nodes[n].at.left[0].flow == flow
    ensures n == owner
  {
    hide Sane, EventsOk, CountersOk, ChunksIn, ChunksFor;
    SaneParts(c, s);
    var node := s.nodes[n];
    var all := ChunksFor(input, n);
    assert BooksOk(c, n, node);
    assert all[|node.visits|] == node.arrived[|node.visits|] == node.at.left[0];
  }

  lemma FlowStep(c: Config, s: State, a: Action, input: seq<Routed>, flow: nat, owner: nat)
    requires Sane(c, s) && AllBooks(c, s.nodes) && InputOk(c, s, input) && Owned(c, input, flow, owner)
    requires FlowOk(c, s, flow, owner) && Enabled(c, s, a)
    ensures FlowOk(c, Apply(c, s, a), flow, owner)
  {
    hide Sane, Decide, Apply, Enabled, OfFlow, With, InputOk, AllBooks, Owned, PhaseOk;
    SaneParts(c, s);
    var after := Apply(c, s, a);
    SameCount(c, s, a);
    Visited(c, s, a, owner);
    if a.Dispatch? {
      DispatchFlow(c, s, a, input, flow, owner);
    } else {
      forall t | c.workers <= t < |after.nodes|
        ensures OfFlow(after.nodes[t].arrived, flow) == OfFlow(s.nodes[t].arrived, flow)
      {
        Arrives(c, s, a, t);
        SendsToShards(c, s, a);
        assert s.nodes[t].arrived + [] == s.nodes[t].arrived;
      }
    }
  }

  lemma SendsToShards(c: Config, s: State, a: Action)
    requires Sane(c, s) && Enabled(c, s, a)
    ensures a.Send? ==> s.phase.Feeding? && s.phase.input != [] && s.phase.input[0].shard < c.workers
  {
    hide NodesOk, ReportsOk;
  }

  lemma DispatchFlow(c: Config, s: State, a: Action, input: seq<Routed>, flow: nat, owner: nat)
    requires Sane(c, s) && AllBooks(c, s.nodes) && InputOk(c, s, input) && Owned(c, input, flow, owner)
    requires FlowOk(c, s, flow, owner) && a.Dispatch? && Enabled(c, s, a)
    ensures FlowOk(c, Apply(c, s, a), flow, owner)
  {
    hide Sane, Decide, Apply, OfFlow, With, InputOk, AllBooks, Owned, BooksOk;
    SaneParts(c, s);
    var after := Apply(c, s, a);
    var chunk := s.nodes[a.n].at.left[0];
    var d := Decided(c, s, a.n);
    Visited(c, s, a, owner);
    if chunk.flow == flow {
      ChunkWasRouted(c, s, input, flow, owner, a.n);
    }
    TableIsDecided(c, s, owner);
    LastWith(s.nodes[owner].visits, Visit(chunk, RoomFor(c, s, chunk)), c.rules, flow, Submitted);
    forall t | c.workers <= t < |after.nodes|
      ensures OfFlow(after.nodes[t].arrived, flow)
              == if t == c.Target(flow) then With(after.nodes[owner].visits, c.rules, flow, Submitted) else []
    {
      Arrives(c, s, a, t);
      OfFlowLast(s.nodes[t].arrived, chunk, flow);
      assert s.nodes[t].arrived + [] == s.nodes[t].arrived;
    }
  }

  lemma TableIsDecided(c: Config, s: State, n: nat)
    requires AllBooks(c, s.nodes) && n < c.workers && n < |s.nodes|
    ensures s.nodes[n].table == TableAfter(s.nodes[n].visits, c.rules)
  {
    hide Having, TallyOf, EventsOk, ChunksOk, TableAfter;
    assert BooksOk(c, n, s.nodes[n]);
  }

  // ---------------------------------------------------------------------
  // All that was submitted

  /** What came to an offload worker. */
  function ArrivedTally(c: Config, n: nat, node: Node): Tally {
    if n < c.workers then Tally(0, 0) else TallyOf(node.arrived)
  }

  function Part(t: Tally, bytes: bool): nat { if bytes then t.bytes else t.chunks }

  /** Chunks, or bytes, that workers count as submitted less those that came to offload workers. */
  function Missing(c: Config, nodes: seq<Node>, bytes: bool): int {
    if nodes == [] then 0
    else
      var n := |nodes| - 1;
      Missing(c, nodes[..n], bytes) + Part(nodes[n].submitted, bytes) - Part(ArrivedTally(c, n, nodes[n]), bytes)
  }

  lemma {:induction false} MissingPut(c: Config, nodes: seq<Node>, n: nat, node: Node, bytes: bool)
    requires n < |nodes|
    ensures Missing(c, nodes[n := node], bytes)
            == Missing(c, nodes, bytes) + Part(node.submitted, bytes) - Part(ArrivedTally(c, n, node), bytes)
               - Part(nodes[n].submitted, bytes) + Part(ArrivedTally(c, n, nodes[n]), bytes)
    decreases |nodes|
  {
    hide ArrivedTally, Part;
    var last := |nodes| - 1;
    if n == last {
      assert nodes[n := node][..last] == nodes[..last];
    } else {
      assert nodes[n := node][..last] == nodes[..last][n := node];
      MissingPut(c, nodes[..last], n, node, bytes);
    }
  }

  lemma SteppedTallies(c: Config, s: State, a: Action)
    requires !a.Send? && !a.EndOfInput? && !a.SendStop? && !a.Receive? && !a.Join? && Enabled(c, s, a)
    ensures Stepped(c, s, a).arrived == s.nodes[a.n].arrived
    ensures Stepped(c, s, a).submitted
            == if a.Dispatch? && Decided(c, s, a.n).outcome.Submitted?
               then s.nodes[a.n].submitted.Plus(s.nodes[a.n].at.left[0]) else s.nodes[a.n].submitted
  {
    hide Decide;
  }

  lemma PushTallies(c: Config, n: nat, node: Node, command: Command)
    ensures Push(node, command).submitted == node.submitted
    ensures ArrivedTally(c, n, Push(node, command))
            == if n >= c.workers && command.Work? then TallyOf(node.arrived + command.chunks) else ArrivedTally(c, n, node)
  {
  }

  lemma MissingStep(c: Config, s: State, a: Action, bytes: bool)
    requires Sane(c, s) && Enabled(c, s, a)
    ensures Missing(c, Apply(c, s, a).nodes, bytes) == Missing(c, s.nodes, bytes)
  {
    hide Sane, Apply, Push, Stepped, Decide, Missing, ArrivedTally, TallyOf, Part;
    NodesAfter(c, s, a);
    if a.Send? {
      var r := s.phase.input[0];
      SendsToShards(c, s, a);
      PushTallies(c, r.shard, s.nodes[r.shard], Work(r.chunks));
      MissingPut(c, s.nodes, r.shard, Push(s.nodes[r.shard], Work(r.chunks)), bytes);
    } else if a.SendStop? {
      var n := s.phase.next;
      PushTallies(c, n, s.nodes[n], Stop);
      MissingPut(c, s.nodes, n, Push(s.nodes[n], Stop), bytes);
    } else if !(a.EndOfInput? || a.Receive? || a.Join?) {
      SteppedTallies(c, s, a);
      MissingPut(c, s.nodes, a.n, Stepped(c, s, a), bytes);
      SameArrivals(c, a.n, s.nodes[a.n], Stepped(c, s, a));
      if a.Dispatch? && Decided(c, s, a.n).outcome.Submitted? {
        var chunk := s.nodes[a.n].at.left[0];
        var t := c.Target(chunk.flow);
        PushTallies(c, t, s.nodes[t], Work([chunk]));
        MissingPut(c, s.nodes[a.n := Stepped(c, s, a)], t, Push(s.nodes[t], Work([chunk])), bytes);
        OneMoreArrived(c, t, s.nodes[t], chunk, bytes);
        PartPlus(s.nodes[a.n].submitted, chunk, bytes);
      }
    }
  }

  lemma SameArrivals(c: Config, n: nat, node: Node, after: Node)
    requires after.arrived == node.arrived
    ensures ArrivedTally(c, n, after) == ArrivedTally(c, n, node)
  {
  }

  lemma OneMoreArrived(c: Config, t: nat, node: Node, chunk: Chunk, bytes: bool)
    requires t >= c.workers
    ensures Part(TallyOf(node.arrived + [chunk]), bytes)
            == Part(ArrivedTally(c, t, node), bytes) + if bytes then chunk.size else 1
  {
    TallyOfAppend(node.arrived, chunk);
  }

  lemma PartPlus(t: Tally, chunk: Chunk, bytes: bool)
    ensures Part(t.Plus(chunk), bytes) == Part(t, bytes) + if bytes then chunk.size else 1
  {
  }

  function Total(nodes: seq<Node>, ofProcessed: bool): Tally {
    if nodes == [] then Tally(0, 0)
    else Total(nodes[..|nodes| - 1], ofProcessed).Add(
           if ofProcessed then nodes[|nodes| - 1].processed else nodes[|nodes| - 1].submitted)
  }

  lemma {:induction false} NothingMissing(c: Config, nodes: seq<Node>)
    requires forall n :: 0 <= n < |nodes| ==> nodes[n].processed == ArrivedTally(c, n, nodes[n])
    ensures Missing(c, nodes, false) == Total(nodes, false).chunks - Total(nodes, true).chunks
    ensures Missing(c, nodes, true) == Total(nodes, false).bytes - Total(nodes, true).bytes
  {
    if nodes != [] {
      hide ArrivedTally;
      NothingMissing(c, nodes[..|nodes| - 1]);
    }
  }
}
