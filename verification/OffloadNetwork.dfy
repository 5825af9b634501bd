/**
 The coordinator, the shard workers, the stream-offload workers and the bounded
 queues between them, as one transition system. Workers and offload workers are
 nodes of one list: shard workers first. Timers fire at any time they may.
 */
module OffloadNetwork {
  import opened Bytes
  import opened ShardTopology
  import opened StreamPlacement

  /** An analysis event, by number. */
  type Event = nat

  /** A packet's ordered stream chunks, or a task of one chunk, to work on; or the end. */
  datatype Command = Work(chunks: seq<Chunk>) | Stop

  /** Where a node's thread is. */
  datatype Control =
    | Receiving
    | Working(left: seq<Chunk>)
    | Flushing(stopping: bool)
    | Reporting
    | Finished

  /** A number of chunks and their bytes. */
  datatype Tally = Tally(chunks: nat, bytes: nat) {
    function Plus(c: Chunk): Tally { Tally(chunks + 1, bytes + c.size) }

    function Add(t: Tally): Tally { Tally(chunks + t.chunks, bytes + t.bytes) }
  }

  const NONE_YET := Tally(0, 0)

  datatype Message =
    | Events(from: nat, events: seq<Event>)
    | Snapshot(from: nat)
    | Report(from: nat, submitted: Tally, processed: Tally)

  /**
   A node: its input queue, its thread, the events it has not flushed, its flow
   placements, its counters, and then the histories of what came to it, what it
   decided, what it worked on, and the events it made and messages it sent.
   */
  datatype Node = Node(
    queue: seq<Command>, at: Control, dirty: seq<Event>, table: Table,
    submitted: Tally, inlined: Tally, dropped: Tally, processed: Tally,
    arrived: seq<Chunk>, visits: seq<Visit>, worked: seq<Chunk>, made: seq<Event>, sent: seq<Message>)

  const NEW_NODE := Node([], Receiving, [], [], NONE_YET, NONE_YET, NONE_YET, NONE_YET, [], [], [], [], [])

  /** A packet routed to a shard, by the chunks the shard's flow table will make of it. */
  datatype Routed = Routed(shard: nat, chunks: seq<Chunk>)

  datatype Phase =
    | Feeding(input: seq<Routed>)
    | StoppingWorkers(next: nat)
    | AwaitingWorkers
    | StoppingOffloads(next: nat)
    | AwaitingOffloads
    | Done

  datatype Config = Config(
    workers: nat, offloads: nat, workerQueue: nat, offloadQueue: nat, outQueue: nat,
    rules: Rules, hash: nat -> nat)
  {
    /** Queue depths and capacities are made at least one, and there is at least one worker. */
    predicate Valid() {
      workers > 0 && workerQueue > 0 && offloadQueue > 0 && outQueue > 0
      && rules.Valid() && (rules.offloading <==> offloads > 0)
    }

    function Nodes(): nat { workers + offloads }

    function QueueOf(n: nat): nat { if n < workers then workerQueue else offloadQueue }

    /** The offload worker of a flow. */
    function Target(flow: nat): nat
      requires offloads > 0
    {
      workers + hash(flow) % offloads
    }
  }

  /** Flows go to offload workers only, and two to the same one exactly when their hashes are congruent. */
  lemma SameTargetExactly(c: Config, a: nat, b: nat)
    requires c.offloads > 0
    ensures c.workers <= c.Target(a) < c.Nodes()
    ensures c.Target(a) == c.Target(b) <==> exists k: int :: Apart(c.hash(a), c.hash(b), k, c.offloads)
    ensures c.hash(a) < c.offloads ==> c.Target(a) == c.workers + c.hash(a)
  {
    hide Apart;
    SameRemainderExactly(c.hash(a), c.hash(b), c.offloads);
    SmallRemainder(c.hash(a), c.offloads);
  }

  lemma SmallRemainder(x: nat, n: nat)
    requires n > 0
    ensures x % n < n && (x < n ==> x % n == x)
  {
  }

  lemma SameRemainderExactly(x: nat, y: nat, n: nat)
    requires n > 0
    ensures x % n == y % n <==> exists k: int :: Apart(x, y, k, n)
  {
    hide Apart;
    if x % n == y % n {
      QuotientsApart(x, y, n);
    } else if k: int :| Apart(x, y, k, n) {
      SameRemainder(x, y, k, n);
    }
  }

  /** `x` is so many times `n` more than `y`. */
  predicate Apart(x: nat, y: nat, k: int, n: nat) { x - y == n * k }

  lemma QuotientsApart(x: nat, y: nat, n: nat)
    requires n > 0 && x % n == y % n
    ensures Apart(x, y, x / n - y / n, n)
  {
    Distributes(n, x / n, y / n);
  }

  lemma SameRemainder(x: nat, y: nat, k: int, n: nat)
    requires n > 0 && Apart(x, y, k, n)
    ensures x % n == y % n
  {
    var q := y / n + k;
    Distributes(n, q, y / n);
    assert x == n * q + y % n;
    if q < 0 {
      Distributes(n, q, -1);
      NotNegative(n, -1 - q);
      Distributes(n, -1, q);
    } else {
      RemainderIs(x, n, q, y % n);
    }
  }

  lemma Distributes(n: nat, a: int, b: int)
    ensures n * (a - b) == n * a - n * b
  {
  }

  lemma NotNegative(n: nat, a: int)
    requires a >= 0
    ensures n * a >= 0
  {
  }

  datatype State = State(
    phase: Phase, nodes: seq<Node>, out: seq<Message>, received: seq<Message>,
    workerReports: nat, offloadReports: nat)

  function Start(c: Config, input: seq<Routed>): State {
    State(Feeding(input), seq(c.Nodes(), _ => NEW_NODE), [], [], 0, 0)
  }

  datatype Action =
    // of the coordinator
    | Send | EndOfInput | SendStop | Receive | Join
    // of a node's thread
    | Take(n: nat, events: seq<Event>) | Timeout(n: nat) | Dispatch(n: nat, events: seq<Event>)
    | Process(n: nat, events: seq<Event>) | EndWork(n: nat, flush: bool) | Flush(n: nat) | MakeReport(n: nat)
    | MakeSnapshot(n: nat)

  predicate HasRoom(c: Config, s: State, n: nat) {
    n < |s.nodes| && |s.nodes[n].queue| < c.QueueOf(n)
  }

  predicate OutHasRoom(c: Config, s: State) { |s.out| < c.outQueue }

  /** Whether the coordinator still takes messages. */
  predicate Listens(c: Config, s: State) {
    match s.phase
    case AwaitingWorkers => s.workerReports != c.workers
    case AwaitingOffloads => s.offloadReports != c.offloads
    case Done => false
    case _ => true
  }

  /** What a worker decides for the chunk it is at. */
  function Decided(c: Config, s: State, n: nat): Decision
    requires n < |s.nodes| && s.nodes[n].at.Working? && s.nodes[n].at.left != []
  {
    var chunk := s.nodes[n].at.left[0];
    Decide(s.nodes[n].table, chunk.flow, RoomFor(c, s, chunk), c.rules)
  }

  predicate RoomFor(c: Config, s: State, chunk: Chunk) {
    c.offloads > 0 && HasRoom(c, s, c.Target(chunk.flow))
  }

  predicate Enabled(c: Config, s: State, a: Action) {
    match a
    case Send => s.phase.Feeding? && s.phase.input != [] && HasRoom(c, s, s.phase.input[0].shard)
    case EndOfInput => s.phase.Feeding? && s.phase.input == []
    case SendStop => (s.phase.StoppingWorkers? || s.phase.StoppingOffloads?) && HasRoom(c, s, s.phase.next)
    case Receive => s.out != [] && Listens(c, s)
    case Join =>
      || (s.phase.AwaitingWorkers? && s.workerReports == c.workers)
      || (s.phase.AwaitingOffloads? && s.offloadReports == c.offloads)
    case _ => a.n < |s.nodes| && NodeEnabled(c, s, a, s.nodes[a.n])
  }

  predicate NodeEnabled(c: Config, s: State, a: Action, node: Node)
    requires !a.Send? && !a.EndOfInput? && !a.SendStop? && !a.Receive? && !a.Join?
    requires a.n < |s.nodes| && node == s.nodes[a.n]
  {
    match a
    case Take(n, events) => node.at.Receiving? && node.queue != [] && (n >= c.workers || node.queue[0].Stop? ==> events == [])
    case Timeout(n) => node.at.Receiving? && node.queue == [] && node.dirty != []
    case Dispatch(n, events) =>
      && n < c.workers && node.at.Working? && node.at.left != []
      && var o := Decided(c, s, n).outcome;
         if o.Submitted? then RoomFor(c, s, node.at.left[0]) && events == [] else o.Dropped? ==> events == []
    case Process(n, events) => n >= c.workers && node.at.Working? && node.at.left != []
    case EndWork(n, flush) => node.at.Working? && node.at.left == [] && (flush ==> node.dirty != [])
    case Flush(n) => node.at.Flushing? && OutHasRoom(c, s)
    case MakeReport(n) => node.at.Reporting? && OutHasRoom(c, s)
    case MakeSnapshot(n) => node.at.Receiving? && OutHasRoom(c, s)
  }

  // ---------------------------------------------------------------------
  // What the steps do

  function Push(node: Node, command: Command): Node {
    node.(queue := node.queue + [command], arrived := if command.Work? then node.arrived + command.chunks else node.arrived)
  }

  function TakeNext(node: Node, events: seq<Event>): Node
    requires node.queue != []
  {
    var rest := node.(queue := node.queue[1..]);
    match node.queue[0]
    case Work(chunks) => rest.(at := Working(chunks), dirty := node.dirty + events, made := node.made + events)
    case Stop => rest.(at := if node.dirty == [] then Reporting else Flushing(true))
  }

  /** A worker's own part of a dispatch. */
  function Dispatched(node: Node, d: Decision, room: bool, events: seq<Event>): Node
    requires node.at.Working? && node.at.left != []
  {
    var chunk := node.at.left[0];
    var here := d.outcome.Inlined? || d.outcome.Parsed?;
    node.(at := Working(node.at.left[1..]), table := d.table,
          dirty := node.dirty + events, made := node.made + events,
          visits := node.visits + [Visit(chunk, room)],
          submitted := if d.outcome.Submitted? then node.submitted.Plus(chunk) else node.submitted,
          inlined := if d.outcome.Inlined? then node.inlined.Plus(chunk) else node.inlined,
          dropped := if d.outcome.Dropped? then node.dropped.Plus(chunk) else node.dropped,
          worked := if here then node.worked + [chunk] else node.worked)
  }

  function Processed(node: Node, events: seq<Event>): Node
    requires node.at.Working? && node.at.left != []
  {
    var chunk := node.at.left[0];
    node.(at := Working(node.at.left[1..]), dirty := node.dirty + events, made := node.made + events,
          processed := node.processed.Plus(chunk), worked := node.worked + [chunk])
  }

  function Sent(node: Node, message: Message, at: Control): Node {
    node.(at := at, dirty := if message.Events? then [] else node.dirty, sent := node.sent + [message])
  }

  function PutNode(s: State, n: nat, node: Node): State
    requires n < |s.nodes|
  {
    s.(nodes := s.nodes[n := node])
  }

  function PutOut(s: State, n: nat, node: Node, message: Message): State
    requires n < |s.nodes|
  {
    s.(nodes := s.nodes[n := node], out := s.out + [message])
  }

  function ReportOf(n: nat, node: Node): Message { Report(n, node.submitted, node.processed) }

  /** The coordinator counts only the reports it is waiting for. */
  function Received(c: Config, s: State): State
    requires s.out != []
  {
    var m := s.out[0];
    var workersTurn := s.phase.StoppingWorkers? || s.phase.AwaitingWorkers?;
    var offloadsTurn := s.phase.StoppingOffloads? || s.phase.AwaitingOffloads?;
    s.(out := s.out[1..], received := s.received + [m],
       workerReports := s.workerReports + if m.Report? && m.from < c.workers && workersTurn then 1 else 0,
       offloadReports := s.offloadReports + if m.Report? && m.from >= c.workers && offloadsTurn then 1 else 0)
  }

  function AfterStop(c: Config, phase: Phase): Phase
    requires phase.StoppingWorkers? || phase.StoppingOffloads?
  {
    if phase.StoppingWorkers?
    then if phase.next + 1 == c.workers then AwaitingWorkers else StoppingWorkers(phase.next + 1)
    else if phase.next + 1 == c.Nodes() then AwaitingOffloads else StoppingOffloads(phase.next + 1)
  }

  function Apply(c: Config, s: State, a: Action): State
    requires Enabled(c, s, a)
  {
    match a
    case Send =>
      var r := s.phase.input[0];
      PutNode(s, r.shard, Push(s.nodes[r.shard], Work(r.chunks))).(phase := Feeding(s.phase.input[1..]))
    case EndOfInput => s.(phase := StoppingWorkers(0))
    case SendStop => PutNode(s, s.phase.next, Push(s.nodes[s.phase.next], Stop)).(phase := AfterStop(c, s.phase))
    case Receive => Received(c, s)
    case Join =>
      s.(phase := if s.phase.AwaitingWorkers? && c.offloads > 0 then StoppingOffloads(c.workers) else Done)
    case _ => NodeApply(c, s, a, s.nodes[a.n])
  }

  function NodeApply(c: Config, s: State, a: Action, node: Node): State
    requires !a.Send? && !a.EndOfInput? && !a.SendStop? && !a.Receive? && !a.Join?
    requires a.n < |s.nodes| && node == s.nodes[a.n] && NodeEnabled(c, s, a, node)
  {
    match a
    case Take(n, events) => PutNode(s, n, TakeNext(node, events))
    case Timeout(n) => PutNode(s, n, node.(at := Flushing(false)))
    case Dispatch(n, events) =>
      var chunk := node.at.left[0];
      var d := Decided(c, s, n);
      var own := PutNode(s, n, Dispatched(node, d, RoomFor(c, s, chunk), events));
      if d.outcome.Submitted? then
        var t := c.Target(chunk.flow);
        PutNode(own, t, Push(own.nodes[t], Work([chunk])))
      else own
    case Process(n, events) => PutNode(s, n, Processed(node, events))
    case EndWork(n, flush) => PutNode(s, n, node.(at := if flush then Flushing(false) else Receiving))
    case Flush(n) =>
      var m := Events(n, node.dirty);
      PutOut(s, n, Sent(node, m, if node.at.stopping then Reporting else Receiving), m)
    case MakeReport(n) =>
      var m := ReportOf(n, node);
      PutOut(s, n, Sent(node, m, Finished), m)
    case MakeSnapshot(n) =>
      var m := Snapshot(n);
      PutOut(s, n, Sent(node, m, Receiving), m)
  }

  /** Steps one after the other, each enabled when it is taken. */
  predicate IsRun(c: Config, s: State, actions: seq<Action>)
    decreases |actions|
  {
    actions == [] || (Enabled(c, s, actions[0]) && IsRun(c, Apply(c, s, actions[0]), actions[1..]))
  }

  function After(c: Config, s: State, actions: seq<Action>): State
    requires IsRun(c, s, actions)
    decreases |actions|
  {
    if actions == [] then s else After(c, Apply(c, s, actions[0]), actions[1..])
  }
}
