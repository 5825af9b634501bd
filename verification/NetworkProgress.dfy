/**
 The network never deadlocks, and it ends: in every state it can reach some
 thread can move, and every move but a live snapshot uses something up.
 */
module NetworkProgress {
  import opened Bytes
  import opened StreamPlacement
  import opened OffloadNetwork
  import opened NetworkInvariant

  // ---------------------------------------------------------------------
  // Some thread can move

  predicate CoordinatorMoves(c: Config, s: State) {
    Enabled(c, s, Send) || Enabled(c, s, EndOfInput) || Enabled(c, s, SendStop) || Enabled(c, s, Join)
  }

  /**
   A step some thread is bound to take if no other moves first: the coordinator
   receives only while it cannot do what it came for, and timers and live
   snapshots do not count.
   */
  predicate Due(c: Config, s: State, a: Action) {
    Enabled(c, s, a) && !a.MakeSnapshot? && !a.Timeout? && (a.Receive? ==> !CoordinatorMoves(c, s))
  }

  /** With room in the output a node with something to do moves, or the offload worker it waits for does. */
  lemma NodeMoves(c: Config, s: State, n: nat) returns (a: Action)
    requires Sane(c, s) && OutHasRoom(c, s) && n < |s.nodes| && !s.nodes[n].at.Finished?
    requires s.nodes[n].queue != [] || !s.nodes[n].at.Receiving?
    ensures Due(c, s, a)
  {
    hide Sane, NodesOk, ReportsOk, PhaseOk, Decide;
    var node := s.nodes[n];
    if node.at.Working? && node.at.left != [] && n < c.workers {
      if Decided(c, s, n).outcome.Submitted? && !RoomFor(c, s, node.at.left[0]) {
        SaneParts(c, s);
        SubmitsOnlyWhenOffloading(c, s, n);
        a := OffloadMoves(c, s, c.Target(node.at.left[0].flow), n);
      } else {
        a := Dispatch(n, []);
      }
    } else {
      a := SimpleMove(c, s, n);
    }
  }

  lemma SubmitsOnlyWhenOffloading(c: Config, s: State, n: nat)
    requires c.Valid() && n < |s.nodes| && s.nodes[n].at.Working? && s.nodes[n].at.left != []
    requires Decided(c, s, n).outcome.Submitted?
    ensures c.offloads > 0
  {
    var chunk := s.nodes[n].at.left[0];
    DecisionFits(s.nodes[n].table, chunk.flow, RoomFor(c, s, chunk), c.rules);
  }

  /** A node moves by itself unless it is a worker with a chunk to dispatch. */
  lemma SimpleMove(c: Config, s: State, n: nat) returns (a: Action)
    requires OutHasRoom(c, s) && n < |s.nodes| && !s.nodes[n].at.Finished?
    requires s.nodes[n].queue != [] || !s.nodes[n].at.Receiving?
    requires n < c.workers && s.nodes[n].at.Working? ==> s.nodes[n].at.left == []
    ensures Due(c, s, a)
  {
    var node := s.nodes[n];
    match node.at
    case Receiving => a := Take(n, []);
    case Working(left) => a := if left == [] then EndWork(n, false) else Process(n, []);
    case Flushing(_) => a := Flush(n);
    case Reporting => a := MakeReport(n);
  }

  /** An offload worker whose queue is full moves while a worker waits for it. */
  lemma OffloadMoves(c: Config, s: State, t: nat, n: nat) returns (a: Action)
    requires Sane(c, s) && OutHasRoom(c, s) && n < c.workers <= t < c.Nodes() && !s.nodes[n].at.Finished?
    requires !HasRoom(c, s, t)
    ensures Due(c, s, a)
  {
    hide Due;
    OffloadsRunWhileWorkersDo(c, s, n, t);
    assert NodeOk(c, s.phase, t, s.nodes[t]);
    a := SimpleMove(c, s, t);
  }

  /** A node that was sent its stop and has not finished has something to do. */
  lemma StoppedNodeHasWork(c: Config, s: State, n: nat)
    requires Sane(c, s) && n < |s.nodes| && Stopped(c, s.phase, n)
    ensures s.nodes[n].queue != [] || !s.nodes[n].at.Receiving?
  {
    assert NodeOk(c, s.phase, n, s.nodes[n]);
  }

  /** A node with a full queue has something to do. */
  lemma FullNodeHasWork(c: Config, s: State, n: nat)
    requires Sane(c, s) && n < |s.nodes| && !HasRoom(c, s, n)
    ensures s.nodes[n].queue != [] && !s.nodes[n].at.Finished?
  {
    assert NodeOk(c, s.phase, n, s.nodes[n]);
  }

  /** While reports are missing and none is on its way, some node has not finished. */
  lemma SomeoneIsUnfinished(c: Config, s: State, first: nat, end: nat) returns (n: nat)
    requires first < end <= |s.nodes| && Ended(s.nodes, first, end) != end - first
    ensures first <= n < end && !s.nodes[n].at.Finished?
  {
    EndedBounds(s.nodes, first, end);
    n :| first <= n < end && !s.nodes[n].at.Finished?;
  }

  /** In every state of every run before the last, some thread is bound to move. */
  lemma NeverStuck(c: Config, s: State) returns (a: Action)
    requires Sane(c, s) && s.phase != Done
    ensures Due(c, s, a)
  {
    if Enabled(c, s, Send) {
      a := Send;
    } else if Enabled(c, s, EndOfInput) {
      a := EndOfInput;
    } else if Enabled(c, s, SendStop) {
      a := SendStop;
    } else if Enabled(c, s, Join) {
      a := Join;
    } else {
      assert Listens(c, s);
      if s.out != [] {
        a := Receive;
      } else {
        hide Due, Enabled, NodesOk, Ended;
        var n := WaitedFor(c, s);
        a := NodeMoves(c, s, n);
      }
    }
  }

  /** The node the coordinator is waiting for when nothing has come from any. */
  lemma WaitedFor(c: Config, s: State) returns (n: nat)
    requires Sane(c, s) && s.phase != Done && !CoordinatorMoves(c, s) && s.out == []
    ensures n < |s.nodes| && !s.nodes[n].at.Finished? && (s.nodes[n].queue != [] || !s.nodes[n].at.Receiving?)
  {
    hide NodesOk, Ended, Shape;
    SaneParts(c, s);
    match s.phase
    case Feeding(input) =>
      n := input[0].shard;
      FullNodeHasWork(c, s, n);
    case StoppingWorkers(next) =>
      n := next;
      FullNodeHasWork(c, s, n);
    case StoppingOffloads(next) =>
      n := next;
      FullNodeHasWork(c, s, n);
    case AwaitingWorkers =>
      n := SomeoneIsUnfinished(c, s, 0, c.workers);
      StoppedNodeHasWork(c, s, n);
    case AwaitingOffloads =>
      n := SomeoneIsUnfinished(c, s, c.workers, c.Nodes());
      StoppedNodeHasWork(c, s, n);
  }

  // ---------------------------------------------------------------------
  // Every move uses something up

  function ChunkWeight(c: Config, n: nat): nat { if n < c.workers then 12 else 4 }

  function CommandWeight(c: Config, n: nat, command: Command): nat {
    if command.Stop? then 3 else 5 + |command.chunks| * ChunkWeight(c, n)
  }

  function QueueWeight(c: Config, n: nat, queue: seq<Command>): nat {
    if queue == [] then 0 else CommandWeight(c, n, queue[0]) + QueueWeight(c, n, queue[1..])
  }

  /** What a node may still do with what it has taken and not flushed. */
  function ControlWeight(c: Config, n: nat, node: Node): nat {
    var unflushed := if node.dirty == [] then 0 else 3;
    match node.at
    case Receiving => unflushed
    case Working(left) => 1 + unflushed + |left| * ChunkWeight(c, n)
    case Flushing(stopping) => if stopping then 4 else 2
    case Reporting => 2
    case Finished => 0
  }

  function NodeWeight(c: Config, n: nat, node: Node): nat {
    QueueWeight(c, n, node.queue) + ControlWeight(c, n, node)
  }

  function NodesWeight(c: Config, nodes: seq<Node>): nat {
    if nodes == [] then 0
    else NodesWeight(c, nodes[..|nodes| - 1]) + NodeWeight(c, |nodes| - 1, nodes[|nodes| - 1])
  }

  function InputWeight(c: Config, input: seq<Routed>): nat {
    if input == [] then 0
    else 1 + CommandWeight(c, input[0].shard, Work(input[0].chunks)) + InputWeight(c, input[1..])
  }

  function PhaseWeight(c: Config, phase: Phase): nat {
    match phase
    case Feeding(input) => InputWeight(c, input) + 4 * c.Nodes() + 5
    case StoppingWorkers(next) => 4 * SaturatingSub(c.Nodes(), next) + 4
    case AwaitingWorkers => 4 * c.offloads + 3
    case StoppingOffloads(next) => 4 * SaturatingSub(c.Nodes(), next) + 2
    case AwaitingOffloads => 1
    case Done => 0
  }

  function Weight(c: Config, s: State): nat {
    PhaseWeight(c, s.phase) + NodesWeight(c, s.nodes) + |s.out|
  }

  lemma {:induction false} QueueWeightPush(c: Config, n: nat, queue: seq<Command>, command: Command)
    ensures QueueWeight(c, n, queue + [command]) == QueueWeight(c, n, queue) + CommandWeight(c, n, command)
  {
    if queue == [] {
      assert [] + [command] == [command];
    } else {
      assert (queue + [command])[1..] == queue[1..] + [command];
      QueueWeightPush(c, n, queue[1..], command);
    }
  }

  lemma {:induction false} NodesWeightPut(c: Config, nodes: seq<Node>, n: nat, node: Node)
    requires n < |nodes|
    ensures NodesWeight(c, nodes[n := node]) == NodesWeight(c, nodes) - NodeWeight(c, n, nodes[n]) + NodeWeight(c, n, node)
    decreases |nodes|
  {
    hide NodeWeight;
    var last := |nodes| - 1;
    if n == last {
      assert nodes[n := node][..last] == nodes[..last];
    } else {
      assert nodes[n := node][..last] == nodes[..last][n := node];
      NodesWeightPut(c, nodes[..last], n, node);
    }
  }

  lemma PushWeight(c: Config, n: nat, node: Node, command: Command)
    ensures NodeWeight(c, n, Push(node, command)) == NodeWeight(c, n, node) + CommandWeight(c, n, command)
  {
    QueueWeightPush(c, n, node.queue, command);
  }

  lemma CoordinatorWeighs(c: Config, s: State, a: Action)
    requires Sane(c, s) && Enabled(c, s, a)
    requires a.Send? || a.EndOfInput? || a.SendStop? || a.Receive? || a.Join?
    ensures Weight(c, Apply(c, s, a)) < Weight(c, s)
  {
    hide NodesWeight, NodeWeight, QueueWeight, NodesOk, ReportsOk, CommandWeight, Push;
    SaneParts(c, s);
    if a.Send? {
      var r := s.phase.input[0];
      PushWeight(c, r.shard, s.nodes[r.shard], Work(r.chunks));
      NodesWeightPut(c, s.nodes, r.shard, Push(s.nodes[r.shard], Work(r.chunks)));
    } else if a.SendStop? {
      var n := s.phase.next;
      PushWeight(c, n, s.nodes[n], Stop);
      NodesWeightPut(c, s.nodes, n, Push(s.nodes[n], Stop));
      StopWeight(c, n);
    }
  }

  lemma StopWeight(c: Config, n: nat)
    ensures CommandWeight(c, n, Stop) == 3
  {
  }

  /** A step within one node makes it lighter, by more than the message it may send weighs. */
  lemma NodeStepWeighs(c: Config, s: State, a: Action, node: Node)
    requires a.Take? || a.Timeout? || a.Process? || a.EndWork? || a.Flush? || a.MakeReport?
    requires a.n < |s.nodes| && node == s.nodes[a.n] && NodeEnabled(c, s, a, node)
    ensures var after := NodeApply(c, s, a, node);
            && after.phase == s.phase && |after.nodes| == |s.nodes|
            && after.nodes == s.nodes[a.n := after.nodes[a.n]]
            && NodeWeight(c, a.n, after.nodes[a.n]) + |after.out| < NodeWeight(c, a.n, node) + |s.out|
  {
    if a.Take? {
      TakeWeighs(c, a.n, node, a.events);
    } else if a.Process? {
      OneLess(|node.at.left|, ChunkWeight(c, a.n));
    }
  }

  lemma OneLess(k: int, w: nat)
    ensures (k - 1) * w == k * w - w
  {
  }

  lemma TakeWeighs(c: Config, n: nat, node: Node, events: seq<Event>)
    requires node.at.Receiving? && node.queue != []
    requires node.queue[0].Stop? ==> events == []
    ensures NodeWeight(c, n, TakeNext(node, events)) < NodeWeight(c, n, node)
  {
  }

  lemma DispatchWeighs(c: Config, s: State, a: Action)
    requires Sane(c, s) && a.Dispatch? && Enabled(c, s, a)
    ensures Weight(c, Apply(c, s, a)) < Weight(c, s)
  {
    hide NodesWeight, NodeWeight, QueueWeight, NodesOk, ReportsOk, PhaseOk, CommandWeight, Decide, Dispatched, Push, Sane;
    SaneParts(c, s);
    var node := s.nodes[a.n];
    var chunk := node.at.left[0];
    var d := Decided(c, s, a.n);
    var own := Dispatched(node, d, RoomFor(c, s, chunk), a.events);
    DispatchedWeighs(c, a.n, node, d, RoomFor(c, s, chunk), a.events);
    NodesWeightPut(c, s.nodes, a.n, own);
    if d.outcome.Submitted? {
      var t := c.Target(chunk.flow);
      var nodes := s.nodes[a.n := own];
      PushWeight(c, t, nodes[t], Work([chunk]));
      NodesWeightPut(c, nodes, t, Push(nodes[t], Work([chunk])));
      TaskWeight(c, t, chunk);
    }
  }

  lemma TaskWeight(c: Config, t: nat, chunk: Chunk)
    requires t >= c.workers
    ensures CommandWeight(c, t, Work([chunk])) == 9
  {
  }

  lemma DispatchedWeighs(c: Config, n: nat, node: Node, d: Decision, room: bool, events: seq<Event>)
    requires n < c.workers && node.at.Working? && node.at.left != []
    requires d.outcome.Submitted? ==> events == []
    ensures NodeWeight(c, n, Dispatched(node, d, room, events)) + (if d.outcome.Submitted? then 12 else 9)
            <= NodeWeight(c, n, node)
  {
    hide QueueWeight;
    OneLess(|node.at.left|, ChunkWeight(c, n));
  }

  /** Every step but a live snapshot makes the network lighter; a snapshot adds one message. */
  lemma StepWeighs(c: Config, s: State, a: Action)
    requires Sane(c, s) && Enabled(c, s, a)
    ensures if a.MakeSnapshot? then Weight(c, Apply(c, s, a)) == Weight(c, s) + 1
            else Weight(c, Apply(c, s, a)) < Weight(c, s)
  {
    hide NodesWeight, NodeWeight, PhaseWeight, Sane;
    if a.Send? || a.EndOfInput? || a.SendStop? || a.Receive? || a.Join? {
      CoordinatorWeighs(c, s, a);
    } else if a.Dispatch? {
      DispatchWeighs(c, s, a);
    } else if a.MakeSnapshot? {
      SnapshotWeighs(c, s, a);
    } else {
      NodeStepWeighs(c, s, a, s.nodes[a.n]);
      NodesWeightPut(c, s.nodes, a.n, Apply(c, s, a).nodes[a.n]);
    }
  }

  lemma SnapshotWeighs(c: Config, s: State, a: Action)
    requires a.MakeSnapshot? && Enabled(c, s, a)
    ensures Weight(c, Apply(c, s, a)) == Weight(c, s) + 1
  {
    hide NodesWeight, PhaseWeight, QueueWeight;
    NodesWeightPut(c, s.nodes, a.n, Apply(c, s, a).nodes[a.n]);
  }

  function SnapshotsIn(actions: seq<Action>): nat {
    if actions == [] then 0 else (if actions[0].MakeSnapshot? then 1 else 0) + SnapshotsIn(actions[1..])
  }

  /** So no run takes more steps than its input weighs and its snapshots allow. */
  lemma {:induction false} RunsEnd(c: Config, s: State, actions: seq<Action>)
    requires Sane(c, s) && IsRun(c, s, actions)
    ensures |actions| + Weight(c, After(c, s, actions)) <= Weight(c, s) + 2 * SnapshotsIn(actions)
    decreases |actions|
  {
    if actions != [] {
      hide Sane, Weight, Enabled, Apply;
      StepKeeps(c, s, actions[0]);
      StepWeighs(c, s, actions[0]);
      RunsEnd(c, Apply(c, s, actions[0]), actions[1..]);
    }
  }

  /** A run that nobody can extend has shut down in full. */
  lemma StuckMeansDone(c: Config, input: seq<Routed>, actions: seq<Action>)
    requires c.Valid() && ShardsExist(c, input) && IsRun(c, Start(c, input), actions)
    requires forall a :: !Due(c, After(c, Start(c, input), actions), a)
    ensures After(c, Start(c, input), actions).phase == Done
  {
    hide Sane, Due;
    StartIsSane(c, input);
    RunKeeps(c, Start(c, input), actions);
    var s := After(c, Start(c, input), actions);
    if s.phase != Done {
      var a := NeverStuck(c, s);
    }
  }
}
