/** What every step of the network keeps: where each thread can be, and who has reported. */
module NetworkInvariant {
  import opened Bytes
  import opened StreamPlacement
  import opened OffloadNetwork

  /** Whether node `n` has been sent its stop. */
  predicate Stopped(c: Config, phase: Phase, n: nat) {
    match phase
    case Feeding(_) => false
    case StoppingWorkers(next) => n < next
    case AwaitingWorkers => n < c.workers
    case StoppingOffloads(next) => n < next
    case AwaitingOffloads => true
    case Done => true
  }

  predicate AllWork(queue: seq<Command>) {
    forall i :: 0 <= i < |queue| ==> queue[i].Work?
  }

  /** A thread that has not taken its stop. */
  predicate Live(at: Control) {
    at.Receiving? || at.Working? || at == Flushing(false)
  }

  /** Before its stop a node only has work; after it the stop is last in its queue, or taken and the queue empty. */
  predicate Shape(node: Node, stopped: bool) {
    if !stopped then AllWork(node.queue) && Live(node.at)
    else if node.queue == [] then !Live(node.at)
    else AllWork(node.queue[..|node.queue| - 1]) && node.queue[|node.queue| - 1].Stop? && Live(node.at)
  }

  predicate NodeOk(c: Config, phase: Phase, n: nat, node: Node) {
    Shape(node, Stopped(c, phase, n)) && |node.queue| <= c.QueueOf(n)
  }

  predicate NodesOk(c: Config, phase: Phase, nodes: seq<Node>) {
    |nodes| == c.Nodes() && forall n :: 0 <= n < |nodes| ==> NodeOk(c, phase, n, nodes[n])
  }

  /** How many of some nodes have finished. */
  function Ended(nodes: seq<Node>, from: nat, end: nat): nat
    requires from <= end <= |nodes|
  {
    if from == end then 0 else Ended(nodes, from, end - 1) + if nodes[end - 1].at.Finished? then 1 else 0
  }

  /** How many reports of workers, or of offload workers, are on their way. */
  function ReportsIn(c: Config, out: seq<Message>, ofWorkers: bool): nat {
    if out == [] then 0
    else ReportsIn(c, out[..|out| - 1], ofWorkers) + Counts(c, out[|out| - 1], ofWorkers)
  }

  function Counts(c: Config, m: Message, ofWorkers: bool): nat {
    if m.Report? && (m.from < c.workers <==> ofWorkers) then 1 else 0
  }

  /** Every node that has finished has its report counted or on its way. */
  predicate ReportsOk(c: Config, s: State)
    requires |s.nodes| == c.Nodes()
  {
    && s.workerReports + ReportsIn(c, s.out, true) == Ended(s.nodes, 0, c.workers)
    && s.offloadReports + ReportsIn(c, s.out, false) == Ended(s.nodes, c.workers, c.Nodes())
  }

  predicate PhaseOk(c: Config, s: State) {
    match s.phase
    case Feeding(input) => forall i :: 0 <= i < |input| ==> input[i].shard < c.workers
    case StoppingWorkers(next) => next < c.workers
    case AwaitingWorkers => true
    case StoppingOffloads(next) => c.workers <= next < c.Nodes() && s.workerReports == c.workers
    case AwaitingOffloads => c.offloads > 0 && s.workerReports == c.workers
    case Done => s.workerReports == c.workers && s.offloadReports == c.offloads
  }

  predicate Sane(c: Config, s: State) {
    && c.Valid() && NodesOk(c, s.phase, s.nodes) && ReportsOk(c, s) && PhaseOk(c, s) && |s.out| <= c.outQueue
  }

  // ---------------------------------------------------------------------
  // Counting

  lemma {:induction false} EndedPut(nodes: seq<Node>, from: nat, end: nat, n: nat, node: Node)
    requires from <= end <= |nodes| && n < |nodes|
    ensures Ended(nodes[n := node], from, end)
            == Ended(nodes, from, end)
               + if from <= n < end
                 then (if node.at.Finished? then 1 else 0) - (if nodes[n].at.Finished? then 1 else 0) else 0
    decreases end
  {
    if from != end {
      EndedPut(nodes, from, end - 1, n, node);
    }
  }

  lemma {:induction false} EndedBounds(nodes: seq<Node>, from: nat, end: nat)
    requires from <= end <= |nodes|
    ensures Ended(nodes, from, end) <= end - from
    ensures Ended(nodes, from, end) == end - from <==> forall n :: from <= n < end ==> nodes[n].at.Finished?
    ensures (forall n :: from <= n < end ==> !nodes[n].at.Finished?) ==> Ended(nodes, from, end) == 0
    decreases end
  {
    if from != end {
      EndedBounds(nodes, from, end - 1);
    }
  }

  lemma ReportsInAppend(c: Config, out: seq<Message>, m: Message, ofWorkers: bool)
    ensures ReportsIn(c, out + [m], ofWorkers) == ReportsIn(c, out, ofWorkers) + Counts(c, m, ofWorkers)
  {
    assert (out + [m])[..|out|] == out;
  }

  lemma {:induction false} ReportsInFirst(c: Config, out: seq<Message>, ofWorkers: bool)
    requires out != []
    ensures ReportsIn(c, out, ofWorkers) == Counts(c, out[0], ofWorkers) + ReportsIn(c, out[1..], ofWorkers)
  {
    if |out| > 1 {
      ReportsInFirst(c, out[..|out| - 1], ofWorkers);
      assert out[..|out| - 1][1..] == out[1..][..|out| - 2];
    } else {
      assert out[..0] == [] && out[1..] == [];
    }
  }

  /** A node that has not been sent its stop has not finished. */
  lemma NoneEndedBefore(c: Config, phase: Phase, nodes: seq<Node>, from: nat, end: nat)
    requires NodesOk(c, phase, nodes) && from <= end <= |nodes|
    requires forall n :: from <= n < end ==> !Stopped(c, phase, n)
    ensures Ended(nodes, from, end) == 0
  {
    EndedBounds(nodes, from, end);
    forall n | from <= n < end
      ensures !nodes[n].at.Finished?
    {
      assert NodeOk(c, phase, n, nodes[n]);
    }
  }

  // ---------------------------------------------------------------------
  // The steps

  lemma NodeIsOk(c: Config, s: State, n: nat)
    requires NodesOk(c, s.phase, s.nodes) && n < |s.nodes|
    ensures NodeOk(c, s.phase, n, s.nodes[n])
  {
  }

  lemma NodesPut(c: Config, phase: Phase, nodes: seq<Node>, n: nat, node: Node)
    requires NodesOk(c, phase, nodes) && n < |nodes| && NodeOk(c, phase, n, node)
    ensures NodesOk(c, phase, nodes[n := node])
  {
    hide NodeOk;
  }

  /** Changing a node without finishing it. */
  lemma SanePut(c: Config, s: State, n: nat, node: Node)
    requires Sane(c, s) && n < |s.nodes| && NodeOk(c, s.phase, n, node)
    requires node.at.Finished? <==> s.nodes[n].at.Finished?
    ensures Sane(c, PutNode(s, n, node))
  {
    hide NodesOk, ReportsIn, Ended, NodeOk;
    NodesPut(c, s.phase, s.nodes, n, node);
    SameNodes(c, s.phase, s.nodes);
    EndedPut(s.nodes, 0, c.workers, n, node);
    EndedPut(s.nodes, c.workers, c.Nodes(), n, node);
  }

  lemma SameNodes(c: Config, phase: Phase, nodes: seq<Node>)
    requires NodesOk(c, phase, nodes)
    ensures |nodes| == c.Nodes()
  {
  }

  /** Sending a message; the report is what a node finishes with. */
  lemma SanePutOut(c: Config, s: State, n: nat, node: Node, m: Message)
    requires Sane(c, s) && n < |s.nodes| && NodeOk(c, s.phase, n, node) && OutHasRoom(c, s)
    requires m.from == n && !s.nodes[n].at.Finished? && (node.at.Finished? <==> m.Report?)
    ensures Sane(c, PutOut(s, n, node, m))
  {
    hide NodesOk, ReportsIn, Ended, NodeOk;
    NodesPut(c, s.phase, s.nodes, n, node);
    SameNodes(c, s.phase, s.nodes);
    EndedPut(s.nodes, 0, c.workers, n, node);
    EndedPut(s.nodes, c.workers, c.Nodes(), n, node);
    ReportsInAppend(c, s.out, m, true);
    ReportsInAppend(c, s.out, m, false);
  }

  lemma ReceiveKeeps(c: Config, s: State)
    requires Sane(c, s) && Enabled(c, s, Receive)
    ensures Sane(c, Apply(c, s, Receive))
  {
    hide NodesOk, ReportsIn, Ended;
    SameNodes(c, s.phase, s.nodes);
    ReportsInFirst(c, s.out, true);
    ReportsInFirst(c, s.out, false);
    EndedBounds(s.nodes, 0, c.workers);
    EndedBounds(s.nodes, c.workers, c.Nodes());
    if s.phase.Feeding? {
      NoneEndedBefore(c, s.phase, s.nodes, 0, c.workers);
    }
    if s.phase.Feeding? || s.phase.StoppingWorkers? || s.phase.AwaitingWorkers? {
      NoneEndedBefore(c, s.phase, s.nodes, c.workers, c.Nodes());
    }
  }

  /** A command more in a node's queue. */
  lemma PushIsOk(c: Config, phase: Phase, later: Phase, n: nat, node: Node, command: Command)
    requires NodeOk(c, phase, n, node) && |node.queue| < c.QueueOf(n) && !Stopped(c, phase, n)
    requires command.Stop? <==> Stopped(c, later, n)
    ensures NodeOk(c, later, n, Push(node, command))
    ensures Push(node, command).at == node.at
  {
  }

  lemma SendKeeps(c: Config, s: State)
    requires Sane(c, s) && Enabled(c, s, Send)
    ensures Sane(c, Apply(c, s, Send))
  {
    hide NodesOk, ReportsIn, Ended, NodeOk;
    var r := s.phase.input[0];
    NodeIsOk(c, s, r.shard);
    PushIsOk(c, s.phase, s.phase, r.shard, s.nodes[r.shard], Work(r.chunks));
    var put := PutNode(s, r.shard, Push(s.nodes[r.shard], Work(r.chunks)));
    SanePut(c, s, r.shard, Push(s.nodes[r.shard], Work(r.chunks)));
    SamePlace(c, put.phase, Feeding(s.phase.input[1..]), put.nodes);
  }

  /** The node list is as good in a phase that has stopped the same nodes. */
  lemma SamePlace(c: Config, phase: Phase, later: Phase, nodes: seq<Node>)
    requires NodesOk(c, phase, nodes)
    requires forall n :: 0 <= n < |nodes| ==> (Stopped(c, phase, n) <==> Stopped(c, later, n))
    ensures NodesOk(c, later, nodes)
  {
    forall n | 0 <= n < |nodes|
      ensures NodeOk(c, later, n, nodes[n])
    {
      assert NodeOk(c, phase, n, nodes[n]);
    }
  }

  /** One node more is stopped. */
  lemma StopOne(c: Config, phase: Phase, later: Phase, nodes: seq<Node>, n: nat)
    requires NodesOk(c, phase, nodes) && n < |nodes| && |nodes[n].queue| < c.QueueOf(n)
    requires forall k :: 0 <= k < |nodes| ==> (Stopped(c, later, k) <==> Stopped(c, phase, k) || k == n)
    requires !Stopped(c, phase, n)
    ensures NodesOk(c, later, nodes[n := Push(nodes[n], Stop)])
  {
    hide Stopped, Shape, Push;
    assert NodeOk(c, phase, n, nodes[n]);
    PushIsOk(c, phase, later, n, nodes[n], Stop);
    forall k | 0 <= k < |nodes| && k != n
      ensures NodeOk(c, later, k, nodes[k])
    {
      assert NodeOk(c, phase, k, nodes[k]);
    }
  }

  lemma SendStopKeeps(c: Config, s: State)
    requires Sane(c, s) && Enabled(c, s, SendStop)
    ensures Sane(c, Apply(c, s, SendStop))
  {
    hide NodesOk, ReportsIn, Ended, NodeOk;
    var n := s.phase.next;
    SameNodes(c, s.phase, s.nodes);
    StopOne(c, s.phase, AfterStop(c, s.phase), s.nodes, n);
    EndedPut(s.nodes, 0, c.workers, n, Push(s.nodes[n], Stop));
    EndedPut(s.nodes, c.workers, c.Nodes(), n, Push(s.nodes[n], Stop));
  }

  lemma CoordinatorKeeps(c: Config, s: State, a: Action)
    requires Sane(c, s) && Enabled(c, s, a)
    requires a.Send? || a.EndOfInput? || a.SendStop? || a.Receive? || a.Join?
    ensures Sane(c, Apply(c, s, a))
  {
    hide NodesOk, ReportsIn, Ended, NodeOk;
    if a.Send? {
      SendKeeps(c, s);
    } else if a.SendStop? {
      SendStopKeeps(c, s);
    } else if a.Receive? {
      ReceiveKeeps(c, s);
    } else {
      SameNodes(c, s.phase, s.nodes);
      SamePlace(c, s.phase, Apply(c, s, a).phase, s.nodes);
      if c.offloads == 0 {
        EndedBounds(s.nodes, c.workers, c.Nodes());
      }
    }
  }

  /** Taking, working and waiting keep a node in shape. */
  lemma NodeStepIsOk(c: Config, s: State, a: Action, node: Node)
    requires Sane(c, s)
    requires a.Take? || a.Timeout? || a.Process? || a.EndWork?
    requires a.n < |s.nodes| && node == s.nodes[a.n] && NodeEnabled(c, s, a, node)
    ensures var after := NodeApply(c, s, a, node);
            && after == PutNode(s, a.n, after.nodes[a.n])
            && NodeOk(c, s.phase, a.n, after.nodes[a.n]) && !node.at.Finished? && !after.nodes[a.n].at.Finished?
  {
    hide NodesOk, ReportsOk, Stopped, PhaseOk;
    NodeIsOk(c, s, a.n);
    if a.Take? {
      TakeIsOk(node, a.events, Stopped(c, s.phase, a.n));
    }
  }

  lemma TakeIsOk(node: Node, events: seq<Event>, stopped: bool)
    requires Shape(node, stopped) && node.queue != []
    ensures Shape(TakeNext(node, events), stopped) && !TakeNext(node, events).at.Finished?
  {
    var rest := node.queue[1..];
    if rest != [] {
      assert rest[..|rest| - 1] == node.queue[..|node.queue| - 1][1..];
    }
  }

  lemma SendingStepKeeps(c: Config, s: State, a: Action)
    requires Sane(c, s) && (a.Flush? || a.MakeReport? || a.MakeSnapshot?) && Enabled(c, s, a)
    ensures Sane(c, Apply(c, s, a))
  {
    hide NodesOk, ReportsOk, Stopped, PhaseOk;
    NodeIsOk(c, s, a.n);
    var node := s.nodes[a.n];
    var after := Apply(c, s, a);
    assert NodeOk(c, s.phase, a.n, after.nodes[a.n]);
    SanePutOut(c, s, a.n, after.nodes[a.n], after.out[|s.out|]);
  }

  /** Only workers that have not all finished dispatch, so no offload worker is stopped then. */
  lemma OffloadsRunWhileWorkersDo(c: Config, s: State, n: nat, t: nat)
    requires Sane(c, s) && n < c.workers <= t < c.Nodes() && !s.nodes[n].at.Finished?
    ensures !Stopped(c, s.phase, t)
  {
    hide NodesOk, ReportsIn, Ended;
    SameNodes(c, s.phase, s.nodes);
    EndedBounds(s.nodes, 0, c.workers);
  }

  lemma DispatchKeeps(c: Config, s: State, a: Action)
    requires Sane(c, s) && a.Dispatch? && Enabled(c, s, a)
    ensures Sane(c, Apply(c, s, a))
  {
    hide NodesOk, ReportsOk, Stopped, PhaseOk, Decide, Sane;
    SaneParts(c, s);
    NodeIsOk(c, s, a.n);
    var node := s.nodes[a.n];
    var chunk := node.at.left[0];
    var d := Decided(c, s, a.n);
    var own := Dispatched(node, d, RoomFor(c, s, chunk), a.events);
    SanePut(c, s, a.n, own);
    var put := PutNode(s, a.n, own);
    if d.outcome.Submitted? {
      SaneParts(c, put);
      var t := c.Target(chunk.flow);
      OffloadsRunWhileWorkersDo(c, put, a.n, t);
      NodeIsOk(c, put, t);
      PushIsOk(c, s.phase, s.phase, t, put.nodes[t], Work([chunk]));
      SanePut(c, put, t, Push(put.nodes[t], Work([chunk])));
    }
  }

  lemma SaneParts(c: Config, s: State)
    requires Sane(c, s)
    ensures c.Valid() && NodesOk(c, s.phase, s.nodes) && |s.nodes| == c.Nodes()
  {
  }

  /** Every step keeps the invariant. */
  lemma StepKeeps(c: Config, s: State, a: Action)
    requires Sane(c, s) && Enabled(c, s, a)
    ensures Sane(c, Apply(c, s, a))
  {
    hide Sane, NodeOk;
    if a.Send? || a.EndOfInput? || a.SendStop? || a.Receive? || a.Join? {
      CoordinatorKeeps(c, s, a);
    } else if a.Dispatch? {
      DispatchKeeps(c, s, a);
    } else if a.Flush? || a.MakeReport? || a.MakeSnapshot? {
      SendingStepKeeps(c, s, a);
    } else {
      NodeStepIsOk(c, s, a, s.nodes[a.n]);
      SanePut(c, s, a.n, Apply(c, s, a).nodes[a.n]);
    }
  }

  predicate ShardsExist(c: Config, input: seq<Routed>) {
    forall i :: 0 <= i < |input| ==> input[i].shard < c.workers
  }

  lemma StartIsSane(c: Config, input: seq<Routed>)
    requires c.Valid() && ShardsExist(c, input)
    ensures Sane(c, Start(c, input))
  {
    var s := Start(c, input);
    NoneEndedBefore(c, s.phase, s.nodes, 0, c.workers);
    NoneEndedBefore(c, s.phase, s.nodes, c.workers, c.Nodes());
  }

  lemma {:induction false} RunKeeps(c: Config, s: State, actions: seq<Action>)
    requires Sane(c, s) && IsRun(c, s, actions)
    ensures Sane(c, After(c, s, actions))
    decreases |actions|
  {
    if actions != [] {
      hide Sane, Enabled, Apply;
      StepKeeps(c, s, actions[0]);
      RunKeeps(c, Apply(c, s, actions[0]), actions[1..]);
    }
  }
}
