/** Every run of the network from its start, and what holds when it has shut down. */
module NetworkShutdown {
  import opened Bytes
  import opened StreamPlacement
  import opened OffloadNetwork
  import opened NetworkInvariant
  import opened NetworkDelivery

  /** All that every state of every run keeps. */
  predicate Keeps(c: Config, s: State, input: seq<Routed>) {
    && Sane(c, s) && AllBooks(c, s.nodes) && NothingLost(s) && InputOk(c, s, input)
    && Missing(c, s.nodes, false) == 0 && Missing(c, s.nodes, true) == 0
  }

  lemma StepKeepsAll(c: Config, s: State, a: Action, input: seq<Routed>)
    requires Keeps(c, s, input) && Enabled(c, s, a)
    ensures Keeps(c, Apply(c, s, a), input)
  {
    hide Sane, AllBooks, NothingLost, InputOk, Missing, Apply, Enabled;
    StepKeeps(c, s, a);
    BooksStep(c, s, a);
    NothingLostStep(c, s, a);
    InputStep(c, s, a, input);
    MissingStep(c, s, a, false);
    MissingStep(c, s, a, true);
  }

  lemma {:induction false} RunKeepsAll(c: Config, s: State, actions: seq<Action>, input: seq<Routed>)
    requires Keeps(c, s, input) && IsRun(c, s, actions)
    ensures Keeps(c, After(c, s, actions), input)
    decreases |actions|
  {
    if actions != [] {
      hide Keeps, Enabled, Apply;
      StepKeepsAll(c, s, actions[0], input);
      RunKeepsAll(c, Apply(c, s, actions[0]), actions[1..], input);
    }
  }

  lemma {:induction false} RunKeepsFlow(
    c: Config, s: State, actions: seq<Action>, input: seq<Routed>, flow: nat, owner: nat)
    requires Keeps(c, s, input) && Owned(c, input, flow, owner) && FlowOk(c, s, flow, owner) && IsRun(c, s, actions)
    ensures FlowOk(c, After(c, s, actions), flow, owner)
    decreases |actions|
  {
    if actions != [] {
      hide Sane, AllBooks, NothingLost, InputOk, Missing, Apply, Enabled, FlowOk, Owned;
      StepKeepsAll(c, s, actions[0], input);
      FlowStep(c, s, actions[0], input, flow, owner);
      RunKeepsFlow(c, Apply(c, s, actions[0]), actions[1..], input, flow, owner);
    }
  }

  lemma StartKeeps(c: Config, input: seq<Routed>)
    requires c.Valid() && ShardsExist(c, input)
    ensures Keeps(c, Start(c, input), input)
  {
    hide Sane, ChunksFor;
    StartIsSane(c, input);
    var s := Start(c, input);
    assert ChunksOf([]) == [];
    NewNodes(c, s.nodes);
  }

  lemma {:induction false} NewNodes(c: Config, nodes: seq<Node>)
    requires forall n :: 0 <= n < |nodes| ==> nodes[n] == NEW_NODE
    ensures AllBooks(c, nodes) && Missing(c, nodes, false) == 0 && Missing(c, nodes, true) == 0
  {
    assert ChunksOf([]) == [];
    if nodes != [] {
      NewNodes(c, nodes[..|nodes| - 1]);
      forall n | 0 <= n < |nodes|
        ensures BooksOk(c, n, nodes[n])
      {
        NewBooks(c, n);
      }
    }
  }

  lemma NewBooks(c: Config, n: nat)
    ensures BooksOk(c, n, NEW_NODE)
  {
    assert ChunksOf([]) == [];
  }

  // ---------------------------------------------------------------------
  // Shut down

  lemma DoneMeansFinished(c: Config, s: State, n: nat)
    requires Sane(c, s) && s.phase == Done && n < |s.nodes|
    ensures s.nodes[n].at == Finished && s.nodes[n].queue == []
    ensures ReportsIn(c, s.out, true) == 0 && ReportsIn(c, s.out, false) == 0
  {
    hide ReportsIn, Ended;
    EndedBounds(s.nodes, 0, c.workers);
    EndedBounds(s.nodes, c.workers, c.Nodes());
    assert NodeOk(c, s.phase, n, s.nodes[n]);
  }

  lemma {:induction false} ReportIsCounted(c: Config, out: seq<Message>, n: nat)
    requires From(out, n) != [] && From(out, n)[|From(out, n)| - 1].Report?
    ensures ReportsIn(c, out, n < c.workers) > 0
  {
    var last := out[|out| - 1];
    if last.from != n {
      ReportIsCounted(c, out[..|out| - 1], n);
    } else {
      FromIsOf(out, n);
    }
  }

  lemma {:induction false} FromIsOf(out: seq<Message>, n: nat)
    ensures forall i :: 0 <= i < |From(out, n)| ==> From(out, n)[i].from == n
  {
    if out != [] {
      FromIsOf(out[..|out| - 1], n);
    }
  }

  /**
   When the coordinator is done it has received all any node ever sent: every
   event made, in order, and last the report with the node's final counters.
   */
  lemma NothingIsLost(c: Config, s: State, input: seq<Routed>, n: nat)
    requires Keeps(c, s, input) && s.phase == Done && n < |s.nodes|
    ensures From(s.out, n) == []
    ensures var all := From(s.received, n);
            && EventsOf(all) == s.nodes[n].made
            && all != [] && all[|all| - 1] == Report(n, s.nodes[n].submitted, s.nodes[n].processed)
  {
    hide Sane, From, EventsOf, ChunksOk, CountersOk, ReportsIn, InputOk, Missing;
    DoneMeansFinished(c, s, n);
    var node := s.nodes[n];
    assert BooksOk(c, n, node);
    assert node.sent == From(s.received, n) + From(s.out, n);
    if From(s.out, n) != [] {
      assert From(s.out, n)[|From(s.out, n)| - 1] == node.sent[|node.sent| - 1];
      ReportIsCounted(c, s.out, n);
      assert false;
    }
    assert From(s.received, n) + [] == From(s.received, n);
    assert EventsOf(node.sent) + [] == EventsOf(node.sent);
  }

  /** Then every chunk that came to a node was handled, and the submitted ones were processed. */
  lemma AllIsProcessed(c: Config, s: State, input: seq<Routed>)
    requires Keeps(c, s, input) && s.phase == Done
    ensures Total(s.nodes, false) == Total(s.nodes, true)
    ensures forall n :: 0 <= n < |s.nodes| ==> Handled(c, n, s.nodes[n]) == s.nodes[n].arrived
    ensures forall n :: 0 <= n < c.workers && n < |s.nodes| ==> ChunksOf(s.nodes[n].visits) == ChunksFor(input, n)
  {
    hide Sane, NothingLost, Missing, ChunksFor, Total;
    forall n | 0 <= n < |s.nodes|
      ensures s.nodes[n].processed == ArrivedTally(c, n, s.nodes[n])
      ensures Handled(c, n, s.nodes[n]) == s.nodes[n].arrived
    {
      DoneBooks(c, s, n);
    }
    NothingMissing(c, s.nodes);
    forall n | 0 <= n < c.workers && n < |s.nodes|
      ensures ChunksOf(s.nodes[n].visits) == ChunksFor(input, n)
    {
      assert Handled(c, n, s.nodes[n]) == s.nodes[n].arrived;
      assert s.nodes[n].arrived + [] == s.nodes[n].arrived;
    }
  }

  lemma DoneBooks(c: Config, s: State, n: nat)
    requires Sane(c, s) && AllBooks(c, s.nodes) && s.phase == Done && n < |s.nodes|
    ensures s.nodes[n].processed == ArrivedTally(c, n, s.nodes[n])
    ensures Handled(c, n, s.nodes[n]) == s.nodes[n].arrived
  {
    hide Sane, EventsOk, TallyOf, Having, TableAfter;
    DoneMeansFinished(c, s, n);
    var node := s.nodes[n];
    assert BooksOk(c, n, node);
    assert Handled(c, n, node) + ([] + []) == Handled(c, n, node);
  }

  // ---------------------------------------------------------------------
  // One flow, one node

  /** What a worker worked on itself of a flow, when it can offload. */
  lemma {:induction false} HavingOfFlow(visits: seq<Visit>, rules: Rules, flow: nat)
    requires rules.offloading
    ensures OfFlow(Having(visits, rules, {Inlined, Parsed}), flow) == With(visits, rules, flow, Inlined)
  {
    if visits != [] {
      hide Decide, OfFlow, TableAfter;
      var before := visits[..|visits| - 1];
      var last := visits[|visits| - 1];
      HavingOfFlow(before, rules, flow);
      DecisionFits(TableAfter(before, rules), last.chunk.flow, last.room, rules);
      OfFlowLast(Having(before, rules, {Inlined, Parsed}), last.chunk, flow);
    } else {
      assert OfFlow([], flow) == [];
    }
  }

  /**
   When it is over, all the chunks of a flow that were not dropped were worked on
   by one node, in the order they were routed: the flow's offload worker or the
   shard that owns the flow. Under `Inline` this is so exactly when each chunk of
   the flow that comes after as many other flows as the shard's placement table
   holds finds room if and only if the first one did; so it is for any flow of
   which no chunk comes that late.
   */
  lemma OneNodePerFlow(c: Config, input: seq<Routed>, actions: seq<Action>, flow: nat, owner: nat)
    requires c.Valid() && c.offloads > 0 && ShardsExist(c, input) && Owned(c, input, flow, owner)
    requires IsRun(c, Start(c, input), actions) && After(c, Start(c, input), actions).phase == Done
    ensures var s := After(c, Start(c, input), actions);
            && owner < c.workers <= c.Target(flow) < |s.nodes|
            && (OneSided(c.rules.policy, OfFlow(s.nodes[c.Target(flow)].worked, flow), OfFlow(s.nodes[owner].worked, flow),
                         OfFlow(ChunksFor(input, owner), flow))
                <==> (c.rules.policy.Inline? ==> RoomAgrees(s.nodes[owner].visits, c.rules.capacity, flow)))
            && ChunksOf(s.nodes[owner].visits) == ChunksFor(input, owner)
            && (NeverLate(ChunksFor(input, owner), c.rules.capacity, flow) ==>
                  RoomAgrees(s.nodes[owner].visits, c.rules.capacity, flow))
            && forall n :: c.workers <= n < |s.nodes| && n != c.Target(flow) ==> OfFlow(s.nodes[n].worked, flow) == []
  {
    hide Sane, AllBooks, NothingLost, InputOk, Missing, Start, After, IsRun, Owned, ShardsExist,
         OneSided, OfFlow, With, RoomAgrees, NeverLate, ChunksFor;
    StartKeeps(c, input);
    StartFlow(c, input, flow, owner);
    RunKeepsAll(c, Start(c, input), actions, input);
    RunKeepsFlow(c, Start(c, input), actions, input, flow, owner);
    var s := After(c, Start(c, input), actions);
    SaneParts(c, s);
    AllIsProcessed(c, s, input);
    OneProcessor(s.nodes[owner].visits, c.rules, flow);
    WorkedHere(c, s, owner);
    HavingOfFlow(s.nodes[owner].visits, c.rules, flow);
    if NeverLate(ChunksFor(input, owner), c.rules.capacity, flow) {
      NeverLateAgrees(s.nodes[owner].visits, c.rules.capacity, flow);
    }
  }

  lemma WorkedHere(c: Config, s: State, n: nat)
    requires AllBooks(c, s.nodes) && n < c.workers && n < |s.nodes|
    ensures s.nodes[n].worked == Having(s.nodes[n].visits, c.rules, {Inlined, Parsed})
  {
    hide Having, TallyOf, TableAfter, ChunksOk, EventsOk;
    assert BooksOk(c, n, s.nodes[n]);
  }

  lemma StartFlow(c: Config, input: seq<Routed>, flow: nat, owner: nat)
    requires c.Valid() && c.offloads > 0 && Owned(c, input, flow, owner)
    ensures FlowOk(c, Start(c, input), flow, owner)
  {
    hide ChunksFor;
  }

  // ---------------------------------------------------------------------
  // The counters of one worker

  /** With offloading, a worker's chunks split into submitted, kept and dropped ones. */
  lemma {:induction false} OutcomesSplit(visits: seq<Visit>, rules: Rules)
    requires rules.offloading
    ensures |Having(visits, rules, {Submitted})| + |Having(visits, rules, {Inlined})| + |Having(visits, rules, {Dropped})|
            == |visits|
  {
    if visits != [] {
      hide Decide, TableAfter;
      OutcomesSplit(visits[..|visits| - 1], rules);
      var last := visits[|visits| - 1];
      DecisionFits(TableAfter(visits[..|visits| - 1], rules), last.chunk.flow, last.room, rules);
    }
  }

  /** At any time, submitted, inline and dropped chunks add up to those routed so far; drops only under `Drop`. */
  lemma CountersAddUp(c: Config, s: State, input: seq<Routed>, n: nat)
    requires Keeps(c, s, input) && c.offloads > 0 && n < c.workers && n < |s.nodes|
    ensures var node := s.nodes[n];
            node.submitted.chunks + node.inlined.chunks + node.dropped.chunks == |node.visits|
  {
    hide Sane, NothingLost, InputOk, Missing, Having, TallyOf, TableAfter, ChunksOk, EventsOk;
    SaneParts(c, s);
    var node := s.nodes[n];
    assert BooksOk(c, n, node);
    TallyCounts(Having(node.visits, c.rules, {Submitted}));
    TallyCounts(Having(node.visits, c.rules, {Inlined}));
    TallyCounts(Having(node.visits, c.rules, {Dropped}));
    OutcomesSplit(node.visits, c.rules);
  }

  // ---------------------------------------------------------------------
  // Every complete run

  /** All that a node does and sends by the end of a complete run. */
  predicate Complete(c: Config, s: State, input: seq<Routed>, n: nat)
    requires n < |s.nodes|
  {
    var node, all := s.nodes[n], From(s.received, n);
    && From(s.out, n) == [] && EventsOf(all) == node.made
    && all != [] && all[|all| - 1] == Report(n, node.submitted, node.processed)
    && Handled(c, n, node) == node.arrived
    && (n < c.workers ==>
          && ChunksOf(node.visits) == ChunksFor(input, n)
          && (c.offloads > 0 ==>
                node.submitted.chunks + node.inlined.chunks + node.dropped.chunks == |ChunksFor(input, n)|))
  }

  /**
   Over every run that shuts down, from any input: nothing any node made is lost,
   what was routed to a worker is what it handled, in order and all counted, and
   what was submitted is what was processed.
   */
  lemma CompleteRun(c: Config, input: seq<Routed>, actions: seq<Action>)
    requires c.Valid() && ShardsExist(c, input)
    requires IsRun(c, Start(c, input), actions) && After(c, Start(c, input), actions).phase == Done
    ensures var s := After(c, Start(c, input), actions);
            && |s.nodes| == c.Nodes() && Total(s.nodes, false) == Total(s.nodes, true)
            && forall n :: 0 <= n < |s.nodes| ==> Complete(c, s, input, n)
  {
    hide Start, After, IsRun, ShardsExist, Keeps, From, EventsOf, Handled, ChunksFor, Total;
    StartKeeps(c, input);
    RunKeepsAll(c, Start(c, input), actions, input);
    var s := After(c, Start(c, input), actions);
    KeepsNodes(c, s, input);
    AllIsProcessed(c, s, input);
    forall n | 0 <= n < |s.nodes|
      ensures Complete(c, s, input, n)
    {
      NothingIsLost(c, s, input, n);
      if n < c.workers && c.offloads > 0 {
        CountersAddUp(c, s, input, n);
      }
    }
  }

  lemma KeepsNodes(c: Config, s: State, input: seq<Routed>)
    requires Keeps(c, s, input)
    ensures |s.nodes| == c.Nodes()
  {
    hide AllBooks, NothingLost, InputOk, Missing;
    SaneParts(c, s);
  }
}
