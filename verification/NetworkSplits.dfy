/**
 Which orders of chunks the network can split between two nodes: any run can be
 completed, and a queue that is full at the wrong time can always be arranged.
 */
module NetworkSplits {
  import opened Bytes
  import opened StreamPlacement
  import opened OffloadNetwork
  import opened NetworkInvariant
  import opened NetworkProgress
  import opened NetworkDelivery
  import opened NetworkShutdown

  // ---------------------------------------------------------------------
  // Going on

  /** From any state a run can reach, the network can go on until it has shut down. */
  lemma {:induction false} Completes(c: Config, s: State) returns (actions: seq<Action>)
    requires Sane(c, s)
    ensures IsRun(c, s, actions) && After(c, s, actions).phase == Done
    decreases Weight(c, s)
  {
    hide Sane, Weight, Apply, Enabled;
    if s.phase == Done {
      return [];
    }
    var a := NeverStuck(c, s);
    StepKeeps(c, s, a);
    StepWeighs(c, s, a);
    var rest := Completes(c, Apply(c, s, a));
    actions := [a] + rest;
    assert actions[1..] == rest;
  }

  lemma {:induction false} RunsConcat(c: Config, s: State, a: seq<Action>, b: seq<Action>)
    requires IsRun(c, s, a) && IsRun(c, After(c, s, a), b)
    ensures IsRun(c, s, a + b) && After(c, s, a + b) == After(c, After(c, s, a), b)
    decreases |a|
  {
    hide Enabled, Apply;
    if a == [] {
      assert a + b == b;
    } else {
      assert (a + b)[1..] == a[1..] + b && (a + b)[0] == a[0];
      RunsConcat(c, Apply(c, s, a[0]), a[1..], b);
    }
  }

  lemma OneStep(c: Config, s: State, a: Action)
    requires Enabled(c, s, a)
    ensures IsRun(c, s, [a]) && After(c, s, [a]) == Apply(c, s, a)
  {
    hide Enabled, Apply;
    assert [a][1..] == [];
  }

  /** Decisions that were made stay made. */
  lemma VisitsStep(c: Config, s: State, a: Action, n: nat)
    requires Sane(c, s) && Enabled(c, s, a) && n < |s.nodes|
    ensures var after := Apply(c, s, a);
            |after.nodes| == |s.nodes| && s.nodes[n].visits <= after.nodes[n].visits
  {
    hide Sane, Apply, Stepped, Push, NodeEnabled;
    NodesAfter(c, s, a);
    if a.Send? {
      PushVisits(s.nodes[s.phase.input[0].shard], Work(s.phase.input[0].chunks));
    } else if a.SendStop? {
      PushVisits(s.nodes[s.phase.next], Stop);
    } else if !a.EndOfInput? && !a.Receive? && !a.Join? {
      SteppedVisits(c, s, a);
      ThreadVisits(c, s, a);
    }
  }

  lemma ThreadVisits(c: Config, s: State, a: Action)
    requires Sane(c, s) && !a.Send? && !a.EndOfInput? && !a.SendStop? && !a.Receive? && !a.Join? && Enabled(c, s, a)
    requires a.n < |s.nodes| && s.nodes[a.n].visits <= Stepped(c, s, a).visits
    ensures var after := Apply(c, s, a).nodes;
            |after| == |s.nodes| && forall n :: 0 <= n < |after| ==> s.nodes[n].visits <= after[n].visits
  {
    hide Sane, Apply, Stepped, Push, Decide, HasRoom, RoomFor;
    NodesAfter(c, s, a);
    if a.Dispatch? && Decided(c, s, a.n).outcome.Submitted? {
      var chunk := s.nodes[a.n].at.left[0];
      PushVisits(s.nodes[c.Target(chunk.flow)], Work([chunk]));
    }
  }

  lemma PushVisits(node: Node, command: Command)
    ensures Push(node, command).visits == node.visits
  {
  }

  lemma SteppedVisits(c: Config, s: State, a: Action)
    requires Sane(c, s) && !a.Send? && !a.EndOfInput? && !a.SendStop? && !a.Receive? && !a.Join? && Enabled(c, s, a)
    ensures a.n < |s.nodes| && s.nodes[a.n].visits <= Stepped(c, s, a).visits
  {
    hide Sane, Decide, HasRoom, RoomFor;
    if !a.Dispatch? {
      NodesAfter(c, s, a);
      SameVisits(c, s, a, s.nodes[a.n]);
    }
  }

  lemma SameVisits(c: Config, s: State, a: Action, node: Node)
    requires !a.Send? && !a.EndOfInput? && !a.SendStop? && !a.Receive? && !a.Join? && !a.Dispatch?
    requires a.n < |s.nodes| && node == s.nodes[a.n] && NodeEnabled(c, s, a, node)
    ensures var after := NodeApply(c, s, a, node);
            a.n < |after.nodes| && after.nodes[a.n].visits == node.visits
  {
  }

  lemma {:induction false} VisitsGrow(c: Config, s: State, actions: seq<Action>, n: nat)
    requires Sane(c, s) && IsRun(c, s, actions) && n < |s.nodes|
    ensures var after := After(c, s, actions);
            |after.nodes| == |s.nodes| && s.nodes[n].visits <= after.nodes[n].visits
    decreases |actions|
  {
    hide Sane, Enabled, Apply;
    if actions != [] {
      StepKeeps(c, s, actions[0]);
      VisitsStep(c, s, actions[0], n);
      VisitsGrow(c, Apply(c, s, actions[0]), actions[1..], n);
    }
  }

  lemma {:induction false} WithGrows(visits: seq<Visit>, n: nat, rules: Rules, flow: nat, outcome: Outcome)
    requires n <= |visits|
    ensures With(visits[..n], rules, flow, outcome) != [] ==> With(visits, rules, flow, outcome) != []
    decreases |visits|
  {
    if n == |visits| {
      assert visits[..n] == visits;
    } else {
      hide OutcomeOfLast;
      assert visits[..|visits| - 1][..n] == visits[..n];
      WithGrows(visits[..|visits| - 1], n, rules, flow, outcome);
    }
  }

  /** A flow that is split stays split. */
  lemma {:induction false} SplitStays(visits: seq<Visit>, longer: seq<Visit>, rules: Rules, flow: nat)
    requires visits <= longer && !Unsplit(visits, rules, flow)
    ensures !Unsplit(longer, rules, flow)
  {
    hide With;
    assert longer[..|visits|] == visits;
    WithGrows(longer, |visits|, rules, flow, Submitted);
    WithGrows(longer, |visits|, rules, flow, Inlined);
  }

  // ---------------------------------------------------------------------
  // A full queue at the wrong time

  /** One worker, and one offload worker whose queue holds `room` chunks. */
  function Small(rules: Rules, room: nat): Config { Config(1, 1, 1, room, 1, rules, _ => 0) }

  /** The worker has submitted the first `j` chunks and the offload worker has taken none of them. */
  predicate Filled(s: State, rules: Rules, chunks: seq<Chunk>, j: nat) {
    && |s.nodes| == 2 && j <= |chunks|
    && s.nodes[0].at == Working(chunks[j..])
    && s.nodes[0].visits == AllWithRoom(chunks[..j]) && s.nodes[0].table == TableAfter(AllWithRoom(chunks[..j]), rules)
    && |s.nodes[1].queue| == j
  }

  /** The coordinator sends the chunks and the worker takes them. */
  lemma {:induction false} Begin(rules: Rules, room: nat, chunks: seq<Chunk>) returns (actions: seq<Action>)
    requires PlacesAll(rules) && room > 0
    ensures var c := Small(rules, room);
            var start := Start(c, [Routed(0, chunks)]);
            IsRun(c, start, actions) && Filled(After(c, start, actions), rules, chunks, 0)
  {
    var c := Small(rules, room);
    var start := Start(c, [Routed(0, chunks)]);
    var take := Take(0, []);
    actions := [Send, take];
    var sent := Apply(c, start, Send);
    assert sent.nodes[0].queue == [Work(chunks)];
    var taken := Apply(c, sent, take);
    assert actions[1..] == [take] && [take][1..] == [];
    assert chunks[0..] == chunks && chunks[..0] == [];
    OneStep(c, sent, take);
    assert After(c, start, actions) == After(c, sent, [take]);
  }

  /** With room every time, nothing is kept. */
  lemma {:induction false} RoomNeverKeeps(chunks: seq<Chunk>, rules: Rules, flow: nat)
    requires PlacesAll(rules)
    ensures With(AllWithRoom(chunks), rules, flow, Inlined) == []
  {
    if chunks != [] {
      hide Decide, Lookup, TableAfter, With, Kept;
      var visits, before := AllWithRoom(chunks), chunks[..|chunks| - 1];
      assert visits[..|visits| - 1] == AllWithRoom(before);
      RoomNeverKeeps(before, rules, flow);
      LastVisit(visits, rules, flow, Inlined);
      PlacementTells(AllWithRoom(before), rules, flow);
      DecisionFits(TableAfter(AllWithRoom(before), rules), chunks[|chunks| - 1].flow, true, rules);
    }
  }

  lemma {:induction false} NextFilled(chunks: seq<Chunk>, rules: Rules, j: nat, room: bool)
    requires j < |chunks|
    ensures var visits, next := AllWithRoom(chunks[..j]), chunks[..j + 1];
            && TableAfter(visits + [Visit(chunks[j], room)], rules)
               == Decide(TableAfter(visits, rules), chunks[j].flow, room, rules).table
            && (room ==> visits + [Visit(chunks[j], room)] == AllWithRoom(next))
            && chunks[j..][1..] == chunks[j + 1..] && chunks[j..][0] == chunks[j]
  {
    hide Decide;
    var visits := AllWithRoom(chunks[..j]) + [Visit(chunks[j], room)];
    assert visits[..|visits| - 1] == AllWithRoom(chunks[..j]);
  }

  /** One chunk more is submitted while there is room. */
  lemma {:induction false} FillStep(rules: Rules, room: nat, s: State, chunks: seq<Chunk>, j: nat)
    requires PlacesAll(rules) && Filled(s, rules, chunks, j) && j < |chunks| && j < room
    ensures var c := Small(rules, room);
            Enabled(c, s, Dispatch(0, [])) && Filled(Apply(c, s, Dispatch(0, [])), rules, chunks, j + 1)
  {
    hide Decide, TableAfter, AllWithRoom, Lookup, With;
    var c := Small(rules, room);
    NextFilled(chunks, rules, j, true);
    RoomNeverKeeps(chunks[..j], rules, chunks[j].flow);
    PlacementTells(AllWithRoom(chunks[..j]), rules, chunks[j].flow);
    DecisionFits(s.nodes[0].table, chunks[j].flow, true, rules);
    assert c.Target(chunks[j].flow) == 1;
    assert RoomFor(c, s, chunks[j]);
  }

  lemma {:induction false} Fill(rules: Rules, room: nat, s: State, chunks: seq<Chunk>, j: nat, k: nat)
    returns (actions: seq<Action>)
    requires PlacesAll(rules) && Filled(s, rules, chunks, j) && j <= k <= |chunks| && k <= room
    ensures var c := Small(rules, room);
            IsRun(c, s, actions) && Filled(After(c, s, actions), rules, chunks, k)
    decreases k - j
  {
    hide Filled, Enabled, Apply, Small;
    if j == k {
      return [];
    }
    var c := Small(rules, room);
    FillStep(rules, room, s, chunks, j);
    var rest := Fill(rules, room, Apply(c, s, Dispatch(0, [])), chunks, j + 1, k);
    actions := [Dispatch(0, [])] + rest;
    assert actions[1..] == rest;
  }

  lemma {:induction false} LateAt(chunks: seq<Chunk>, capacity: nat, flow: nat) returns (k: nat)
    requires !NeverLate(chunks, capacity, flow)
    ensures 0 < k < |chunks| && chunks[k].flow == flow && Gone(chunks[..k], capacity, flow)
  {
    hide OthersSince;
    var before := chunks[..|chunks| - 1];
    if !NeverLate(before, capacity, flow) {
      k := LateAt(before, capacity, flow);
      assert before[..k] == chunks[..k];
    } else {
      k := |chunks| - 1;
    }
  }

  /** The late chunk finds the queue full, and is kept though chunks of its flow were submitted. */
  lemma {:induction false} LateStep(rules: Rules, s: State, chunks: seq<Chunk>, k: nat, flow: nat)
    requires PlacesAll(rules) && 0 < k < |chunks| && Filled(s, rules, chunks, k)
    requires chunks[k].flow == flow && Gone(chunks[..k], rules.capacity, flow)
    ensures var c := Small(rules, k);
            && Enabled(c, s, Dispatch(0, []))
            && var after := Apply(c, s, Dispatch(0, []));
            |after.nodes| == 2 && !Unsplit(after.nodes[0].visits, rules, flow)
  {
    hide Decide, TableAfter, AllWithRoom, Lookup, With, Gone, Recent, Unique, Unsplit;
    var c := Small(rules, k);
    NextFilled(chunks, rules, k, false);
    TableIsRecent(AllWithRoom(chunks[..k]), rules, flow);
    DecisionFits(s.nodes[0].table, flow, false, rules);
    assert c.Target(flow) == 1 && !RoomFor(c, s, chunks[k]);
    LateIsSplit(chunks[..k], chunks[k], rules, flow);
  }

  lemma {:induction false} LateIsSplit(before: seq<Chunk>, late: Chunk, rules: Rules, flow: nat)
    requires PlacesAll(rules) && late.flow == flow && Gone(before, rules.capacity, flow)
    ensures !Unsplit(AllWithRoom(before) + [Visit(late, false)], rules, flow)
  {
    hide Gone, RoomAgrees, FirstRoom, Unsplit, With, FlowsOf;
    var visits := AllWithRoom(before) + [Visit(late, false)];
    assert visits[..|visits| - 1] == AllWithRoom(before);
    GoneWasThere(before, rules.capacity, flow);
    FirstFindsRoom(before, flow);
    LastRoom(visits, rules.capacity, flow);
    SplitExactly(visits, rules, flow);
  }

  // ---------------------------------------------------------------------
  // Exactly

  /** A complete run in which worker `n` is routed these chunks. */
  predicate Handles(c: Config, input: seq<Routed>, actions: seq<Action>, n: nat, chunks: seq<Chunk>) {
    && c.Valid() && ShardsExist(c, input) && n < c.workers && ChunksFor(input, n) == chunks
    && IsRun(c, Start(c, input), actions) && After(c, Start(c, input), actions).phase == Done
    && n < |After(c, Start(c, input), actions).nodes|
  }

  /** Chunks of which one comes late can be split by a complete run of some network. */
  lemma {:induction false} LateIsSplitByARun(rules: Rules, chunks: seq<Chunk>, flow: nat)
    returns (c: Config, input: seq<Routed>, actions: seq<Action>)
    requires PlacesAll(rules) && !NeverLate(chunks, rules.capacity, flow)
    ensures c.rules == rules && Handles(c, input, actions, 0, chunks)
    ensures !Unsplit(After(c, Start(c, input), actions).nodes[0].visits, rules, flow)
  {
    hide NeverLate, Gone, Filled, Enabled, Apply, Unsplit, Sane, Start;
    var k := LateAt(chunks, rules.capacity, flow);
    c, input := Small(rules, k), [Routed(0, chunks)];
    OneInput(rules, k, chunks);
    var start := Start(c, input);
    var begun := Begin(rules, k, chunks);
    var filled := Fill(rules, k, After(c, start, begun), chunks, 0, k);
    RunsConcat(c, start, begun, filled);
    var full := After(c, start, begun + filled);
    LateStep(rules, full, chunks, k, flow);
    var late := Apply(c, full, Dispatch(0, []));
    OneStep(c, full, Dispatch(0, []));
    RunsConcat(c, start, begun + filled, [Dispatch(0, [])]);
    RunKeeps(c, start, begun + filled + [Dispatch(0, [])]);
    var rest := Completes(c, late);
    RunsConcat(c, start, begun + filled + [Dispatch(0, [])], rest);
    VisitsGrow(c, late, rest, 0);
    SplitStays(late.nodes[0].visits, After(c, late, rest).nodes[0].visits, rules, flow);
    actions := begun + filled + [Dispatch(0, [])] + rest;
  }

  lemma {:induction false} OneInput(rules: Rules, room: nat, chunks: seq<Chunk>)
    requires PlacesAll(rules) && room > 0
    ensures var c, input := Small(rules, room), [Routed(0, chunks)];
            && c.Valid() && c.rules == rules && ShardsExist(c, input) && ChunksFor(input, 0) == chunks
            && Sane(c, Start(c, input))
  {
    hide Sane, Start;
    var input := [Routed(0, chunks)];
    assert input[1..] == [] && chunks + [] == chunks;
    StartIsSane(Small(rules, room), input);
  }

  /**
   Under `Inline`, no complete run of any network splits a flow among the chunks that a
   worker is routed, if and only if no chunk of the flow comes after as many other
   flows as the placement table holds.
   */
  lemma {:induction false} NetworkSplitsExactly(rules: Rules, chunks: seq<Chunk>, flow: nat)
    requires PlacesAll(rules)
    ensures NeverLate(chunks, rules.capacity, flow)
            <==> forall c: Config, input: seq<Routed>, actions: seq<Action>, n: nat ::
                   c.rules == rules && Handles(c, input, actions, n, chunks) ==>
                     Unsplit(After(c, Start(c, input), actions).nodes[n].visits, rules, flow)
  {
    hide NeverLate, Handles, Unsplit, Start, After, IsRun;
    if NeverLate(chunks, rules.capacity, flow) {
      forall c: Config, input: seq<Routed>, actions: seq<Action>, n: nat |
        c.rules == rules && Handles(c, input, actions, n, chunks)
        ensures IsRun(c, Start(c, input), actions) && n < |After(c, Start(c, input), actions).nodes|
        ensures Unsplit(After(c, Start(c, input), actions).nodes[n].visits, rules, flow)
      {
        HandledIsWhole(c, input, actions, n, chunks, flow);
      }
    } else {
      var c, input, actions := LateIsSplitByARun(rules, chunks, flow);
    }
  }

  lemma {:induction false} HandledIsWhole(
    c: Config, input: seq<Routed>, actions: seq<Action>, n: nat, chunks: seq<Chunk>, flow: nat)
    requires PlacesAll(c.rules) && NeverLate(chunks, c.rules.capacity, flow) && Handles(c, input, actions, n, chunks)
    ensures IsRun(c, Start(c, input), actions) && n < |After(c, Start(c, input), actions).nodes|
    ensures Unsplit(After(c, Start(c, input), actions).nodes[n].visits, c.rules, flow)
  {
    hide NeverLate, Unsplit, Start, After, IsRun, Keeps, RoomAgrees, FirstRoom, FlowsOf, With;
    StartKeeps(c, input);
    RunKeepsAll(c, Start(c, input), actions, input);
    var s := After(c, Start(c, input), actions);
    AllIsProcessed(c, s, input);
    NeverLateAgrees(s.nodes[n].visits, c.rules.capacity, flow);
    SplitExactly(s.nodes[n].visits, c.rules, flow);
  }
}
