/**
 Where a worker sends the chunks of a flow: to itself or to an offload worker,
 by a least-recently-used table of where each flow went before.
 */
module StreamPlacement {
  import opened Bytes

  /** A piece of a TCP stream: the flow it belongs to, and how long it is. */
  datatype Chunk = Chunk(flow: nat, size: nat)

  datatype Policy = Block | Inline | Drop

  datatype Placement = Local | Offloaded

  datatype Entry = Entry(flow: nat, placement: Placement)

  /** The most recently used entry first. */
  type Table = seq<Entry>

  function Lookup(t: Table, flow: nat): Option<Placement> {
    if t == [] then None else if t[0].flow == flow then Some(t[0].placement) else Lookup(t[1..], flow)
  }

  function Without(t: Table, flow: nat): Table {
    if t == [] then [] else if t[0].flow == flow then Without(t[1..], flow) else [t[0]] + Without(t[1..], flow)
  }

  /** Looking a flow up makes it the most recently used. */
  function Touch(t: Table, flow: nat): Table {
    var p := Lookup(t, flow);
    if p.None? then t else [Entry(flow, p.value)] + Without(t, flow)
  }

  function Put(t: Table, flow: nat, p: Placement, capacity: nat): Table {
    var longer := [Entry(flow, p)] + Without(t, flow);
    if |longer| > capacity then longer[..capacity] else longer
  }

  /** What becomes of a chunk; without offload workers it is parsed where it is. */
  datatype Outcome = Submitted | Inlined | Dropped | Parsed

  datatype Rules = Rules(offloading: bool, policy: Policy, capacity: nat) {
    predicate Valid() { capacity > 0 }
  }

  datatype Decision = Decision(outcome: Outcome, table: Table)

  /**
   The decision for a chunk, given whether its offload worker's queue has room.
   A blocking submission waits for room, so then it is the decision at any time.
   */
  function Decide(t: Table, flow: nat, room: bool, rules: Rules): Decision {
    var placed := Lookup(t, flow);
    var touched := Touch(t, flow);
    if placed == Some(Local) then Decision(Inlined, touched)
    else if !rules.offloading then Decision(Parsed, touched)
    else
      var policy := if placed == Some(Offloaded) && rules.policy.Inline? then Block else rules.policy;
      if room || policy.Block? then Decision(Submitted, Put(touched, flow, Offloaded, rules.capacity))
      else if policy.Inline? then Decision(Inlined, Put(touched, flow, Local, rules.capacity))
      else Decision(Dropped, touched)
  }

  // ---------------------------------------------------------------------
  // Runs of one worker

  /** A chunk, and whether there was room for it. */
  datatype Visit = Visit(chunk: Chunk, room: bool)

  function TableAfter(visits: seq<Visit>, rules: Rules): Table {
    if visits == [] then []
    else
      var last := visits[|visits| - 1];
      Decide(TableAfter(visits[..|visits| - 1], rules), last.chunk.flow, last.room, rules).table
  }

  function OutcomeOfLast(visits: seq<Visit>, rules: Rules): Outcome
    requires visits != []
  {
    var last := visits[|visits| - 1];
    Decide(TableAfter(visits[..|visits| - 1], rules), last.chunk.flow, last.room, rules).outcome
  }

  /** The chunks of a flow that had an outcome, in order. */
  function With(visits: seq<Visit>, rules: Rules, flow: nat, outcome: Outcome): seq<Chunk> {
    if visits == [] then []
    else
      var last := visits[|visits| - 1].chunk;
      With(visits[..|visits| - 1], rules, flow, outcome)
      + if last.flow == flow && OutcomeOfLast(visits, rules) == outcome then [last] else []
  }

  /** The chunks of a flow in the order they came. */
  function OfFlow(chunks: seq<Chunk>, flow: nat): seq<Chunk> {
    if chunks == [] then []
    else OfFlow(chunks[..|chunks| - 1], flow)
         + if chunks[|chunks| - 1].flow == flow then [chunks[|chunks| - 1]] else []
  }

  function ChunksOf(visits: seq<Visit>): (r: seq<Chunk>)
    ensures |r| == |visits|
  {
    seq(|visits|, i requires 0 <= i < |visits| => visits[i].chunk)
  }

  lemma ChunksOfLast(visits: seq<Visit>)
    requires visits != []
    ensures ChunksOf(visits) == ChunksOf(visits[..|visits| - 1]) + [visits[|visits| - 1].chunk]
  {
  }

  lemma OfFlowLast(chunks: seq<Chunk>, c: Chunk, flow: nat)
    ensures OfFlow(chunks + [c], flow) == if c.flow == flow then OfFlow(chunks, flow) + [c] else OfFlow(chunks, flow)
  {
    assert (chunks + [c])[..|chunks|] == chunks;
  }

  /** Once placed, the flow never fell out of the table. */
  predicate Kept(visits: seq<Visit>, rules: Rules, flow: nat) {
    visits == []
    || (Kept(visits[..|visits| - 1], rules, flow)
        && (Lookup(TableAfter(visits[..|visits| - 1], rules), flow).Some?
            ==> Lookup(TableAfter(visits, rules), flow).Some?))
  }

  // ---------------------------------------------------------------------
  // The table

  lemma {:induction false} LookupInWithout(t: Table, flow: nat, other: nat)
    ensures Lookup(Without(t, flow), other) == if other == flow then None else Lookup(t, other)
  {
    if t != [] {
      LookupInWithout(t[1..], flow, other);
    }
  }

  /** A look-up finds what it found before, whoever was touched. */
  lemma LookupInTouch(t: Table, flow: nat, other: nat)
    ensures Lookup(Touch(t, flow), other) == Lookup(t, other)
  {
    LookupInWithout(t, flow, other);
  }

  lemma {:induction false} LookupInPrefix(t: Table, n: nat, flow: nat)
    requires n <= |t|
    ensures Lookup(t[..n], flow).Some? ==> Lookup(t[..n], flow) == Lookup(t, flow)
  {
    if n > 0 {
      assert t[..n][1..] == t[1..][..n - 1];
      LookupInPrefix(t[1..], n - 1, flow);
    }
  }

  /** A put is found afterwards, and whatever else is found was there. */
  lemma LookupInPut(t: Table, flow: nat, p: Placement, capacity: nat, other: nat)
    requires capacity > 0
    ensures Lookup(Put(t, flow, p, capacity), flow) == Some(p)
    ensures other != flow && Lookup(Put(t, flow, p, capacity), other).Some? ==>
              Lookup(Put(t, flow, p, capacity), other) == Lookup(t, other)
  {
    hide Lookup;
    LookupInWithout(t, flow, other);
    var longer := [Entry(flow, p)] + Without(t, flow);
    LookupFirst(longer, flow);
    LookupFirst(longer, other);
    assert longer[1..] == Without(t, flow);
    if |longer| > capacity {
      LookupInPrefix(longer, capacity, other);
      LookupFirst(longer[..capacity], flow);
    }
  }

  lemma LookupFirst(t: Table, flow: nat)
    requires t != []
    ensures Lookup(t, flow) == if t[0].flow == flow then Some(t[0].placement) else Lookup(t[1..], flow)
  {
  }

  /** How one decision moves the placement of any flow that stays in the table. */
  lemma PlacementMoves(t: Table, flow: nat, room: bool, rules: Rules, other: nat)
    requires rules.Valid()
    ensures var d := Decide(t, flow, room, rules);
            var after := Lookup(d.table, other);
            && (other != flow && after.Some? ==> after == Lookup(t, other))
            && (other == flow ==> after == (match d.outcome
                                             case Submitted => Some(Offloaded)
                                             case Inlined => Some(Local)
                                             case Dropped => Lookup(t, other)
                                             case Parsed => Lookup(t, other)))
  {
    hide Lookup, Touch, Put;
    LookupInTouch(t, flow, other);
    LookupInPut(Touch(t, flow), flow, Offloaded, rules.capacity, other);
    LookupInPut(Touch(t, flow), flow, Local, rules.capacity, other);
  }

  // ---------------------------------------------------------------------
  // The flows in a table

  function FlowsOf(chunks: seq<Chunk>): set<nat> {
    set c | c in chunks :: c.flow
  }

  function FlowsIn(t: Table): set<nat> {
    if t == [] then {} else {t[0].flow} + FlowsIn(t[1..])
  }

  lemma {:induction false} FlowsAreFound(t: Table, flow: nat)
    ensures flow in FlowsIn(t) <==> Lookup(t, flow).Some?
  {
    if t != [] {
      FlowsAreFound(t[1..], flow);
    }
  }

  predicate Unique(t: Table) {
    t == [] || (t[0].flow !in FlowsIn(t[1..]) && Unique(t[1..]))
  }

  lemma {:induction false} UniqueCounts(t: Table)
    requires Unique(t)
    ensures |FlowsIn(t)| == |t|
  {
    if t != [] {
      UniqueCounts(t[1..]);
    }
  }

  lemma {:induction false} WithoutShrinks(t: Table, flow: nat)
    ensures FlowsIn(Without(t, flow)) == FlowsIn(t) - {flow}
    ensures Unique(t) ==> Unique(Without(t, flow))
  {
    if t != [] {
      WithoutShrinks(t[1..], flow);
      if t[0].flow != flow {
        assert Without(t, flow)[1..] == Without(t[1..], flow);
      }
    }
  }

  // ---------------------------------------------------------------------
  // What an entry tells

  /** The last visit, taken off. */
  lemma LastVisit(visits: seq<Visit>, rules: Rules, flow: nat, outcome: Outcome)
    requires visits != []
    ensures var before := visits[..|visits| - 1];
            var last := visits[|visits| - 1];
            var d := Decide(TableAfter(before, rules), last.chunk.flow, last.room, rules);
            && TableAfter(visits, rules) == d.table
            && (Kept(visits, rules, flow) ==>
                  && Kept(before, rules, flow)
                  && (Lookup(TableAfter(before, rules), flow).Some? ==> Lookup(d.table, flow).Some?))
            && With(visits, rules, flow, outcome)
               == if last.chunk.flow == flow && d.outcome == outcome
                  then With(before, rules, flow, outcome) + [last.chunk] else With(before, rules, flow, outcome)
  {
    hide Decide, Lookup;
  }

  /** What an entry in the table tells of the flow's chunks so far. */
  predicate Tells(placed: Option<Placement>, rules: Rules, submitted: seq<Chunk>, inlined: seq<Chunk>) {
    && (placed == Some(Local) ==> inlined != [] && rules.policy.Inline? && rules.offloading)
    && (placed == Some(Offloaded) ==> submitted != [])
    && (!rules.policy.Inline? ==> inlined == [])
  }

  lemma {:induction false} PlacementTells(visits: seq<Visit>, rules: Rules, flow: nat)
    requires rules.Valid()
    ensures Tells(Lookup(TableAfter(visits, rules), flow), rules,
                  With(visits, rules, flow, Submitted), With(visits, rules, flow, Inlined))
  {
    if visits != [] {
      hide Decide, Lookup, With, TableAfter, Kept;
      LastVisit(visits, rules, flow, Submitted);
      LastVisit(visits, rules, flow, Inlined);
      var before := visits[..|visits| - 1];
      var last := visits[|visits| - 1];
      PlacementTells(before, rules, flow);
      PlacementTells(before, rules, last.chunk.flow);
      PlacementMoves(TableAfter(before, rules), last.chunk.flow, last.room, rules, flow);
      DecisionFits(TableAfter(before, rules), last.chunk.flow, last.room, rules);
    }
  }

  /** Which outcomes a placement and a policy leave open. */
  lemma DecisionFits(t: Table, flow: nat, room: bool, rules: Rules)
    ensures var o := Decide(t, flow, room, rules).outcome;
            var placed := Lookup(t, flow);
            && (o.Inlined? <==>
                  placed == Some(Local) || (rules.offloading && placed == None && !room && rules.policy.Inline?))
            && (o.Dropped? ==> rules.policy.Drop? && !room && rules.offloading)
            && (o.Parsed? <==> !rules.offloading && placed != Some(Local))
            && (o.Submitted? ==> rules.offloading) && (o.Submitted? || o.Inlined? || o.Dropped? || o.Parsed?)
  {
    hide Lookup, Touch, Put;
    var placed := Lookup(t, flow);
    assert placed.None? || placed.value.Local? || placed.value.Offloaded?;
  }

  // ---------------------------------------------------------------------
  // Which flows are still in the table

  /** The other flows that came by after a flow's last chunk. */
  function OthersSince(chunks: seq<Chunk>, flow: nat): set<nat> {
    if chunks == [] || chunks[|chunks| - 1].flow == flow then {}
    else OthersSince(chunks[..|chunks| - 1], flow) + {chunks[|chunks| - 1].flow}
  }

  /** The flow came by, and since then at least as many other flows as a table holds. */
  predicate Gone(chunks: seq<Chunk>, capacity: nat, flow: nat) {
    flow in FlowsOf(chunks) && |OthersSince(chunks, flow)| >= capacity
  }

  /** The flows in front of a flow's entry. */
  function Ahead(t: Table, flow: nat): set<nat> {
    if t == [] || t[0].flow == flow then {} else {t[0].flow} + Ahead(t[1..], flow)
  }

  lemma {:induction false} AheadInWithout(t: Table, flow: nat, other: nat)
    requires other != flow
    ensures Ahead(Without(t, flow), other) == Ahead(t, other) - {flow}
  {
    if t != [] {
      AheadInWithout(t[1..], flow, other);
      if t[0].flow != flow {
        assert Without(t, flow)[1..] == Without(t[1..], flow);
      }
    }
  }

  /** Cut short, a table still has a flow's entry unless at least as many others are in front of it. */
  lemma {:induction false} AheadInPrefix(t: Table, n: nat, flow: nat)
    requires n <= |t| && Unique(t) && Lookup(t, flow).Some?
    ensures Ahead(t, flow) <= FlowsIn(t)
    ensures if Lookup(t[..n], flow).Some? then |Ahead(t, flow)| < n && Ahead(t[..n], flow) == Ahead(t, flow)
            else |Ahead(t, flow)| >= n
  {
    if t[0].flow != flow {
      AheadInPrefix(t[1..], if n > 0 then n - 1 else 0, flow);
      if n > 0 {
        assert t[..n][1..] == t[1..][..n - 1];
      }
    }
  }

  lemma {:induction false} PrefixIsUnique(t: Table, n: nat)
    requires n <= |t| && Unique(t)
    ensures Unique(t[..n]) && FlowsIn(t[..n]) <= FlowsIn(t)
  {
    if n > 0 {
      assert t[..n][1..] == t[1..][..n - 1];
      PrefixIsUnique(t[1..], n - 1);
    }
  }

  lemma {:induction false} WithoutTwice(t: Table, flow: nat)
    ensures Without(Without(t, flow), flow) == Without(t, flow)
    ensures |Without(t, flow)| <= |t| && (Lookup(t, flow).Some? ==> |Without(t, flow)| < |t|)
  {
    if t != [] {
      WithoutTwice(t[1..], flow);
      if t[0].flow != flow {
        assert Without(t, flow)[1..] == Without(t[1..], flow);
      }
    }
  }

  /** The rules under which every chunk is placed. */
  predicate PlacesAll(rules: Rules) { rules.Valid() && rules.offloading && rules.policy.Inline? }

  /** Then every chunk puts its flow in front. */
  lemma VisitMovesToFront(t: Table, flow: nat, room: bool, rules: Rules)
    requires PlacesAll(rules) && |t| <= rules.capacity
    ensures var after := Decide(t, flow, room, rules).table;
            after != [] && after == Put(t, flow, after[0].placement, rules.capacity)
  {
    hide Lookup, Without;
    WithoutTwice(t, flow);
    var p := Lookup(t, flow);
    if p.Some? {
      var touched := Touch(t, flow);
      LookupInTouch(t, flow, flow);
      assert [touched[0]] + Without(t, flow) == touched;
      WithoutFirst(touched, flow);
      assert touched[1..] == Without(t, flow);
    }
  }

  lemma WithoutFirst(t: Table, flow: nat)
    requires t != [] && t[0].flow == flow
    ensures Without(t, flow) == Without(t[1..], flow)
  {
  }

  /** How a table stands to the chunks that came by, as one flow sees it. */
  predicate Recent(t: Table, chunks: seq<Chunk>, capacity: nat, flow: nat) {
    if Lookup(t, flow).Some? then
      flow in FlowsOf(chunks) && Ahead(t, flow) == OthersSince(chunks, flow) && |Ahead(t, flow)| < capacity
    else flow in FlowsOf(chunks) ==> |OthersSince(chunks, flow)| >= capacity
  }

  lemma PutIsRecent(t: Table, chunks: seq<Chunk>, c: Chunk, p: Placement, capacity: nat, flow: nat)
    requires capacity > 0 && Recent(t, chunks, capacity, flow) && Unique(t) && |t| <= capacity
    ensures var after := Put(t, c.flow, p, capacity);
            Recent(after, chunks + [c], capacity, flow) && Unique(after) && |after| <= capacity
  {
    hide Lookup, Without, OthersSince, FlowsOf, Unique, FlowsIn, Ahead;
    var longer := [Entry(c.flow, p)] + Without(t, c.flow);
    var n := if |longer| > capacity then capacity else |longer|;
    assert longer[..n] == Put(t, c.flow, p, capacity);
    LongerIsUnique(t, c.flow, p);
    PrefixIsUnique(longer, n);
    OneMoreSince(chunks, c, flow);
    LookupFirst(longer, flow);
    LookupInWithout(t, c.flow, flow);
    assert longer[1..] == Without(t, c.flow);
    if Lookup(longer, flow).Some? {
      AheadInPrefix(longer, n, flow);
      AheadFirst(longer, flow);
      if flow != c.flow {
        AheadInWithout(t, c.flow, flow);
      }
    } else {
      LookupInPrefix(longer, n, flow);
      SubsetIsSmaller(OthersSince(chunks, flow), OthersSince(chunks + [c], flow));
    }
  }

  lemma LongerIsUnique(t: Table, flow: nat, p: Placement)
    requires Unique(t)
    ensures Unique([Entry(flow, p)] + Without(t, flow))
  {
    WithoutShrinks(t, flow);
    assert ([Entry(flow, p)] + Without(t, flow))[1..] == Without(t, flow);
  }

  lemma AheadFirst(t: Table, flow: nat)
    requires t != []
    ensures Ahead(t, flow) == if t[0].flow == flow then {} else {t[0].flow} + Ahead(t[1..], flow)
  {
  }

  lemma OneMoreSince(chunks: seq<Chunk>, c: Chunk, flow: nat)
    ensures OthersSince(chunks + [c], flow) == if c.flow == flow then {} else OthersSince(chunks, flow) + {c.flow}
    ensures flow in FlowsOf(chunks + [c]) <==> flow in FlowsOf(chunks) || c.flow == flow
  {
    assert (chunks + [c])[..|chunks|] == chunks;
    assert FlowsOf(chunks + [c]) == FlowsOf(chunks) + {c.flow} by {
      assert forall d :: d in chunks + [c] <==> d in chunks || d == c;
    }
  }

  /** The table holds the flows that came by last, so a flow is missing when it is new or gone. */
  lemma {:induction false} TableIsRecent(visits: seq<Visit>, rules: Rules, flow: nat)
    requires PlacesAll(rules)
    ensures var t, chunks := TableAfter(visits, rules), ChunksOf(visits);
            && Recent(t, chunks, rules.capacity, flow) && Unique(t) && |t| <= rules.capacity
            && (Lookup(t, flow).None? <==> flow !in FlowsOf(chunks) || Gone(chunks, rules.capacity, flow))
  {
    if visits != [] {
      hide Decide, Lookup, Put, Unique, FlowsOf, OthersSince, Ahead, Kept, With;
      var before, last := visits[..|visits| - 1], visits[|visits| - 1];
      TableIsRecent(before, rules, flow);
      VisitMovesToFront(TableAfter(before, rules), last.chunk.flow, last.room, rules);
      LastVisit(visits, rules, flow, Submitted);
      ChunksOfLast(visits);
      PutIsRecent(TableAfter(before, rules), ChunksOf(before), last.chunk, TableAfter(visits, rules)[0].placement,
                  rules.capacity, flow);
    }
  }

  // ---------------------------------------------------------------------
  // When a flow is split

  /** Whether the first chunk of a flow that came by found room. */
  predicate FirstRoom(visits: seq<Visit>, flow: nat) {
    if visits == [] then false
    else if flow in FlowsOf(ChunksOf(visits[..|visits| - 1])) then FirstRoom(visits[..|visits| - 1], flow)
    else visits[|visits| - 1].room
  }

  /** Each chunk that comes when its flow is gone finds room exactly if the flow's first chunk did. */
  predicate RoomAgrees(visits: seq<Visit>, capacity: nat, flow: nat) {
    visits == [] ||
    var before, last := visits[..|visits| - 1], visits[|visits| - 1];
    && RoomAgrees(before, capacity, flow)
    && (last.chunk.flow == flow && Gone(ChunksOf(before), capacity, flow) ==> (last.room <==> FirstRoom(before, flow)))
  }

  lemma LastRoom(visits: seq<Visit>, capacity: nat, flow: nat)
    requires visits != []
    ensures var before, last := visits[..|visits| - 1], visits[|visits| - 1];
            && (RoomAgrees(visits, capacity, flow) <==>
                  && RoomAgrees(before, capacity, flow)
                  && (last.chunk.flow == flow && Gone(ChunksOf(before), capacity, flow) ==>
                        (last.room <==> FirstRoom(before, flow))))
            && (FirstRoom(visits, flow) <==>
                  if flow in FlowsOf(ChunksOf(before)) then FirstRoom(before, flow) else last.room)
            && (flow in FlowsOf(ChunksOf(visits)) <==> flow in FlowsOf(ChunksOf(before)) || last.chunk.flow == flow)
  {
    hide FlowsOf, Gone;
    ChunksOfLast(visits);
    OneMoreSince(ChunksOf(visits[..|visits| - 1]), visits[|visits| - 1].chunk, flow);
  }

  /** The flow has no chunks on one of the two sides. */
  predicate Unsplit(visits: seq<Visit>, rules: Rules, flow: nat) {
    With(visits, rules, flow, Submitted) == [] || With(visits, rules, flow, Inlined) == []
  }

  /** The first chunk of a flow goes where it finds room, and whatever comes when the flow is gone does so again. */
  lemma {:induction false} SplitExactly(visits: seq<Visit>, rules: Rules, flow: nat)
    requires PlacesAll(rules)
    ensures Unsplit(visits, rules, flow) <==> RoomAgrees(visits, rules.capacity, flow)
    ensures flow in FlowsOf(ChunksOf(visits)) ==>
              With(visits, rules, flow, if FirstRoom(visits, flow) then Submitted else Inlined) != []
    ensures flow !in FlowsOf(ChunksOf(visits)) ==>
              With(visits, rules, flow, Submitted) == [] && With(visits, rules, flow, Inlined) == []
  {
    if visits != [] {
      hide Decide, Lookup, With, TableAfter, FlowsOf, RoomAgrees, FirstRoom, Gone, Kept, Recent, Unique;
      var before, last := visits[..|visits| - 1], visits[|visits| - 1];
      LastVisit(visits, rules, flow, Submitted);
      LastVisit(visits, rules, flow, Inlined);
      LastRoom(visits, rules.capacity, flow);
      SplitExactly(before, rules, flow);
      TableIsRecent(before, rules, flow);
      PlacementTells(before, rules, flow);
      DecisionFits(TableAfter(before, rules), last.chunk.flow, last.room, rules);
      GoneWasThere(ChunksOf(before), rules.capacity, flow);
      var placed := Lookup(TableAfter(before, rules), flow);
      assert placed.None? || placed.value.Local? || placed.value.Offloaded?;
    }
  }

  lemma GoneWasThere(chunks: seq<Chunk>, capacity: nat, flow: nat)
    ensures Gone(chunks, capacity, flow) ==> flow in FlowsOf(chunks)
  {
  }

  /** No chunk of the flow comes when the flow is gone. */
  predicate NeverLate(chunks: seq<Chunk>, capacity: nat, flow: nat) {
    chunks == [] ||
    var before, last := chunks[..|chunks| - 1], chunks[|chunks| - 1];
    NeverLate(before, capacity, flow) && (last.flow == flow ==> !Gone(before, capacity, flow))
  }

  lemma {:induction false} NeverLateAgrees(visits: seq<Visit>, capacity: nat, flow: nat)
    requires NeverLate(ChunksOf(visits), capacity, flow)
    ensures RoomAgrees(visits, capacity, flow)
  {
    if visits != [] {
      hide Gone;
      ChunksOfLast(visits);
      var chunks, before := ChunksOf(visits), visits[..|visits| - 1];
      assert chunks[..|chunks| - 1] == ChunksOf(before);
      NeverLateAgrees(before, capacity, flow);
    }
  }

  lemma {:induction false} OthersCameBy(chunks: seq<Chunk>, flow: nat)
    ensures OthersSince(chunks, flow) <= FlowsOf(chunks) - {flow}
  {
    if chunks != [] && chunks[|chunks| - 1].flow != flow {
      OthersCameBy(chunks[..|chunks| - 1], flow);
      assert chunks[|chunks| - 1] in chunks;
    }
  }

  /** As long as no more flows come by than the table holds, no chunk comes late. */
  lemma {:induction false} FewFlowsNeverLate(chunks: seq<Chunk>, capacity: nat, flow: nat)
    requires |FlowsOf(chunks)| <= capacity
    ensures NeverLate(chunks, capacity, flow)
  {
    if chunks != [] {
      hide OthersSince;
      var before := chunks[..|chunks| - 1];
      SubsetIsSmaller(FlowsOf(before), FlowsOf(chunks));
      FewFlowsNeverLate(before, capacity, flow);
      OthersCameBy(before, flow);
      SubsetIsSmaller(OthersSince(before, flow), FlowsOf(before) - {flow});
    }
  }

  function AllWithRoom(chunks: seq<Chunk>): (visits: seq<Visit>)
    ensures ChunksOf(visits) == chunks
  {
    seq(|chunks|, i requires 0 <= i < |chunks| => Visit(chunks[i], true))
  }

  lemma {:induction false} FirstFindsRoom(chunks: seq<Chunk>, flow: nat)
    requires flow in FlowsOf(chunks)
    ensures FirstRoom(AllWithRoom(chunks), flow)
  {
    var before := chunks[..|chunks| - 1];
    assert AllWithRoom(chunks)[..|chunks| - 1] == AllWithRoom(before);
    if flow in FlowsOf(before) {
      FirstFindsRoom(before, flow);
    }
  }

  /** A flow with a late chunk is split if that one is the first to find no room. */
  lemma {:induction false} LateCanSplit(chunks: seq<Chunk>, capacity: nat, flow: nat) returns (visits: seq<Visit>)
    requires !NeverLate(chunks, capacity, flow)
    ensures ChunksOf(visits) == chunks && !RoomAgrees(visits, capacity, flow)
  {
    hide RoomAgrees, FirstRoom, Gone;
    var before, last := chunks[..|chunks| - 1], chunks[|chunks| - 1];
    if !NeverLate(before, capacity, flow) {
      var shorter := LateCanSplit(before, capacity, flow);
      visits := shorter + [Visit(last, true)];
      assert visits[..|visits| - 1] == shorter;
    } else {
      visits := AllWithRoom(before) + [Visit(last, false)];
      assert visits[..|visits| - 1] == AllWithRoom(before);
      GoneWasThere(before, capacity, flow);
      FirstFindsRoom(before, flow);
    }
    LastRoom(visits, capacity, flow);
    ChunksOfLast(visits);
  }

  /** A flow stays on one side however full the queues get, if and only if no chunk of it comes late. */
  lemma NeverSplitExactly(chunks: seq<Chunk>, rules: Rules, flow: nat)
    requires PlacesAll(rules)
    ensures NeverLate(chunks, rules.capacity, flow)
            <==> forall visits: seq<Visit> :: ChunksOf(visits) == chunks ==> Unsplit(visits, rules, flow)
  {
    hide NeverLate, RoomAgrees, Unsplit;
    if NeverLate(chunks, rules.capacity, flow) {
      forall visits: seq<Visit> | ChunksOf(visits) == chunks
        ensures Unsplit(visits, rules, flow)
      {
        NeverLateAgrees(visits, rules.capacity, flow);
        SplitExactly(visits, rules, flow);
      }
    } else {
      var visits := LateCanSplit(chunks, rules.capacity, flow);
      SplitExactly(visits, rules, flow);
    }
  }

  // ---------------------------------------------------------------------
  // All of a flow on one side

  predicate IsSubsequence(a: seq<Chunk>, b: seq<Chunk>) {
    if b == [] then a == []
    else
      || (a != [] && a[|a| - 1] == b[|b| - 1] && IsSubsequence(a[..|a| - 1], b[..|b| - 1]))
      || IsSubsequence(a, b[..|b| - 1])
  }

  lemma SubsequenceGrows(a: seq<Chunk>, b: seq<Chunk>, c: Chunk)
    requires IsSubsequence(a, b)
    ensures IsSubsequence(a, b + [c]) && IsSubsequence(a + [c], b + [c])
  {
    assert (b + [c])[..|b|] == b && (a + [c])[..|a|] == a;
  }

  /** The chunks of a flow that were submitted or kept, against all there were. */
  predicate OneSided(policy: Policy, submitted: seq<Chunk>, inlined: seq<Chunk>, all: seq<Chunk>) {
    && (policy.Block? ==> submitted == all && inlined == [])
    && (policy.Inline? ==> (submitted == all && inlined == []) || (inlined == all && submitted == []))
    && (policy.Drop? ==> inlined == [] && IsSubsequence(submitted, all))
  }

  /** Under `Inline` every chunk is submitted or kept, so when one of these is none the other is all. */
  lemma {:induction false} InlineDropsNone(visits: seq<Visit>, rules: Rules, flow: nat)
    requires PlacesAll(rules)
    ensures var submitted, inlined := With(visits, rules, flow, Submitted), With(visits, rules, flow, Inlined);
            var all := OfFlow(ChunksOf(visits), flow);
            && |submitted| + |inlined| == |all|
            && (inlined == [] ==> submitted == all) && (submitted == [] ==> inlined == all)
  {
    if visits != [] {
      hide Decide, Lookup, With, TableAfter, OfFlow;
      var before, last := visits[..|visits| - 1], visits[|visits| - 1];
      LastVisit(visits, rules, flow, Submitted);
      LastVisit(visits, rules, flow, Inlined);
      InlineDropsNone(before, rules, flow);
      DecisionFits(TableAfter(before, rules), last.chunk.flow, last.room, rules);
      ChunksOfLast(visits);
      OfFlowLast(ChunksOf(before), last.chunk, flow);
    }
  }

  /** The other policies never split a flow. */
  lemma {:induction false} NeverSplit(visits: seq<Visit>, rules: Rules, flow: nat)
    requires rules.Valid() && rules.offloading && !rules.policy.Inline?
    ensures OneSided(rules.policy, With(visits, rules, flow, Submitted), With(visits, rules, flow, Inlined),
                     OfFlow(ChunksOf(visits), flow))
  {
    if visits != [] {
      hide Decide, Lookup, IsSubsequence, With, TableAfter, OfFlow;
      var before, last := visits[..|visits| - 1], visits[|visits| - 1];
      LastVisit(visits, rules, flow, Submitted);
      LastVisit(visits, rules, flow, Inlined);
      NeverSplit(before, rules, flow);
      PlacementTells(before, rules, last.chunk.flow);
      DecisionFits(TableAfter(before, rules), last.chunk.flow, last.room, rules);
      ChunksOfLast(visits);
      OfFlowLast(ChunksOf(before), last.chunk, flow);
      if rules.policy.Drop? {
        SubsequenceGrows(With(before, rules, flow, Submitted), OfFlow(ChunksOf(before), flow), last.chunk);
      }
    }
  }

  /**
   All the chunks of a flow that are not dropped go to one processor, in order:
   always unless the policy is `Inline`, and then exactly when each chunk that
   comes after as many other flows as the placement table holds finds room if and
   only if the flow's first chunk did. Only `Drop` drops any, and `Block` keeps
   none for itself.
   */
  lemma OneProcessor(visits: seq<Visit>, rules: Rules, flow: nat)
    requires rules.Valid() && rules.offloading
    ensures OneSided(rules.policy, With(visits, rules, flow, Submitted), With(visits, rules, flow, Inlined),
                     OfFlow(ChunksOf(visits), flow))
            <==> (rules.policy.Inline? ==> RoomAgrees(visits, rules.capacity, flow))
  {
    hide With, OfFlow, RoomAgrees, IsSubsequence, FirstRoom, FlowsOf;
    if rules.policy.Inline? {
      SplitExactly(visits, rules, flow);
      InlineDropsNone(visits, rules, flow);
    } else {
      NeverSplit(visits, rules, flow);
    }
  }

  /** A flow whose placement was never evicted is never split. */
  lemma {:induction false} KeptAgrees(visits: seq<Visit>, rules: Rules, flow: nat)
    requires PlacesAll(rules) && Kept(visits, rules, flow)
    ensures RoomAgrees(visits, rules.capacity, flow)
    ensures Lookup(TableAfter(visits, rules), flow).None? ==> flow !in FlowsOf(ChunksOf(visits))
  {
    if visits != [] {
      hide Decide, Lookup, With, TableAfter, FlowsOf, RoomAgrees, FirstRoom, Gone, Kept, Recent, Unique;
      var before, last := visits[..|visits| - 1], visits[|visits| - 1];
      LastVisit(visits, rules, flow, Submitted);
      LastRoom(visits, rules.capacity, flow);
      KeptAgrees(before, rules, flow);
      TableIsRecent(before, rules, flow);
      PlacementMoves(TableAfter(before, rules), last.chunk.flow, last.room, rules, flow);
      DecisionFits(TableAfter(before, rules), last.chunk.flow, last.room, rules);
    }
  }

  /** With `Inline` and an evicted placement a flow can be split: it was offloaded, and then kept. */
  lemma EvictionSplitsAFlow()
    ensures var rules := Rules(true, Inline, 1);
            var visits := [Visit(Chunk(0, 5), true), Visit(Chunk(1, 5), true), Visit(Chunk(0, 7), false)];
            && !Kept(visits, rules, 0) && !RoomAgrees(visits, 1, 0)
            && With(visits, rules, 0, Submitted) == [Chunk(0, 5)] && With(visits, rules, 0, Inlined) == [Chunk(0, 7)]
  {
    var rules := Rules(true, Inline, 1);
    var a, b, c := Visit(Chunk(0, 5), true), Visit(Chunk(1, 5), true), Visit(Chunk(0, 7), false);
    assert [a, b, c][..2] == [a, b] && [a, b][..1] == [a] && [a][..0] == [];
    assert TableAfter([a], rules) == [Entry(0, Offloaded)];
    assert Without([Entry(0, Offloaded)], 1) == [Entry(0, Offloaded)];
    assert TableAfter([a, b], rules) == [Entry(1, Offloaded)];
    assert Lookup([Entry(1, Offloaded)], 0) == None;
    assert !Kept([a, b], rules, 0);
    assert With([a], rules, 0, Submitted) == [Chunk(0, 5)] && With([a], rules, 0, Inlined) == [];
    assert With([a, b], rules, 0, Submitted) == [Chunk(0, 5)] && With([a, b], rules, 0, Inlined) == [];
    assert OutcomeOfLast([a, b, c], rules) == Inlined;
    SplitExactly([a, b, c], rules, 0);
  }

  // ---------------------------------------------------------------------
  // When nothing is evicted

  /** As long as no more flows came by than the table holds, none is evicted. */
  lemma {:induction false} FewFlowsAreKept(visits: seq<Visit>, rules: Rules, flow: nat)
    requires rules.Valid() && |FlowsOf(ChunksOf(visits))| <= rules.capacity
    ensures Kept(visits, rules, flow)
    ensures FlowsIn(TableAfter(visits, rules)) <= FlowsOf(ChunksOf(visits)) && Unique(TableAfter(visits, rules))
  {
    if visits != [] {
      hide Unique, FlowsIn, Decide, Lookup;
      var before := visits[..|visits| - 1];
      var last := visits[|visits| - 1];
      var flows := FlowsOf(ChunksOf(before));
      ChunksOfLast(visits);
      assert FlowsOf(ChunksOf(visits)) == flows + {last.chunk.flow};
      SubsetIsSmaller(flows, FlowsOf(ChunksOf(visits)));
      FewFlowsAreKept(before, rules, flow);
      NothingEvicted(TableAfter(before, rules), last.chunk.flow, last.room, rules, FlowsOf(ChunksOf(visits)), flow);
    } else {
      assert FlowsIn([]) == {};
    }
  }

  lemma NothingEvicted(t: Table, flow: nat, room: bool, rules: Rules, flows: set<nat>, other: nat)
    requires rules.Valid() && FlowsIn(t) + {flow} <= flows && Unique(t) && |flows| <= rules.capacity
    ensures var after := Decide(t, flow, room, rules).table;
            && FlowsIn(after) <= flows && Unique(after)
            && (Lookup(t, other).Some? ==> Lookup(after, other).Some?)
  {
    hide Lookup, FlowsIn, Without, Unique;
    TouchKeeps(t, flow);
    var touched := Touch(t, flow);
    PutKeeps(touched, flow, Offloaded, rules.capacity, flows);
    PutKeeps(touched, flow, Local, rules.capacity, flows);
    FlowsAreFound(t, other);
    FlowsAreFound(Decide(t, flow, room, rules).table, other);
  }

  lemma TouchKeeps(t: Table, flow: nat)
    requires Unique(t)
    ensures FlowsIn(Touch(t, flow)) == FlowsIn(t) && Unique(Touch(t, flow))
  {
    hide Lookup, Without;
    FlowsAreFound(t, flow);
    WithoutShrinks(t, flow);
    if Lookup(t, flow).Some? {
      assert Touch(t, flow)[1..] == Without(t, flow);
    }
  }

  lemma PutKeeps(t: Table, flow: nat, p: Placement, capacity: nat, flows: set<nat>)
    requires FlowsIn(t) + {flow} <= flows && Unique(t) && |flows| <= capacity
    ensures var after := Put(t, flow, p, capacity);
            FlowsIn(after) == FlowsIn(t) + {flow} && Unique(after)
  {
    hide Without;
    WithoutShrinks(t, flow);
    var longer := [Entry(flow, p)] + Without(t, flow);
    assert longer[1..] == Without(t, flow);
    assert FlowsIn(longer) == FlowsIn(t) + {flow};
    UniqueCounts(longer);
    SubsetIsSmaller(FlowsIn(longer), flows);
  }
}
