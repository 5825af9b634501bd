/** The bounded log of live deltas, and what a client that polls it gets to see. */
module LiveDeltas {
  import opened Bytes

  datatype Delta<T> = Delta(cursor: nat, payload: T)

  datatype Log<T> = Log(capacity: nat, nextCursor: nat, droppedBefore: nat, entries: seq<Delta<T>>)

  datatype Response<T> = Response(
    deltas: seq<Delta<T>>, nextCursor: nat, latestCursor: nat, droppedBefore: nat, missed: bool)

  function NewLog<T>(capacity: nat): Log<T> { Log(Max(capacity, 1), 1, 0, []) }

  function Shrink<T>(log: Log<T>): Log<T>
    decreases |log.entries|
  {
    if |log.entries| > log.capacity
    then Shrink(log.(entries := log.entries[1..], droppedBefore := log.entries[0].cursor))
    else log
  }

  function Push<T>(log: Log<T>, payload: T): Log<T> {
    Shrink(log.(nextCursor := log.nextCursor + 1, entries := log.entries + [Delta(log.nextCursor, payload)]))
  }

  /** The first entries after a cursor, up to a limit. */
  function TakeAfter<T>(entries: seq<Delta<T>>, cursor: nat, limit: nat): seq<Delta<T>>
    decreases |entries|
  {
    if entries == [] || limit == 0 then []
    else if entries[0].cursor > cursor then [entries[0]] + TakeAfter(entries[1..], cursor, limit - 1)
    else TakeAfter(entries[1..], cursor, limit)
  }

  function Respond<T>(log: Log<T>, cursor: nat, limit: nat): Response<T> {
    var from := Max(cursor, log.droppedBefore);
    var deltas := TakeAfter(log.entries, from, limit);
    Response(deltas, if deltas == [] then from else deltas[|deltas| - 1].cursor,
             SaturatingSub(log.nextCursor, 1), log.droppedBefore, cursor < log.droppedBefore)
  }

  class LiveDeltaLog<T> {
    const capacity: nat
    var nextCursor: nat
    var droppedBefore: nat
    var entries: seq<Delta<T>>

    constructor (capacity: nat)
      ensures Value() == NewLog(capacity)
    {
      this.capacity := Max(capacity, 1);
      nextCursor, droppedBefore, entries := 1, 0, [];
    }

    function Value(): Log<T>
      reads this
    {
      Log(capacity, nextCursor, droppedBefore, entries)
    }

    method PushPayload(payload: T)
      modifies this
      ensures Value() == Push(old(Value()), payload)
    {
      var cursor := nextCursor;
      nextCursor := nextCursor + 1;
      entries := entries + [Delta(cursor, payload)];
      while |entries| > capacity
        invariant Push(old(Value()), payload) == Shrink(Value())
        decreases |entries|
      {
        droppedBefore := entries[0].cursor;
        entries := entries[1..];
      }
    }
  }

  // ---------------------------------------------------------------------
  // What the log holds

  /** The log holds the last of everything ever pushed, numbered from one. */
  predicate Holds<T(==)>(log: Log<T>, history: seq<T>) {
    && log.capacity > 0
    && log.nextCursor == |history| + 1
    && log.droppedBefore == SaturatingSub(|history|, log.capacity)
    && log.droppedBefore + |log.entries| == |history|
    && Numbered(log.entries, log.droppedBefore, history)
  }

  predicate Numbered<T(==)>(entries: seq<Delta<T>>, from: nat, history: seq<T>)
    requires from + |entries| <= |history|
  {
    forall i :: 0 <= i < |entries| ==> entries[i] == Delta(from + i + 1, history[from + i])
  }

  /** A push is held, and only what no longer fits is dropped: the oldest. */
  lemma PushHolds<T>(log: Log<T>, history: seq<T>, payload: T)
    requires Holds(log, history)
    ensures var after := Push(log, payload);
            Holds(after, history + [payload]) && after.capacity == log.capacity
  {
    var longer := history + [payload];
    var grown := log.(nextCursor := log.nextCursor + 1, entries := log.entries + [Delta(log.nextCursor, payload)]);
    assert Numbered(grown.entries, log.droppedBefore, longer);
    if |grown.entries| > log.capacity {
      var shrunk := grown.(entries := grown.entries[1..], droppedBefore := grown.entries[0].cursor);
      assert Shrink(grown) == Shrink(shrunk) == shrunk;
    }
  }

  /** Entries numbered one after the other: those after a cursor are the rest of them. */
  lemma {:induction false} TakeAfterIs<T>(entries: seq<Delta<T>>, from: nat, history: seq<T>, cursor: nat, limit: nat)
    requires from + |entries| <= |history| && Numbered(entries, from, history) && from <= cursor
    ensures var taken := TakeAfter(entries, cursor, limit);
            && |taken| == Min(limit, SaturatingSub(from + |entries|, cursor))
            && cursor + |taken| <= Max(cursor, |history|)
            && forall i :: 0 <= i < |taken| ==>
                 cursor + i < |history| && taken[i] == Delta(cursor + i + 1, history[cursor + i])
    decreases |entries|
  {
    if entries != [] && limit > 0 {
      if from == cursor {
        TakeAll(entries, from, history, limit);
      } else {
        TakeAfterIs(entries[1..], from + 1, history, cursor, limit);
      }
    }
  }

  lemma {:induction false} TakeAll<T>(entries: seq<Delta<T>>, from: nat, history: seq<T>, limit: nat)
    requires from + |entries| <= |history| && Numbered(entries, from, history)
    ensures TakeAfter(entries, from, limit) == entries[..Min(limit, |entries|)]
    decreases |entries|
  {
    if entries != [] && limit > 0 {
      TakeLater(entries[1..], from, from + 1, history, limit - 1);
    }
  }

  lemma {:induction false} TakeLater<T>(entries: seq<Delta<T>>, cursor: nat, from: nat, history: seq<T>, limit: nat)
    requires from + |entries| <= |history| && Numbered(entries, from, history) && cursor <= from
    ensures TakeAfter(entries, cursor, limit) == entries[..Min(limit, |entries|)]
    decreases |entries|
  {
    if entries != [] && limit > 0 {
      TakeLater(entries[1..], cursor, from + 1, history, limit - 1);
    }
  }

  /**
   A response to a client carries on, in order and without a hole, right after
   its cursor, or right after what is gone; `missed` says which, and it is set
   exactly when the client is further behind than the log holds. A cursor past the
   latest is answered with nothing, and handed back.
   */
  lemma RespondIs<T>(log: Log<T>, history: seq<T>, cursor: nat, limit: nat)
    requires Holds(log, history)
    ensures var r := Respond(log, cursor, limit);
            var from := Max(cursor, log.droppedBefore);
            && (r.missed <==> from > cursor) && (r.missed <==> |history| - cursor > log.capacity)
            && r.droppedBefore == log.droppedBefore && r.latestCursor == |history|
            && r.nextCursor == from + |r.deltas| <= Max(cursor, |history|)
            && |r.deltas| == Min(limit, SaturatingSub(|history|, from))
            && forall i :: 0 <= i < |r.deltas| ==> r.deltas[i] == Delta(from + i + 1, history[from + i])
  {
    hide TakeAfter;
    TakeAfterIs(log.entries, log.droppedBefore, history, Max(cursor, log.droppedBefore), limit);
  }

  // ---------------------------------------------------------------------
  // A client among pushes

  datatype Event<T> = Pushed(payload: T) | Polled(limit: nat)

  /** What a client has got, and which cursors it was told it missed. */
  datatype Client<T> = Client(cursor: nat, received: seq<Delta<T>>, lost: set<nat>)

  function Between(from: nat, upTo: nat): (r: set<nat>)
    ensures forall k :: k in r <==> from < k <= upTo
  {
    if upTo <= from then {} else Between(from, upTo - 1) + {upTo}
  }

  /** The client follows `next_cursor`; told that it missed some, it knows those up to `dropped_before` are gone. */
  function Polls<T>(client: Client<T>, r: Response<T>): Client<T> {
    Client(r.nextCursor, client.received + r.deltas,
           client.lost + if r.missed then Between(client.cursor, r.droppedBefore) else {})
  }

  function Run<T>(log: Log<T>, client: Client<T>, events: seq<Event<T>>): (Log<T>, Client<T>)
    decreases |events|
  {
    if events == [] then (log, client)
    else if events[0].Pushed? then Run(Push(log, events[0].payload), client, events[1..])
    else Run(log, Polls(client, Respond(log, client.cursor, events[0].limit)), events[1..])
  }

  function PushedIn<T>(events: seq<Event<T>>): seq<T> {
    if events == [] then [] else (if events[0].Pushed? then [events[0].payload] else []) + PushedIn(events[1..])
  }

  function CursorsOf<T>(deltas: seq<Delta<T>>): set<nat> {
    set i | 0 <= i < |deltas| :: deltas[i].cursor
  }

  /** Deltas as they were pushed, in order, none after the cursor. */
  predicate InOrder<T(==)>(received: seq<Delta<T>>, cursor: nat, history: seq<T>) {
    && (forall i, j :: 0 <= i < j < |received| ==> received[i].cursor < received[j].cursor)
    && (forall i :: 0 <= i < |received| ==>
          && 0 < received[i].cursor <= cursor && received[i].cursor <= |history|
          && received[i].payload == history[received[i].cursor - 1])
  }

  /** Every cursor after the start and up to the client's own is either of a delta it got or lost. */
  predicate Covers<T(==)>(received: seq<Delta<T>>, lost: set<nat>, start: nat, cursor: nat) {
    start <= cursor && CursorsOf(received) !! lost && CursorsOf(received) + lost == Between(start, cursor)
  }

  /**
   From where it started to its cursor the client has got every delta once, in
   order, or was told it is lost. A start past all there is stays as it is.
   */
  predicate SeesAll<T(==)>(client: Client<T>, start: nat, history: seq<T>) {
    && client.cursor <= Max(start, |history|)
    && InOrder(client.received, client.cursor, history) && Covers(client.received, client.lost, start, client.cursor)
  }

  lemma PollSeesAll<T>(log: Log<T>, client: Client<T>, start: nat, history: seq<T>, limit: nat)
    requires Holds(log, history) && SeesAll(client, start, history)
    ensures SeesAll(Polls(client, Respond(log, client.cursor, limit)), start, history)
  {
    hide Respond, InOrder, Covers, Between;
    RespondIs(log, history, client.cursor, limit);
    var r := Respond(log, client.cursor, limit);
    var from := Max(client.cursor, log.droppedBefore);
    NothingBetween(from);
    if from <= |history| {
      assert Numbered(r.deltas, from, history);
      OrderGoesOn(client.received, client.cursor, r.deltas, from, history);
      CoverGoesOn(client.received, client.lost, start, client.cursor, r.deltas, from, history);
    } else {
      assert client.received + [] == client.received && client.lost + {} == client.lost;
      assert Polls(client, r) == client;
    }
  }

  lemma NothingBetween(from: nat)
    ensures Between(from, from) == {}
  {
  }

  lemma OrderGoesOn<T>(received: seq<Delta<T>>, cursor: nat, more: seq<Delta<T>>, from: nat, history: seq<T>)
    requires InOrder(received, cursor, history) && cursor <= from && from + |more| <= |history|
    requires Numbered(more, from, history)
    ensures InOrder(received + more, from + |more|, history)
  {
  }

  lemma CoverGoesOn<T>(
    received: seq<Delta<T>>, lost: set<nat>, start: nat, cursor: nat, more: seq<Delta<T>>, from: nat, history: seq<T>)
    requires Covers(received, lost, start, cursor) && cursor <= from && from + |more| <= |history|
    requires Numbered(more, from, history)
    ensures Covers(received + more, lost + Between(cursor, from), start, from + |more|)
  {
    hide Numbered, CursorsOf, Between;
    CursorsOfNumbered(more, from, history);
    CursorsConcat(received, more);
    BetweenSplits(start, cursor, from);
    BetweenSplits(start, from, from + |more|);
  }

  lemma CursorsOfNumbered<T>(deltas: seq<Delta<T>>, from: nat, history: seq<T>)
    requires from + |deltas| <= |history| && Numbered(deltas, from, history)
    ensures CursorsOf(deltas) == Between(from, from + |deltas|)
  {
    forall k | k in Between(from, from + |deltas|)
      ensures k in CursorsOf(deltas)
    {
      assert deltas[k - from - 1].cursor == k;
    }
  }

  lemma CursorsConcat<T>(a: seq<Delta<T>>, b: seq<Delta<T>>)
    ensures CursorsOf(a + b) == CursorsOf(a) + CursorsOf(b)
  {
    forall i | 0 <= i < |b|
      ensures b[i].cursor in CursorsOf(a + b)
    {
      assert (a + b)[|a| + i] == b[i];
    }
    forall i | 0 <= i < |a|
      ensures a[i].cursor in CursorsOf(a + b)
    {
      assert (a + b)[i] == a[i];
    }
  }

  lemma BetweenSplits(a: nat, b: nat, c: nat)
    requires a <= b <= c
    ensures Between(a, c) == Between(a, b) + Between(b, c) && Between(a, b) !! Between(b, c)
  {
  }

  /**
   However pushes and polls are interleaved, the client goes on to see every delta
   once and in order, or is told which it missed.
   */
  lemma {:induction false} ClientSeesAll<T>(
    log: Log<T>, client: Client<T>, start: nat, history: seq<T>, events: seq<Event<T>>)
    requires Holds(log, history) && SeesAll(client, start, history)
    ensures var (log', client') := Run(log, client, events);
            Holds(log', history + PushedIn(events)) && SeesAll(client', start, history + PushedIn(events))
    decreases |events|
  {
    hide *;
    FirstEvent(log, client, history, events);
    if events != [] {
      if events[0].Pushed? {
        PushHolds(log, history, events[0].payload);
        MoreIsSeen(client, start, history, events[0].payload);
        ClientSeesAll(Push(log, events[0].payload), client, start, history + [events[0].payload], events[1..]);
      } else {
        PollSeesAll(log, client, start, history, events[0].limit);
        ClientSeesAll(log, Polls(client, Respond(log, client.cursor, events[0].limit)), start, history, events[1..]);
      }
    }
  }

  lemma {:induction false} FirstEvent<T>(log: Log<T>, client: Client<T>, history: seq<T>, events: seq<Event<T>>)
    ensures if events == [] then Run(log, client, events) == (log, client) && history + PushedIn(events) == history
            else if events[0].Pushed? then
              && Run(log, client, events) == Run(Push(log, events[0].payload), client, events[1..])
              && history + PushedIn(events) == history + [events[0].payload] + PushedIn(events[1..])
            else
              && Run(log, client, events)
                 == Run(log, Polls(client, Respond(log, client.cursor, events[0].limit)), events[1..])
              && history + PushedIn(events) == history + PushedIn(events[1..])
  {
    hide Push, Respond, Polls;
    if events != [] {
      var rest := PushedIn(events[1..]);
      if events[0].Pushed? {
        assert history + ([events[0].payload] + rest) == history + [events[0].payload] + rest;
      } else {
        assert [] + rest == rest;
      }
    }
  }

  lemma MoreIsSeen<T>(client: Client<T>, start: nat, history: seq<T>, payload: T)
    requires SeesAll(client, start, history)
    ensures SeesAll(client, start, history + [payload])
  {
    hide CursorsOf, Between;
  }

  /** A new log holds nothing yet, and has room for as many deltas as asked, but at least one. */
  lemma NewLogHolds<T>(capacity: nat)
    ensures Holds(NewLog<T>(capacity), []) && NewLog<T>(capacity).capacity == if capacity == 0 then 1 else capacity
  {
  }

  /** A new client of a new log. */
  lemma EveryClientSeesAll<T>(capacity: nat, events: seq<Event<T>>)
    ensures var (log, client) := Run(NewLog(capacity), Client(0, [], {}), events);
            && Holds(log, PushedIn(events)) && SeesAll(client, 0, PushedIn(events))
  {
    hide Run, PushedIn;
    var log: Log<T>, client: Client<T> := NewLog(capacity), Client(0, [], {});
    assert CursorsOf(client.received) == {} && Between(0, 0) == {};
    ClientSeesAll(log, client, 0, [], events);
    assert [] + PushedIn(events) == PushedIn(events);
  }

  // ---------------------------------------------------------------------
  // What a client is never told

  /** What the client's cursor has passed since it started, and it has neither got nor been told of. */
  function Skipped<T>(client: Client<T>, start: nat, history: seq<T>, now: seq<T>): set<nat> {
    Between(Min(start, |history|), Min(client.cursor, |now|)) - CursorsOf(client.received) - client.lost
  }

  /**
   A client that starts with any cursor on any log: what it is never told of is
   exactly what is pushed up to that cursor. So it is told of all it does not get,
   if and only if it starts no further than the latest delta or nothing is pushed.
   */
  lemma SkippedExactly<T>(log: Log<T>, history: seq<T>, start: nat, events: seq<Event<T>>)
    requires Holds(log, history)
    ensures var (log', client) := Run(log, Client(start, [], {}), events);
            var now := history + PushedIn(events);
            && Holds(log', now) && SeesAll(client, start, now)
            && Skipped(client, start, history, now) == Between(|history|, Min(start, |now|))
            && (Skipped(client, start, history, now) == {} <==> start <= |history| || PushedIn(events) == [])
  {
    hide Run, PushedIn, Holds, CursorsOf, InOrder;
    var client: Client<T> := Client(start, [], {});
    NothingSeen(client, start, history);
    ClientSeesAll(log, client, start, history, events);
    var now := history + PushedIn(events);
    if start > |history| && |now| > |history| {
      assert |history| + 1 in Between(|history|, Min(start, |now|));
    }
  }

  lemma NothingSeen<T>(client: Client<T>, start: nat, history: seq<T>)
    requires client == Client(start, [], {})
    ensures SeesAll(client, start, history)
  {
    hide Between;
    NothingBetween(start);
    assert CursorsOf(client.received) == {};
  }

  /** A client that kept its cursor while the server began anew: the one delta there is comes by unseen and unreported. */
  lemma RestartIsNotNoticed<T>(payload: T)
    ensures var log := Push(NewLog(8), payload);
            var r := Respond(log, 5, 10);
            Holds(log, [payload]) && r.deltas == [] && !r.missed && r.nextCursor == 5
  {
    assert [] + [payload] == [payload];
    PushHolds(NewLog(8), [], payload);
    RespondIs(Push(NewLog(8), payload), [payload], 5, 10);
  }
}
