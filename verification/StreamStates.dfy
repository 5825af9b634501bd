/**
 The tables that keep one framer for each stream direction, and many streams fed
 through them in any order.
 */
module StreamStates {
  import opened Bytes
  import opened OldestFirst
  import Http1Framer
  import Http1Splits
  import RecordFramer
  import WireFrames

  /** A framer: its state before any input, and what one input does to it. */
  datatype Framer<!S, !I, M> = Framer(initial: S, step: (S, I) -> (S, seq<M>))

  datatype Tagged<K, M> = Tagged(key: K, message: M)

  /** What feeding one input of a stream does: the table after it, the messages, and whether it was dropped. */
  datatype Fed<K, S, M> = Fed(table: Table<K, S>, messages: seq<M>, dropped: bool)

  function StateFor<K(==), S>(t: Table<K, S>, key: K, initial: S): Table<K, S> {
    if key in t.entries then t else Install(t, key, initial)
  }

  function Feed<K(==), S, I, M>(t: Table<K, S>, key: K, input: I, f: Framer<S, I, M>): Fed<K, S, M> {
    var ready := StateFor(t, key, f.initial);
    if key !in ready.entries then Fed(ready, [], true)
    else
      var (state, messages) := f.step(ready.entries[key], input);
      Fed(Update(ready, key, state), messages, false)
  }

  /** An input of a stream. */
  datatype Piece<K, I> = Piece(key: K, input: I)

  function Tag<K, M>(key: K, messages: seq<M>): (r: seq<Tagged<K, M>>)
    ensures |r| == |messages|
  {
    seq(|messages|, i requires 0 <= i < |messages| => Tagged(key, messages[i]))
  }

  function Run<K(==), S, I, M>(t: Table<K, S>, pieces: seq<Piece<K, I>>, f: Framer<S, I, M>): (Table<K, S>, seq<Tagged<K, M>>)
    decreases |pieces|
  {
    if pieces == [] then (t, [])
    else
      var fed := Feed(t, pieces[0].key, pieces[0].input, f);
      var rest := Run(fed.table, pieces[1..], f);
      (rest.0, Tag(pieces[0].key, fed.messages) + rest.1)
  }

  /** One stream's framer on that stream's inputs alone. */
  function Alone<S, I, M>(state: S, inputs: seq<I>, f: Framer<S, I, M>): (S, seq<M>)
    decreases |inputs|
  {
    if inputs == [] then (state, [])
    else
      var (next, messages) := f.step(state, inputs[0]);
      var rest := Alone(next, inputs[1..], f);
      (rest.0, messages + rest.1)
  }

  function InputsOf<K(==), I>(pieces: seq<Piece<K, I>>, key: K): seq<I> {
    if pieces == [] then []
    else if pieces[0].key == key then [pieces[0].input] + InputsOf(pieces[1..], key)
    else InputsOf(pieces[1..], key)
  }

  function MessagesOf<K(==), M>(all: seq<Tagged<K, M>>, key: K): seq<M> {
    if all == [] then []
    else if all[0].key == key then [all[0].message] + MessagesOf(all[1..], key)
    else MessagesOf(all[1..], key)
  }

  /** The state of a stream, or the one it would start with. */
  function StateOf<K(==), S>(t: Table<K, S>, key: K, initial: S): S {
    if key in t.entries then t.entries[key] else initial
  }

  /** The streams of some inputs in their order, which is all that the queue of states depends on. */
  function UsesOf<K, I>(pieces: seq<Piece<K, I>>): (r: seq<Option<K>>)
    ensures |r| == |pieces|
  {
    seq(|pieces|, i requires 0 <= i < |pieces| => Some(pieces[i].key))
  }

  /** No input of the stream comes after the state that its earlier ones left was evicted. */
  predicate NeverBack<K(==), S, I>(t: Table<K, S>, pieces: seq<Piece<K, I>>, key: K) {
    !ComesBack(t.order, t.max, UsesOf(pieces), key, key in t.entries)
  }

  /** No input is dropped, the stream's own framer takes it, and no other framer that stays is changed. */
  lemma FeedIsOwn<K, S, I, M>(t: Table<K, S>, key: K, input: I, f: Framer<S, I, M>)
    requires Valid(t)
    ensures var fed := Feed(t, key, input, f);
            && Valid(fed.table) && !fed.dropped && key in fed.table.entries
            && (fed.table.entries[key], fed.messages) == f.step(StateOf(t, key, f.initial), input)
            && (forall other :: other in fed.table.entries && other != key ==>
                  other in t.entries && fed.table.entries[other] == t.entries[other])
            && (forall other :: other in t.entries && other !in fed.table.entries ==>
                  key !in t.entries && |t.order| == t.max && other == t.order[0])
            && fed.table.order == NextQueue(t.order, t.max, Some(key)) && fed.table.max == t.max
  {
    hide Valid, Install;
    QueueHolds(t, key);
    if key !in t.entries {
      InstallNew(t, key, f.initial);
    }
    var ready := StateFor(t, key, f.initial);
    UpdateKeeps(ready, key, f.step(ready.entries[key], input).0);
  }

  lemma {:induction false} MessagesOfConcat<K, M>(a: seq<Tagged<K, M>>, b: seq<Tagged<K, M>>, key: K)
    ensures MessagesOf(a + b, key) == MessagesOf(a, key) + MessagesOf(b, key)
  {
    if a == [] {
      assert a + b == b;
    } else {
      assert (a + b)[1..] == a[1..] + b;
      MessagesOfConcat(a[1..], b, key);
    }
  }

  lemma {:induction false} MessagesOfTag<K, M>(tag: K, messages: seq<M>, key: K)
    ensures MessagesOf(Tag(tag, messages), key) == if tag == key then messages else []
  {
    if messages != [] {
      assert Tag(tag, messages)[1..] == Tag(tag, messages[1..]);
      MessagesOfTag(tag, messages[1..], key);
    }
  }

  /**
   However the inputs of many streams are interleaved, a stream of which no input
   comes after its state was evicted emits exactly the messages its own inputs alone
   would give, and leaves the same state as long as that is there.
   */
  lemma StreamsAreIndependent<K, S, I, M>(t: Table<K, S>, pieces: seq<Piece<K, I>>, f: Framer<S, I, M>, key: K)
    requires Valid(t) && NeverBack(t, pieces, key)
    ensures var (table, all) := Run(t, pieces, f);
            var alone := Alone(StateOf(t, key, f.initial), InputsOf(pieces, key), f);
            && MessagesOf(all, key) == alone.1 && Valid(table)
            && (key in table.entries ==> table.entries[key] == alone.0)
  {
    hide Valid, Run, Alone;
    RunIsOwn(t, pieces, f, key, StateOf(t, key, f.initial), key in t.entries);
  }

  /** The same from any point of a run; `seen` says whether inputs of the stream came before, and `state` what they left. */
  lemma {:induction false} RunIsOwn<K, S, I, M>(
    t: Table<K, S>, pieces: seq<Piece<K, I>>, f: Framer<S, I, M>, key: K, state: S, seen: bool)
    requires Valid(t) && !ComesBack(t.order, t.max, UsesOf(pieces), key, seen)
    requires if key in t.entries then seen && t.entries[key] == state else !seen ==> state == f.initial
    ensures var (table, all) := Run(t, pieces, f);
            var alone := Alone(state, InputsOf(pieces, key), f);
            && MessagesOf(all, key) == alone.1 && Valid(table)
            && (key in table.entries ==> table.entries[key] == alone.0)
    decreases |pieces|
  {
    if pieces != [] {
      hide Valid, Feed, MessagesOf, UsesOf, NextQueue;
      var piece := pieces[0];
      var fed := Feed(t, piece.key, piece.input, f);
      FeedIsOwn(t, piece.key, piece.input, f);
      QueueHolds(t, key);
      UsesFirst(pieces);
      var next := if piece.key == key then f.step(state, piece.input).0 else state;
      RunIsOwn(fed.table, pieces[1..], f, key, next, seen || piece.key == key);
      var rest := Run(fed.table, pieces[1..], f);
      MessagesOfConcat(Tag(piece.key, fed.messages), rest.1, key);
      MessagesOfTag(piece.key, fed.messages, key);
      if piece.key == key {
        OneMoreAlone(state, piece.input, InputsOf(pieces[1..], key), f);
      } else {
        assert [] + MessagesOf(rest.1, key) == MessagesOf(rest.1, key);
      }
    }
  }

  lemma UsesFirst<K, I>(pieces: seq<Piece<K, I>>)
    requires pieces != []
    ensures UsesOf(pieces) != [] && UsesOf(pieces)[0] == Some(pieces[0].key) && UsesOf(pieces)[1..] == UsesOf(pieces[1..])
  {
  }

  lemma OneMoreAlone<S, I, M>(state: S, input: I, later: seq<I>, f: Framer<S, I, M>)
    ensures var first := f.step(state, input);
            var rest := Alone(first.0, later, f);
            Alone(state, [input] + later, f) == (rest.0, first.1 + rest.1)
  {
    assert ([input] + later)[1..] == later;
  }

  /** The table as the program keeps it. */
  class StateTable<K(==, !new), S> {
    var states: map<K, S>
    var order: seq<K>
    const max: nat
    var evicted: nat

    constructor (max: nat)
      ensures Value() == NewTable(max) && Valid(Value())
    {
      states, order, evicted := map[], [], 0;
      this.max := Max(max, 1);
      new;
      assert Listed<K>([]) == {};
    }

    function Value(): Table<K, S>
      reads this
    {
      OldestFirst.Table(states, order, max, evicted)
    }

    /** Makes sure of the stream's state, for which there always is room in the end. */
    method Ensure(key: K, initial: S) returns (found: bool)
      requires Valid(Value())
      modifies this
      ensures Value() == StateFor(old(Value()), key, initial) && Valid(Value())
      ensures found && key in states
    {
      hide Valid, EvictFirst;
      if key in states {
        return true;
      }
      InstallNew(Value(), key, initial);
      while |states| >= max && order != []
        invariant EvictUntilRoom(Value()) == EvictUntilRoom(old(Value())) && Valid(Value())
        invariant key !in states
        decreases |order|
      {
        EvictOne();
      }
      if |states| >= max {
        return false;
      }
      states := states[key := initial];
      order := order + [key];
      return true;
    }

    /** Feeds one input to the framer of its stream. */
    method FeedTo<I, M>(key: K, input: I, f: Framer<S, I, M>) returns (messages: seq<M>)
      requires Valid(Value())
      modifies this
      ensures Valid(Value())
      ensures Value() == Feed(old(Value()), key, input, f).table && messages == Feed(old(Value()), key, input, f).messages
    {
      hide Valid, Install;
      FeedIsOwn(Value(), key, input, f);
      var found := Ensure(key, f.initial);
      if !found {
        return [];
      }
      var (state, emitted) := f.step(states[key], input);
      states := states[key := state];
      return emitted;
    }

    method EvictOne()
      requires Valid(Value()) && order != []
      modifies `states, `order, `evicted
      ensures Value() == EvictFirst(old(Value())) && Valid(Value())
      ensures |order| == |old(order)| - 1 && states.Keys <= old(states.Keys)
    {
      hide Valid;
      EvictFirstKeeps(Value());
      var oldest := order[0];
      order := order[1..];
      states := states - {oldest};
      evicted := evicted + 1;
    }
  }

  // ---------------------------------------------------------------------
  // The HTTP/1 framers, and those of records

  function Http1(ctx: Http1Framer.Context): Framer<Http1Framer.State, seq<byte>, Http1Framer.Message> {
    Framer(Http1Framer.INITIAL, (st, bytes) => var r := Http1Framer.Push(ctx, st, bytes); (r.state, r.emitted))
  }

  lemma {:induction false} Http1Alone(ctx: Http1Framer.Context, st: Http1Framer.State, pieces: seq<seq<byte>>)
    ensures var r := Http1Framer.PushAll(ctx, st, pieces);
            Alone(st, pieces, Http1(ctx)) == (r.state, r.emitted)
    decreases |pieces|
  {
    hide Http1Framer.Push;
    if pieces != [] {
      Http1Alone(ctx, Http1Framer.Push(ctx, st, pieces[0]).state, pieces[1..]);
    }
  }

  /**
   A stream of well-formed HTTP/1 messages, interleaved with any other streams and
   cut in any good way, yields exactly its messages.
   */
  lemma InterleavedHttp1<K>(
    ctx: Http1Framer.Context, max: nat, pieces: seq<Piece<K, seq<byte>>>, key: K, ms: seq<Http1Splits.Wire>)
    requires NeverBack<K, Http1Framer.State, seq<byte>>(NewTable(max), pieces, key) && Http1Splits.AllWellFormed(ctx, ms)
    requires var mine := Http1Splits.Concat(InputsOf(pieces, key));
             mine <= Http1Splits.Encode(ms) && Http1Splits.GoodRun(ctx, ms, 0, InputsOf(pieces, key))
    ensures var mine := Http1Splits.Concat(InputsOf(pieces, key));
            MessagesOf(Run(NewTable(max), pieces, Http1(ctx)).1, key)
            == Http1Splits.Canonical(ctx, ms, |mine|, 0, 0).emitted
  {
    hide NeverBack, Run, Http1Splits.AllWellFormed, Http1Splits.GoodRun, Http1Splits.Canonical, Http1Framer.PushAll, MessagesOf, Alone;
    NewIsValid<K, Http1Framer.State>(max);
    StreamsAreIndependent(NewTable(max), pieces, Http1(ctx), key);
    Http1Alone(ctx, Http1Framer.INITIAL, InputsOf(pieces, key));
    Http1Splits.SplitInvariance(ctx, ms, InputsOf(pieces, key));
  }

  lemma NewIsValid<K, V>(max: nat)
    ensures Valid<K, V>(NewTable(max))
  {
    assert Listed<K>([]) == {};
  }

  function Records(p: WireFrames.Protocol, maxBufferBytes: nat)
    : Framer<RecordFramer.State, seq<byte>, RecordFramer.Message>
  {
    Framer(RecordFramer.INITIAL,
           (st, bytes) => var r := RecordFramer.Push(p, st, bytes, maxBufferBytes); (r.state, r.emitted))
  }

  lemma {:induction false} RecordsAlone(
    p: WireFrames.Protocol, maxBufferBytes: nat, st: RecordFramer.State, pieces: seq<seq<byte>>)
    ensures var r := RecordFramer.PushAll(p, st, pieces, maxBufferBytes);
            Alone(st, pieces, Records(p, maxBufferBytes)) == (r.state, r.emitted)
    decreases |pieces|
  {
    hide RecordFramer.Push;
    if pieces != [] {
      RecordsAlone(p, maxBufferBytes, RecordFramer.Push(p, st, pieces[0], maxBufferBytes).state, pieces[1..]);
    }
  }

  /** The same for TLS and WebSocket streams: a stream of whole units yields the messages of those units. */
  lemma InterleavedRecords<K>(
    p: WireFrames.Protocol, maxBufferBytes: nat, max: nat, pieces: seq<Piece<K, seq<byte>>>, key: K)
    requires NeverBack<K, RecordFramer.State, seq<byte>>(NewTable(max), pieces, key)
    requires RecordFramer.Fits(p, [], InputsOf(pieces, key), maxBufferBytes)
    requires !RecordFramer.Broken(p, RecordFramer.Concat(InputsOf(pieces, key)))
    ensures MessagesOf(Run(NewTable(max), pieces, Records(p, maxBufferBytes)).1, key)
            == RecordFramer.Messages(RecordFramer.Units(p, RecordFramer.Concat(InputsOf(pieces, key))), 0, 0)
  {
    hide NeverBack, Run, RecordFramer.Fits, RecordFramer.Broken, RecordFramer.Units, RecordFramer.PushAll, MessagesOf, Alone,
         RecordFramer.StateAfter;
    NewIsValid<K, RecordFramer.State>(max);
    StreamsAreIndependent(NewTable(max), pieces, Records(p, maxBufferBytes), key);
    RecordsAlone(p, maxBufferBytes, RecordFramer.INITIAL, InputsOf(pieces, key));
    RecordFramer.SplitInvariance(p, InputsOf(pieces, key), maxBufferBytes);
  }
}
