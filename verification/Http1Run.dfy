/** What every run of the HTTP/1 framer keeps, whatever bytes arrive and however they are cut. */
module Http1Run {
  import opened Bytes
  import opened Http1Framer
  import Chunked = ChunkedBody

  /** Where the bytes not yet in an emitted message start. */
  function Frontier(st: State): nat {
    if st.pending.Some? then st.pending.value.logicalStart
    else if st.buffer != [] then st.bufferStart
    else st.nextLogical
  }

  /** `at` bytes have arrived; the buffer ends there, and so does the arrived part of a pending body. */
  predicate Consistent(st: State, at: nat) {
    && (st.buffer != [] ==> st.bufferStart + |st.buffer| == at)
    && (st.pending.Some? ==>
          var p := st.pending.value;
          && st.buffer == []
          && p.logicalStart < p.headerEnd == p.bodyStart
          && 0 < p.remaining <= p.bodyLen
          && p.bodyStart + p.bodyLen == at + p.remaining)
  }

  /** The ranges of a complete message: a head, then a body, and nothing else. */
  predicate Framed(m: Message) {
    && m.headerStart == Some(m.logicalStart) && m.bodyEnd == Some(m.logicalEnd)
    && m.headerEnd == m.bodyStart && m.headerEnd.Some?
    && m.logicalStart < m.headerEnd.value <= m.logicalEnd
    && m.headerBytes == m.headerEnd.value - m.logicalStart
    && m.bodyBytes == m.logicalEnd - m.headerEnd.value
    && m.headerBytes + m.bodyBytes == m.wireBytes == m.logicalEnd - m.logicalStart
  }

  /** An error covers the bytes that were buffered, all of them as a head. */
  predicate Reported(m: Message) {
    && m.kind.Unknown? && m.logicalStart <= m.logicalEnd
    && m.headerStart == Some(m.logicalStart) && m.headerEnd == Some(m.logicalEnd)
    && m.bodyStart.None? && m.bodyEnd.None? && m.bodyBytes == 0
    && m.headerBytes == m.wireBytes == m.logicalEnd - m.logicalStart
    && m.http.None? && m.error.Some?
  }

  predicate MessageOk(m: Message, frontier: nat, arrived: nat) {
    && m.logicalEnd <= arrived
    && (if m.status.Complete? then Framed(m) && m.logicalEnd <= frontier else Reported(m))
  }

  /** The log of a run that has reached `st`, `frontier` being where unread bytes start. */
  predicate LogOk(log: seq<Message>, st: State, frontier: nat) {
    && st.nextOrdinal == |log| + (if st.pending.Some? then 1 else 0)
    && (st.pending.Some? ==> st.pending.value.ordinal == |log|)
    && (forall i :: 0 <= i < |log| ==> log[i].ordinal == i)
    && (forall i :: 0 <= i < |log| ==> MessageOk(log[i], frontier, st.nextLogical))
    && (forall i, j :: 0 <= i < j < |log| && log[i].status.Complete? ==> log[i].logicalEnd <= log[j].logicalStart)
  }

  lemma LogGrows(log: seq<Message>, st: State, frontier: nat, m: Message, st': State, frontier': nat)
    requires LogOk(log, st, frontier) && m.ordinal == |log|
    requires st'.pending == None && st'.nextOrdinal == |log| + 1 && st'.nextLogical == st.nextLogical
    requires frontier <= frontier' && MessageOk(m, frontier', st.nextLogical)
    requires frontier <= m.logicalStart
    ensures LogOk(log + [m], st', frontier')
  {
  }

  lemma TurnKeeps(ctx: Context, st: State, log: seq<Message>)
    requires st.buffer != [] && st.pending == None
    requires Consistent(st, st.nextLogical) && LogOk(log, st, Frontier(st))
    ensures var t := ParseTurn(ctx, st);
            && t.state.nextLogical == st.nextLogical
            && (t.again ==> t.state.pending == None)
            && Consistent(t.state, st.nextLogical) && LogOk(log + t.emitted, t.state, Frontier(t.state))
  {
    hide LogOk, MessageOk;
    var t := ParseTurn(ctx, st);
    assert log + [] == log;
    if |t.emitted| == 0 {
      QuietTurnKeeps(ctx, st, log);
    } else {
      LoudTurnKeeps(ctx, st, log);
    }
  }

  lemma QuietTurnKeeps(ctx: Context, st: State, log: seq<Message>)
    requires st.buffer != [] && st.pending == None && ParseTurn(ctx, st).emitted == []
    requires Consistent(st, st.nextLogical) && LogOk(log, st, Frontier(st))
    ensures var t := ParseTurn(ctx, st);
            && t.state.nextLogical == st.nextLogical
            && (t.again ==> t.state.pending == None)
            && Consistent(t.state, st.nextLogical) && LogOk(log, t.state, Frontier(t.state))
  {
    hide Chunked.HeaderEnd, LooksLikeHttpPrefix, Chunked.Scan, FramingOf, ContentLengthBody, ChunkedBodyOf;
    hide ErrorMessage, FixContext, BuildMessage;
  }

  /** A turn that emits emits one message, with the next ordinal, of bytes the buffer held. */
  predicate Loud(st: State, t: Turn) {
    && |t.emitted| == 1 && t.emitted[0].ordinal == st.nextOrdinal
    && t.state.nextLogical == st.nextLogical && t.state.pending == None
    && t.state.nextOrdinal == st.nextOrdinal + 1
    && Consistent(t.state, st.nextLogical) && st.bufferStart <= Frontier(t.state)
    && MessageOk(t.emitted[0], Frontier(t.state), st.nextLogical)
    && t.emitted[0].logicalStart == st.bufferStart
  }

  lemma BuiltTurnIsLoud(st: State, head: Head, total: nat, bodyLen: nat)
    requires st.pending == None && 0 < total && total + bodyLen <= |st.buffer| && Consistent(st, st.nextLogical)
    ensures var m := BuildMessage(st.nextOrdinal, head, st.bufferStart, st.bufferStart + total, bodyLen);
            Loud(st, Turn(DrainFront(Bump(st), total + bodyLen), [FixContext(m, total + bodyLen)], true))
  {
    FixContextIsRedundant(st.nextOrdinal, head, st.bufferStart, st.bufferStart + total, bodyLen, total + bodyLen);
  }

  lemma ErrorTurnIsLoud(st: State, reason: string, count: nat, again: bool)
    requires st.buffer != [] && st.pending == None && Consistent(st, st.nextLogical)
    ensures Loud(st, Turn(DrainFront(Bump(st), count), [ErrorMessage(st, reason)], again))
    ensures Loud(st, Turn(ClearBuffer(Bump(st)), [ErrorMessage(st, reason)], again))
  {
  }

  lemma LoudTurnFacts(ctx: Context, st: State)
    requires st.buffer != [] && st.pending == None && ParseTurn(ctx, st).emitted != []
    requires Consistent(st, st.nextLogical)
    ensures Loud(st, ParseTurn(ctx, st))
  {
    hide Chunked.HeaderEnd, LooksLikeHttpPrefix, Chunked.Scan, FramingOf, ContentLengthBody, ChunkedBodyOf;
    hide ErrorMessage, FixContext, BuildMessage, DrainFront, ClearBuffer, Loud, ResyncOrClear;
    ErrorTurnIsLoud(st, "http message exceeded parser buffer limit", 0, false);
    ErrorTurnIsLoud(st, "http header exceeded parser limit", 0, false);
    var end := Chunked.HeaderEnd(st.buffer, 0);
    if end.Some? {
      var cut := end.value;
      match ctx.parseHead(st.buffer[..cut.len])
      case BadHead(reason) => ErrorTurnIsLoud(st, reason, cut.total, true);
      case GoodHead(head) => HeadTurnFacts(st, cut, head);
    }
  }

  lemma HeadTurnFacts(st: State, cut: Chunked.Cut, head: Head)
    requires 0 <= cut.len < cut.total <= |st.buffer| && st.pending == None && Consistent(st, st.nextLogical)
    ensures HeadTurn(st, cut, head).emitted != [] ==> Loud(st, HeadTurn(st, cut, head))
  {
    hide Chunked.Scan, FramingOf, ContentLengthBody, ChunkedBodyOf;
    hide ErrorMessage, FixContext, BuildMessage, DrainFront, ClearBuffer, Loud;
    match FramingOf(head)
    case NoBody => BuiltTurnIsLoud(st, head, cut.total, 0);
    case ContentLength(len) =>
      if len <= |st.buffer| - cut.total {
        var info := head.info.(body := ContentLengthBody(head.info, len));
        BuiltTurnIsLoud(st, head.(info := info), cut.total, len);
      }
    case ChunkedCoding =>
      match Chunked.Scan(st.buffer[cut.total..])
      case Incomplete =>
      case Invalid(reason) => ErrorTurnIsLoud(st, ScanReason(reason), cut.total, true);
      case Complete(body) =>
        var info := head.info.(body := ChunkedBodyOf(head.info, body));
        BuiltTurnIsLoud(st, head.(info := info), cut.total, body.wireBytes);
  }

  lemma LoudTurnKeeps(ctx: Context, st: State, log: seq<Message>)
    requires st.buffer != [] && st.pending == None && ParseTurn(ctx, st).emitted != []
    requires Consistent(st, st.nextLogical) && LogOk(log, st, Frontier(st))
    ensures var t := ParseTurn(ctx, st);
            && t.state.nextLogical == st.nextLogical
            && (t.again ==> t.state.pending == None)
            && Consistent(t.state, st.nextLogical) && LogOk(log + t.emitted, t.state, Frontier(t.state))
  {
    hide ParseTurn, MessageOk, Consistent;
    LoudTurnFacts(ctx, st);
    var t := ParseTurn(ctx, st);
    assert t.emitted == [t.emitted[0]];
    LogGrows(log, st, Frontier(st), t.emitted[0], t.state, Frontier(t.state));
  }

  lemma {:induction false} ParseBufferKeeps(ctx: Context, st: State, log: seq<Message>)
    requires st.pending == None && Consistent(st, st.nextLogical) && LogOk(log, st, Frontier(st))
    ensures var r := ParseBuffer(ctx, st);
            && r.state.nextLogical == st.nextLogical
            && Consistent(r.state, st.nextLogical) && LogOk(log + r.emitted, r.state, Frontier(r.state))
    decreases |st.buffer|
  {
    hide ParseTurn, LogOk, Consistent, Frontier;
    assert log + [] == log;
    if st.buffer != [] {
      var t := ParseTurn(ctx, st);
      TurnKeeps(ctx, st, log);
      if t.again {
        ParseBufferKeeps(ctx, t.state, log + t.emitted);
        assert log + (t.emitted + ParseBuffer(ctx, t.state).emitted)
            == log + t.emitted + ParseBuffer(ctx, t.state).emitted;
      }
    }
  }

  /**
   Feeding keeps the run's promises. The state already counts the bytes of
   `input` as arrived, so between pieces `at`, not `nextLogical`, is where it is.
   */
  lemma {:induction false} FeedKeeps(ctx: Context, st: State, input: seq<byte>, at: nat, log: seq<Message>)
    requires st.nextLogical == at + |input| && Consistent(st, at)
    requires LogOk(log, st, Frontier(st.(nextLogical := at)))
    ensures var r := Feed(ctx, st, input, at);
            && r.state.nextLogical == st.nextLogical
            && Consistent(r.state, r.state.nextLogical) && LogOk(log + r.emitted, r.state, Frontier(r.state))
    decreases |input|, st.pending.Some?
  {
    hide ParseBuffer, FindHttpStart;
    assert log + [] == log;
    if input != [] {
      if st.pending == None {
        if !(st.buffer == [] && FindHttpStart(input, 0) == None) {
          ParseBufferKeeps(ctx, Buffered(st, input, at), log);
        }
      } else {
        var p := st.pending.value;
        var consumed := Min(p.remaining, |input|);
        if consumed == p.remaining {
          var next := st.(pending := None);
          var done := CompletePending(p);
          LogGrowsByPending(log, st, p, at, next);
          FeedKeeps(ctx, next, input[consumed..], at + consumed, log + [done]);
          var rest := Feed(ctx, next, input[consumed..], at + consumed).emitted;
          assert log + ([done] + rest) == log + [done] + rest;
        }
      }
    }
  }

  lemma LogGrowsByPending(log: seq<Message>, st: State, p: Pending, at: nat, next: State)
    requires st.pending == Some(p) && next == st.(pending := None) && Consistent(st, at)
    requires at + p.remaining <= st.nextLogical && LogOk(log, st, p.logicalStart)
    ensures LogOk(log + [CompletePending(p)], next, at + p.remaining)
  {
  }

  lemma PushKeeps(ctx: Context, st: State, bytes: seq<byte>, log: seq<Message>)
    requires Consistent(st, st.nextLogical) && LogOk(log, st, Frontier(st))
    ensures var r := Push(ctx, st, bytes);
            && r.state.nextLogical == st.nextLogical + |bytes|
            && Consistent(r.state, r.state.nextLogical) && LogOk(log + r.emitted, r.state, Frontier(r.state))
  {
    hide Feed;
    FeedKeeps(ctx, st.(nextLogical := st.nextLogical + |bytes|), bytes, st.nextLogical, log);
  }

  lemma {:induction false} PushAllKeeps(ctx: Context, st: State, pieces: seq<seq<byte>>, log: seq<Message>)
    requires Consistent(st, st.nextLogical) && LogOk(log, st, Frontier(st))
    ensures var r := PushAll(ctx, st, pieces);
            Consistent(r.state, r.state.nextLogical) && LogOk(log + r.emitted, r.state, Frontier(r.state))
    decreases |pieces|
  {
    hide Push, LogOk, Consistent, Frontier;
    assert log + [] == log;
    if pieces != [] {
      var first := Push(ctx, st, pieces[0]);
      PushKeeps(ctx, st, pieces[0], log);
      PushAllKeeps(ctx, first.state, pieces[1..], log + first.emitted);
      var rest := PushAll(ctx, first.state, pieces[1..]).emitted;
      assert log + (first.emitted + rest) == log + first.emitted + rest;
    }
  }

  /**
   Over any run: ordinals count the messages from zero, complete messages are a
   head and a body on disjoint increasing ranges of the bytes that arrived, an error
   covers bytes behind the complete messages before it, and the buffer and the
   pending body end where the arrived bytes end.
   */
  lemma RunInvariant(ctx: Context, pieces: seq<seq<byte>>)
    ensures var r := PushAll(ctx, INITIAL, pieces);
            Consistent(r.state, r.state.nextLogical) && LogOk(r.emitted, r.state, Frontier(r.state))
  {
    hide PushAll;
    PushAllKeeps(ctx, INITIAL, pieces, []);
    var r := PushAll(ctx, INITIAL, pieces);
    assert [] + r.emitted == r.emitted;
  }
}
