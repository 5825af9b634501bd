/** The framer of Http1Framer as the program has it: fields updated in place by loops. */
module Http1Parser {
  import opened Bytes
  import opened Http1Framer
  import Chunked = ChunkedBody
  import F = Http1Framer

  class Http1DirectionState {
    var buffer: seq<byte>
    var bufferStart: nat
    var nextLogical: nat
    var nextOrdinal: nat
    var pending: Option<Pending>

    function State(): State
      reads this
    {
      F.State(buffer, bufferStart, nextLogical, nextOrdinal, pending)
    }

    constructor ()
      ensures State() == INITIAL
    {
      buffer, bufferStart, nextLogical, nextOrdinal, pending := [], 0, 0, 0, None;
    }

    method Push(ctx: Context, bytes: seq<byte>) returns (messages: seq<Message>)
      modifies this
      ensures Outcome(State(), messages) == F.Push(ctx, old(State()), bytes)
    {
      hide F.AppendInput;
      messages := [];
      if bytes == [] {
        return;
      }
      var input, inputStart: nat := bytes, nextLogical;
      nextLogical := nextLogical + |bytes|;
      while input != []
        invariant var rest := Feed(ctx, State(), input, inputStart);
                  Outcome(rest.state, messages + rest.emitted) == F.Push(ctx, old(State()), bytes)
        decreases |input|, pending.Some?
      {
        if pending.Some? {
          var consumed := Min(pending.value.remaining, |input|);
          var p := pending.value.(remaining := pending.value.remaining - consumed);
          pending := Some(p);
          input, inputStart := input[consumed..], inputStart + consumed;
          if p.remaining == 0 {
            pending := None;
            ghost var rest := Feed(ctx, State(), input, inputStart).emitted;
            assert messages + ([CompletePending(p)] + rest) == messages + [CompletePending(p)] + rest;
            messages := messages + [CompletePending(p)];
            continue;
          }
          break;
        }
        var more := AppendInput(ctx, input, inputStart);
        messages := messages + more;
        break;
      }
    }

    method AppendInput(ctx: Context, input: seq<byte>, inputStart: nat) returns (messages: seq<Message>)
      modifies this
      ensures Outcome(State(), messages) == F.AppendInput(ctx, old(State()), input, inputStart)
    {
      messages := [];
      if buffer != [] {
        buffer := buffer + input;
      } else {
        var start := FindHttpStart(input, 0);
        if start == None {
          return;
        }
        buffer, bufferStart := input[start.value..], inputStart + start.value;
      }
      messages := ParseBuffer(ctx);
    }

    method ParseBuffer(ctx: Context) returns (messages: seq<Message>)
      modifies this
      ensures Outcome(State(), messages) == F.ParseBuffer(ctx, old(State()))
    {
      hide Chunked.HeaderEnd, LooksLikeHttpPrefix, HeadTurn, ErrorMessage, F.ResyncOrClear, F.DrainFront, F.ClearBuffer;
      messages := [];
      while buffer != []
        invariant var rest := F.ParseBuffer(ctx, State());
                  Outcome(rest.state, messages + rest.emitted) == F.ParseBuffer(ctx, old(State()))
        decreases |buffer|
      {
        ghost var before := State();
        if !LooksLikeHttpPrefix(buffer) {
          ResyncOrClear();
          continue;
        }
        if |buffer| > ctx.maxBufferBytes {
          var error := ParseError("http message exceeded parser buffer limit");
          messages := messages + [error];
          ClearBuffer();
          return;
        }
        var cut := Chunked.HeaderEnd(buffer, 0);
        if cut == None {
          if |buffer| > ctx.maxHeaderBytes {
            var error := ParseError("http header exceeded parser limit");
            messages := messages + [error];
            ClearBuffer();
          }
          return;
        }
        var parsed := ctx.parseHead(buffer[..cut.value.len]);
        if parsed.BadHead? {
          var error := ParseError(parsed.reason);
          messages := messages + [error];
          DrainFront(cut.value.total);
          continue;
        }
        var more, again := TakeMessage(cut.value, parsed.head);
        messages := messages + more;
        if !again {
          return;
        }
      }
    }

    /** The part of a turn that follows a whole head. */
    method TakeMessage(cut: Chunked.Cut, head: Head) returns (messages: seq<Message>, again: bool)
      requires 0 <= cut.len < cut.total <= |buffer|
      modifies this
      ensures Turn(State(), messages, again) == HeadTurn(old(State()), cut, head)
    {
      hide Chunked.Scan, ErrorMessage, F.DrainFront, BuildMessage, FixContext, FramingOf;
      hide ContentLengthBody, ChunkedBodyOf;
      var bodyStart := bufferStart + cut.total;
      var consumed, message;
      match FramingOf(head) {
        case NoBody =>
          consumed := cut.total;
          message := BuildMessage(nextOrdinal, head, bufferStart, bodyStart, 0);
        case ContentLength(len) =>
          var available := |buffer| - cut.total;
          var info := head.info.(body := ContentLengthBody(head.info, len));
          if len > available {
            var p := Pending(nextOrdinal, head.kind, head.summary, bufferStart, bodyStart, bodyStart,
                             len, len - available, info);
            nextOrdinal := nextOrdinal + 1;
            ClearBuffer();
            pending := Some(p);
            return [], false;
          }
          consumed := cut.total + len;
          message := BuildMessage(nextOrdinal, head.(info := info), bufferStart, bodyStart, len);
        case ChunkedCoding =>
          var end := Chunked.FindChunkedBodyEnd(buffer[cut.total..]);
          if end.Incomplete? {
            return [], false;
          }
          if end.Invalid? {
            var error := ParseError(ScanReason(end.reason));
            DrainFront(cut.total);
            return [error], true;
          }
          consumed := cut.total + end.info.wireBytes;
          var info := head.info.(body := ChunkedBodyOf(head.info, end.info));
          message := BuildMessage(nextOrdinal, head.(info := info), bufferStart, bodyStart, end.info.wireBytes);
      }
      nextOrdinal := nextOrdinal + 1;
      message := FixContext(message, consumed);
      DrainFront(consumed);
      return [message], true;
    }

    method ParseError(reason: string) returns (message: Message)
      modifies this`nextOrdinal
      ensures message == ErrorMessage(old(State()), reason) && State() == Bump(old(State()))
    {
      message := ErrorMessage(State(), reason);
      nextOrdinal := nextOrdinal + 1;
    }

    method ResyncOrClear()
      modifies this`buffer, this`bufferStart
      ensures State() == F.ResyncOrClear(old(State()))
    {
      var offset := FindHttpStart(buffer, 1);
      if offset.Some? {
        DrainFront(offset.value);
      } else {
        ClearBuffer();
      }
    }

    method DrainFront(count: nat)
      modifies this`buffer, this`bufferStart
      ensures State() == F.DrainFront(old(State()), count)
    {
      if count >= |buffer| {
        ClearBuffer();
        return;
      }
      buffer, bufferStart := buffer[count..], bufferStart + count;
    }

    method ClearBuffer()
      modifies this`buffer, this`bufferStart
      ensures State() == F.ClearBuffer(old(State()))
    {
      buffer, bufferStart := [], nextLogical;
    }
  }
}
