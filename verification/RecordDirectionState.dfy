/** The framer of RecordFramer as the program has it, for either protocol. */
module RecordParser {
  import opened Bytes
  import opened WireFrames
  import opened RecordFramer
  import F = RecordFramer

  class RecordDirectionState {
    const protocol: Protocol
    var buffer: seq<byte>
    var bufferStart: nat
    var nextLogical: nat
    var nextOrdinal: nat

    function State(): State
      reads this
    {
      F.State(buffer, bufferStart, nextLogical, nextOrdinal)
    }

    constructor (protocol: Protocol)
      ensures this.protocol == protocol && State() == INITIAL
    {
      this.protocol := protocol;
      buffer, bufferStart, nextLogical, nextOrdinal := [], 0, 0, 0;
    }

    method Push(bytes: seq<byte>, maxBufferBytes: nat) returns (messages: seq<Message>)
      modifies this
      ensures Outcome(State(), messages) == F.Push(protocol, old(State()), bytes, maxBufferBytes)
    {
      hide CutAll, F.ErrorMessage;
      messages := [];
      if bytes == [] {
        return;
      }
      if buffer == [] {
        bufferStart := nextLogical;
      }
      nextLogical := nextLogical + |bytes|;
      buffer := buffer + bytes;
      if |buffer| > maxBufferBytes {
        var error := ParseError(OverflowReason(protocol));
        ClearBuffer();
        return [error];
      }
      messages := CutFrames();
    }

    /** The loop of `Push`, on a buffer that is within its limit. */
    method CutFrames() returns (messages: seq<Message>)
      modifies this
      ensures Outcome(State(), messages) == CutAll(protocol, old(State()))
    {
      hide Parse, FrameMessage, F.ErrorMessage, F.DrainFront, F.ClearBuffer;
      messages := [];
      while true
        invariant var rest := CutAll(protocol, State());
                  Outcome(rest.state, messages + rest.emitted) == CutAll(protocol, old(State()))
        decreases |buffer|
      {
        var parse := Parse(protocol, buffer);
        if parse.Incomplete? {
          break;
        }
        if parse.Invalid? {
          var error := ParseError(parse.reason);
          messages := messages + [error];
          ClearBuffer();
          break;
        }
        var message := FrameMessage(parse.frame, bufferStart, nextOrdinal);
        nextOrdinal := nextOrdinal + 1;
        DrainFront(parse.frame.totalLen);
        ghost var rest := CutAll(protocol, State()).emitted;
        assert messages + ([message] + rest) == messages + [message] + rest;
        messages := messages + [message];
        if buffer == [] {
          break;
        }
      }
    }

    method ParseError(reason: string) returns (message: Message)
      modifies this`nextOrdinal
      ensures message == F.ErrorMessage(old(State()), reason) && State() == Bump(old(State()))
    {
      message := F.ErrorMessage(State(), reason);
      nextOrdinal := nextOrdinal + 1;
    }

    method DrainFront(count: nat)
      modifies this`buffer, this`bufferStart
      ensures State() == F.DrainFront(old(State()), count)
      ensures count > 0 && |old(buffer)| > 0 ==> |buffer| < |old(buffer)|
    {
      if count >= |buffer| {
        ClearBuffer();
        return;
      }
      buffer, bufferStart := buffer[count..], bufferStart + count;
    }

    method ClearBuffer()
      modifies this`buffer, this`bufferStart
      ensures State() == F.ClearBuffer(old(State()))
    {
      buffer, bufferStart := [], nextLogical;
    }
  }
}
