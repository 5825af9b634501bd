/**
 The transform that puts fragmented WebSocket messages together again (sections
 5.3 and 5.4 of RFC 6455). Inflating a payload is a parameter, so the results
 hold for every decompressor.
 */
module WebSocketMessages {
  import opened Bytes
  import Frames = WireFrames
  import Chunked = ChunkedBody

  datatype Frame = Frame(fin: bool, opcode: byte, rsv1: bool, payload: seq<byte>)

  datatype FrameError = TruncatedHeader | TruncatedLengthOrMask | TruncatedPayload

  datatype NextFrame = End | Got(frame: Frame, next: nat) | Error(error: FrameError)

  /** The frame at `offset`, and where the next one starts. */
  function FrameAt(input: seq<byte>, offset: nat): (r: NextFrame)
    requires offset <= |input|
    ensures r.Got? ==> offset < r.next <= |input|
  {
    if offset == |input| then End
    else if |input| - offset < 2 then Error(TruncatedHeader)
    else
      var first, second := input[offset], input[offset + 1];
      var lengthEnd := offset + 2 + Frames.LengthBytes(second);
      if |input| < lengthEnd then Error(TruncatedLengthOrMask)
      else
        var len: nat := if Frames.LengthBytes(second) == 0 then second % 128
                        else Frames.BigEndian(input[offset + 2..lengthEnd]);
        var start := lengthEnd + Frames.MaskBytes(second);
        if |input| < start then Error(TruncatedLengthOrMask)
        else if |input| < start + len then Error(TruncatedPayload)
        else
          var mask := if Frames.MaskBytes(second) == 0 then None else Some(input[lengthEnd..start]);
          Got(Frame(first >= 128, first % 16, (first / 64) % 2 == 1,
                    Frames.Unmask(input[start..start + len], mask)), start + len)
  }

  class WebSocketParser {
    const input: seq<byte>
    var offset: nat

    constructor (input: seq<byte>)
      ensures this.input == input && offset == 0
    {
      this.input := input;
      offset := 0;
    }

    method Next() returns (r: NextFrame)
      requires offset <= |input|
      modifies this
      ensures offset <= |input|
      ensures r == FrameAt(input, old(offset))
      ensures r.Got? ==> offset == r.next
    {
      hide Frames.BigEndian, Frames.Unmask;
      if offset == |input| {
        return End;
      }
      if |input| - offset < 2 {
        return Error(TruncatedHeader);
      }
      var first, second := input[offset], input[offset + 1];
      offset := offset + 2;
      var len: nat := second % 128;
      if len == 126 {
        var bytes := ReadArray(2);
        if bytes == None {
          return Error(TruncatedLengthOrMask);
        }
        len := Frames.BigEndian(bytes.value);
      } else if len == 127 {
        var bytes := ReadArray(8);
        if bytes == None {
          return Error(TruncatedLengthOrMask);
        }
        len := Frames.BigEndian(bytes.value);
      }
      var mask: Option<seq<byte>> := None;
      if second >= 128 {
        mask := ReadArray(4);
        if mask == None {
          return Error(TruncatedLengthOrMask);
        }
      }
      if |input| - offset < len {
        return Error(TruncatedPayload);
      }
      var payload := input[offset..offset + len];
      offset := offset + len;
      return Got(Frame(first >= 128, first % 16, (first / 64) % 2 == 1, Frames.Unmask(payload, mask)), offset);
    }

    method ReadArray(n: nat) returns (bytes: Option<seq<byte>>)
      requires offset <= |input|
      modifies this
      ensures offset <= |input|
      ensures if |input| - old(offset) < n then bytes == None && offset == old(offset)
              else bytes == Some(input[old(offset)..old(offset) + n]) && offset == old(offset) + n
    {
      if |input| - offset < n {
        return None;
      }
      bytes := Some(input[offset..offset + n]);
      offset := offset + n;
    }
  }

  // ---------------------------------------------------------------------
  // The transform

  /** Decompresses a payload, to at most so many bytes; `None` when that fails. */
  type Inflate = (seq<byte>, nat) -> Option<seq<byte>>

  const DEFLATE_TAIL: seq<byte> := [0, 0, 255, 255]

  datatype Buffer = Buffer(compressed: bool, payload: seq<byte>)

  datatype Progress = Progress(
    output: seq<byte>, current: Option<Buffer>, decoded: nat, copied: nat, controls: nat)

  datatype Failure =
    | BadFrame(error: FrameError) | LoneContinuation | InterruptedMessage | InflateFailed | UnfinishedMessage

  datatype Outcome =
    | Applied(bytes: seq<byte>, truncatedByLimit: bool, decoded: nat, copied: nat, controls: nat)
    | Noop
    | Failed(failure: Failure)

  datatype Step = Go(progress: Progress) | Stop(outcome: Outcome)

  /** A whole message is written out after those before it. */
  function Deliver(m: Buffer, p: Progress, limit: nat, inflate: Inflate): Step {
    var separated := if p.output == [] then p.output else Chunked.AppendLimited(p.output, [LF], limit);
    if m.compressed && inflate(m.payload + DEFLATE_TAIL, limit).None? then Stop(Failed(InflateFailed))
    else
      var content := if m.compressed then inflate(m.payload + DEFLATE_TAIL, limit).value else m.payload;
      var next := p.(output := Chunked.AppendLimited(separated, content, limit),
                     current := None,
                     decoded := p.decoded + if m.compressed then 1 else 0,
                     copied := p.copied + if m.compressed then 0 else 1);
      if |next.output| >= limit then Stop(Applied(next.output, true, next.decoded, next.copied, next.controls))
      else Go(next)
  }

  function TakeFrame(f: Frame, p: Progress, limit: nat, inflate: Inflate): Step {
    if f.opcode > 2 then Go(p.(controls := p.controls + 1))
    else if f.opcode == 0 && p.current.None? then Stop(Failed(LoneContinuation))
    else if f.opcode != 0 && p.current.Some? then Stop(Failed(InterruptedMessage))
    else
      var m := if f.opcode == 0 then p.current.value.(payload := p.current.value.payload + f.payload)
               else Buffer(f.rsv1, f.payload);
      if f.fin then Deliver(m, p, limit, inflate) else Go(p.(current := Some(m)))
  }

  function Finish(p: Progress): Outcome {
    if p.current.Some? then Failed(UnfinishedMessage)
    else if p.decoded == 0 then Noop
    else Applied(p.output, false, p.decoded, p.copied, p.controls)
  }

  function RunFrom(input: seq<byte>, offset: nat, p: Progress, limit: nat, inflate: Inflate): Outcome
    requires offset <= |input|
    decreases |input| - offset
  {
    match FrameAt(input, offset)
    case Error(error) => Failed(BadFrame(error))
    case End => Finish(p)
    case Got(frame, next) =>
      match TakeFrame(frame, p, limit, inflate)
      case Stop(outcome) => outcome
      case Go(progress) => RunFrom(input, next, progress, limit, inflate)
  }

  const NOTHING: Progress := Progress([], None, 0, 0, 0)

  method Transform(input: seq<byte>, limit: nat, inflate: Inflate) returns (r: Outcome)
    ensures r == RunFrom(input, 0, NOTHING, limit, inflate)
  {
    hide FrameAt, Deliver;
    var parser := new WebSocketParser(input);
    var p := NOTHING;
    while true
      invariant parser.input == input && parser.offset <= |input|
      invariant RunFrom(input, 0, NOTHING, limit, inflate) == RunFrom(input, parser.offset, p, limit, inflate)
      decreases |input| - parser.offset
    {
      var next := parser.Next();
      if next.Error? {
        return Failed(BadFrame(next.error));
      }
      if next.End? {
        break;
      }
      var frame := next.frame;
      if frame.opcode > 2 {
        p := p.(controls := p.controls + 1);
        continue;
      }
      var m;
      if frame.opcode == 0 {
        if p.current.None? {
          return Failed(LoneContinuation);
        }
        m := p.current.value.(payload := p.current.value.payload + frame.payload);
      } else {
        if p.current.Some? {
          return Failed(InterruptedMessage);
        }
        m := Buffer(frame.rsv1, frame.payload);
      }
      if frame.fin {
        var step := Deliver(m, p, limit, inflate);
        if step.Stop? {
          return step.outcome;
        }
        p := step.progress;
      } else {
        p := p.(current := Some(m));
      }
    }
    if p.current.Some? {
      return Failed(UnfinishedMessage);
    }
    if p.decoded == 0 {
      return Noop;
    }
    return Applied(p.output, false, p.decoded, p.copied, p.controls);
  }

  /** No run writes more than the limit allows. */
  lemma {:induction false} OutputIsLimited(
    input: seq<byte>, offset: nat, p: Progress, limit: nat, inflate: Inflate)
    requires offset <= |input| && |p.output| <= limit
    ensures var r := RunFrom(input, offset, p, limit, inflate);
            r.Applied? ==> |r.bytes| <= limit
    decreases |input| - offset
  {
    hide FrameAt;
    var f := FrameAt(input, offset);
    if f.Got? && TakeFrame(f.frame, p, limit, inflate).Go? {
      OutputIsLimited(input, f.next, TakeFrame(f.frame, p, limit, inflate).progress, limit, inflate);
    }
  }
}
