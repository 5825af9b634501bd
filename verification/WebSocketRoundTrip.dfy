/**
 WebSocket messages written as frames, with any masks, any fragmentation and
 control frames anywhere, and read back.
 */
module WebSocketRoundTrip {
  import opened Bytes
  import opened WebSocketMessages
  import W = WireFrames
  import Chunked = ChunkedBody

  // ---------------------------------------------------------------------
  // Masking, as section 5.3 of RFC 6455 defines it

  function Bit(n: nat, k: nat): (bit: nat)
    ensures bit < 2
  {
    if k == 0 then n % 2 else Bit(n / 2, k - 1)
  }

  /** One where two numbers differ in a bit, and zero where they agree. */
  function Differ(a: nat, b: nat, k: nat): nat {
    if Bit(a, k) == Bit(b, k) then 0 else 1
  }

  /** The bytes' exclusive or, written out in its eight bits. */
  function Exclusive(a: byte, b: byte): byte {
    128 * Differ(a, b, 7) + 64 * Differ(a, b, 6) + 32 * Differ(a, b, 5) + 16 * Differ(a, b, 4)
    + 8 * Differ(a, b, 3) + 4 * Differ(a, b, 2) + 2 * Differ(a, b, 1) + Differ(a, b, 0)
  }

  /** The bytes a masked payload is sent as: byte `i` is combined with byte `i % 4` of the key. */
  function Masked(payload: seq<byte>, mask: Option<seq<byte>>): (r: seq<byte>)
    requires mask.Some? ==> |mask.value| == 4
    ensures |r| == |payload|
  {
    if mask.None? then payload
    else seq(|payload|, i requires 0 <= i < |payload| => Exclusive(payload[i], mask.value[i % 4]))
  }

  /** Each bit of an exclusive or says whether the two bits differ. */
  lemma {:induction false} XorBit(a: nat, b: nat, k: nat)
    ensures Bit(W.Xor(a, b), k) == Differ(a, b, k)
    decreases k
  {
    hide W.Xor;
    W.XorUnfolds(a, b);
    W.HalfAndBit(W.Xor(a / 2, b / 2), (a % 2 + b % 2) % 2);
    if k > 0 {
      XorBit(a / 2, b / 2, k - 1);
    }
  }

  lemma {:induction false} BitsFrom(n: nat, k: nat)
    ensures Bit(n, k) + 2 * (Above(n, k) / 2) == Above(n, k)
    ensures Above(n, k + 1) == Above(n, k) / 2
    decreases k
  {
    if k > 0 {
      BitsFrom(n / 2, k - 1);
    }
  }

  /** What is left of a number without its lowest bits. */
  function Above(n: nat, k: nat): nat { if k == 0 then n else Above(n / 2, k - 1) }

  lemma ByteIsItsBits(n: byte)
    ensures n == 128 * Bit(n, 7) + 64 * Bit(n, 6) + 32 * Bit(n, 5) + 16 * Bit(n, 4)
                 + 8 * Bit(n, 3) + 4 * Bit(n, 2) + 2 * Bit(n, 1) + Bit(n, 0)
  {
    hide Bit, Above;
    BitsFrom(n, 0); BitsFrom(n, 1); BitsFrom(n, 2); BitsFrom(n, 3);
    BitsFrom(n, 4); BitsFrom(n, 5); BitsFrom(n, 6); BitsFrom(n, 7);
    assert Above(n, 0) == n by { AboveNone(n); }
  }

  lemma AboveNone(n: nat)
    ensures Above(n, 0) == n
  {
  }

  /** Taking a mask off combines byte `i` with byte `i % 4` of the key, bit by bit. */
  lemma UnmaskIsExclusive(payload: seq<byte>, mask: Option<seq<byte>>)
    requires mask.Some? ==> |mask.value| == 4
    ensures W.Unmask(payload, mask) == Masked(payload, mask)
  {
    if mask.Some? {
      forall i | 0 <= i < |payload|
        ensures W.Unmask(payload, mask)[i] == Exclusive(payload[i], mask.value[i % 4])
      {
        XorIsExclusive(payload[i], mask.value[i % 4]);
      }
    }
  }

  lemma XorIsExclusive(a: byte, b: byte)
    ensures W.XorByte(a, b) == Exclusive(a, b)
  {
    hide W.Xor, Bit, Differ;
    ByteIsItsBits(W.XorByte(a, b));
    XorBit(a, b, 0); XorBit(a, b, 1); XorBit(a, b, 2); XorBit(a, b, 3);
    XorBit(a, b, 4); XorBit(a, b, 5); XorBit(a, b, 6); XorBit(a, b, 7);
  }

  // ---------------------------------------------------------------------
  // One frame

  /** A frame to be written; its length goes into the second byte, or into two or eight more. */
  datatype OutFrame = OutFrame(
    fin: bool, rsv1: bool, rsv2: bool, rsv3: bool, opcode: byte,
    mask: Option<seq<byte>>, lengthBytes: nat, payload: seq<byte>) {
    predicate Valid() {
      && opcode < 16
      && (mask.Some? ==> |mask.value| == 4)
      && lengthBytes in {0, 2, 8}
      && |payload| < if lengthBytes == 0 then 126 else Power256(lengthBytes)
    }

    function First(): byte
      requires Valid()
    {
      (if fin then 128 else 0) + (if rsv1 then 64 else 0) + (if rsv2 then 32 else 0) + (if rsv3 then 16 else 0) + opcode
    }

    function Second(): byte
      requires Valid()
    {
      (if mask.Some? then 128 else 0)
      + if lengthBytes == 0 then |payload| else if lengthBytes == 2 then 126 else 127
    }

    function Bytes(): seq<byte>
      requires Valid()
    {
      [First(), Second()] + ToBigEndian(|payload|, lengthBytes)
      + (if mask.Some? then mask.value else []) + Masked(payload, mask)
    }

    function Meaning(): Frame {
      Frame(fin, opcode, rsv1, payload)
    }
  }

  function Power256(n: nat): nat { if n == 0 then 1 else 256 * Power256(n - 1) }

  function ToBigEndian(value: nat, length: nat): (s: seq<byte>)
    ensures |s| == length
  {
    if length == 0 then [] else ToBigEndian(value / 256, length - 1) + [value % 256]
  }

  lemma {:induction false} BigEndianRoundTrip(value: nat, length: nat)
    requires value < Power256(length)
    ensures W.BigEndian(ToBigEndian(value, length)) == value
  {
    if length > 0 {
      var s := ToBigEndian(value, length);
      assert s[..|s| - 1] == ToBigEndian(value / 256, length - 1);
      BigEndianRoundTrip(value / 256, length - 1);
    }
  }

  /** The first two bytes of a written frame say what was written into them. */
  lemma HeaderBits(f: OutFrame)
    requires f.Valid()
    ensures f.First() % 16 == f.opcode && (f.First() >= 128 <==> f.fin) && ((f.First() / 64) % 2 == 1 <==> f.rsv1)
    ensures ((f.First() / 32) % 2 == 1 <==> f.rsv2) && ((f.First() / 16) % 2 == 1 <==> f.rsv3)
    ensures f.Second() >= 128 <==> f.mask.Some?
    ensures W.LengthBytes(f.Second()) == if f.lengthBytes == 0 then 0 else f.lengthBytes
    ensures W.MaskBytes(f.Second()) == if f.mask.Some? then 4 else 0
    ensures f.lengthBytes == 0 ==> f.Second() % 128 == |f.payload|
  {
  }

  /** Where the parts of a written frame lie in it. */
  lemma FrameLayout(f: OutFrame)
    requires f.Valid()
    ensures var bytes := f.Bytes();
            var lengthEnd := 2 + f.lengthBytes;
            var start := lengthEnd + if f.mask.Some? then 4 else 0;
            && |bytes| == start + |f.payload| && bytes[0] == f.First() && bytes[1] == f.Second()
            && bytes[2..lengthEnd] == ToBigEndian(|f.payload|, f.lengthBytes)
            && (f.mask.Some? ==> bytes[lengthEnd..start] == f.mask.value)
            && bytes[start..] == Masked(f.payload, f.mask)
  {
    hide Masked, ToBigEndian, Power256, OutFrame.First, OutFrame.Second;
    var first := [f.First(), f.Second()];
    FourParts(first, ToBigEndian(|f.payload|, f.lengthBytes), if f.mask.Some? then f.mask.value else [],
              Masked(f.payload, f.mask));
    assert f.Bytes()[..2] == first;
  }

  /** The parts of a written frame, wherever it stands in the input. */
  lemma FrameParts(f: OutFrame, input: seq<byte>, offset: nat)
    requires f.Valid() && offset <= |input| && f.Bytes() <= input[offset..]
    ensures var lengthEnd := offset + 2 + f.lengthBytes;
            var start := lengthEnd + if f.mask.Some? then 4 else 0;
            && start + |f.payload| == offset + |f.Bytes()| <= |input|
            && input[offset] == f.First() && input[offset + 1] == f.Second()
            && input[offset + 2..lengthEnd] == ToBigEndian(|f.payload|, f.lengthBytes)
            && (f.mask.Some? ==> input[lengthEnd..start] == f.mask.value)
            && input[start..start + |f.payload|] == Masked(f.payload, f.mask)
  {
    hide *;
    FrameLayout(f);
    var bytes := f.Bytes();
    var lengthEnd := 2 + f.lengthBytes;
    var start := lengthEnd + if f.mask.Some? then 4 else 0;
    assert input[offset] == input[offset..][0] == bytes[0];
    assert input[offset + 1] == input[offset..][1] == bytes[1];
    SliceOfPart(input, offset, bytes, 2, lengthEnd);
    SliceOfPart(input, offset, bytes, lengthEnd, start);
    SliceOfPart(input, offset, bytes, start, |bytes|);
  }

  /** A written frame is read back, with its mask taken off. */
  lemma FrameIsRead(f: OutFrame, input: seq<byte>, offset: nat)
    requires f.Valid() && offset <= |input| && f.Bytes() <= input[offset..]
    ensures offset + |f.Bytes()| <= |input|
    ensures FrameAt(input, offset) == Got(f.Meaning(), offset + |f.Bytes()|)
  {
    hide W.Unmask, Masked, W.BigEndian, ToBigEndian, W.LengthBytes, W.MaskBytes;
    FrameParts(f, input, offset);
    HeaderBits(f);
    if f.lengthBytes != 0 {
      BigEndianRoundTrip(|f.payload|, f.lengthBytes);
    }
    UnmaskIsExclusive(f.payload, f.mask);
    W.UnmaskUndoesItself(f.payload, f.mask);
  }

  /** Of a frame that is cut off at the end of the input the parser says which part of it is. */
  lemma CutFrameIsRefused(f: OutFrame, input: seq<byte>, offset: nat)
    requires f.Valid() && offset <= |input| && input[offset..] < f.Bytes()
    ensures var k := |input| - offset;
            FrameAt(input, offset)
            == if k == 0 then End
               else Error(if k < 2 then TruncatedHeader
                          else if k < 2 + f.lengthBytes + (if f.mask.Some? then 4 else 0) then TruncatedLengthOrMask
                          else TruncatedPayload)
  {
    hide W.Unmask, Masked, W.BigEndian, ToBigEndian, W.LengthBytes, W.MaskBytes, OutFrame.First, OutFrame.Second,
      OutFrame.Bytes;
    var k, bytes := |input| - offset, f.Bytes();
    if k >= 2 {
      FrameLayout(f);
      HeaderBits(f);
      assert input[offset] == input[offset..][0] == bytes[0];
      assert input[offset + 1] == input[offset..][1] == bytes[1];
      if f.lengthBytes != 0 && k >= 2 + f.lengthBytes {
        assert input[offset + 2..offset + 2 + f.lengthBytes] == input[offset..][2..2 + f.lengthBytes]
            == bytes[2..2 + f.lengthBytes];
        BigEndianRoundTrip(|f.payload|, f.lengthBytes);
      }
    }
  }

  /** What section 5.5 of RFC 6455 asks of a control frame, and what the framer knows as opcodes. */
  predicate FramerAccepts(f: Frame) {
    f.opcode in {0, 1, 2, 8, 9, 10} && (f.opcode >= 8 ==> f.fin && |f.payload| <= 125)
  }

  /**
   The framer and the transform's parser cut the same frames: where one sees a
   complete frame the other gets it, with the same end, flags and payload.
   */
  lemma ParsersAgree(input: seq<byte>, offset: nat)
    requires offset <= |input|
    ensures var framer := W.ParseWebSocketFrame(input[offset..]);
            var parser := FrameAt(input, offset);
            && (framer.Complete? <==> parser.Got? && FramerAccepts(parser.frame))
            && (framer.Complete? ==>
                  && parser.next == offset + framer.frame.totalLen
                  && parser.frame == Frame(framer.frame.info.fin, framer.frame.info.opcode,
                                           framer.frame.info.rsv1, framer.frame.info.unmasked))
  {
    hide W.Unmask, W.BigEndian, W.CloseCode;
    var s := input[offset..];
    if |s| >= 2 {
      var lengthEnd := 2 + W.LengthBytes(s[1]);
      if lengthEnd <= |s| {
        SameSlice(input, offset, 2, lengthEnd);
        var start := lengthEnd + W.MaskBytes(s[1]);
        if start <= |s| {
          SameSlice(input, offset, lengthEnd, start);
          var len := W.PayloadLength(s);
          if start + len <= |s| {
            SameSlice(input, offset, start, start + len);
          }
        }
      }
    }
  }

  /** The close code a frame carries: the first two bytes of its payload, the higher first. */
  function CloseCodeOf(f: OutFrame): Option<nat> {
    if f.opcode == 8 && |f.payload| >= 2 then
      var high: nat := f.payload[0];
      Some(256 * high + f.payload[1])
    else None
  }

  /** All the framer says of a written frame is what was written, and the others it refuses. */
  lemma FramerReadsFrame(f: OutFrame, later: seq<byte>)
    requires f.Valid()
    ensures if FramerAccepts(f.Meaning()) then
              W.ParseWebSocketFrame(f.Bytes() + later) == W.Complete(FrameRead(f))
            else W.ParseWebSocketFrame(f.Bytes() + later).Invalid?
  {
    hide W.FrameOf, CloseCodeOf, OutFrame.Bytes, W.PayloadLength, W.LengthBytes, W.MaskBytes;
    PartsAreRead(f, later);
  }

  function FrameRead(f: OutFrame): W.Frame
    requires f.Valid()
  {
    var headerLen := 2 + f.lengthBytes + if f.mask.Some? then 4 else 0;
    W.Frame(headerLen + |f.payload|, headerLen, W.WebSocketFrame(
      f.opcode, f.fin, f.rsv1, f.rsv2, f.rsv3, f.mask.Some?, f.opcode >= 8, |f.payload|, CloseCodeOf(f), f.payload))
  }

  lemma PartsAreRead(f: OutFrame, later: seq<byte>)
    requires f.Valid()
    ensures var bytes := f.Bytes() + later;
            var lengthEnd := 2 + f.lengthBytes;
            && |bytes| >= FrameRead(f).totalLen == |f.Bytes()| && 2 + W.LengthBytes(bytes[1]) == lengthEnd
            && bytes[0] % 16 == f.opcode && (bytes[0] >= 128 <==> f.fin)
            && W.MaskBytes(bytes[1]) == (if f.mask.Some? then 4 else 0)
            && W.PayloadLength(bytes) == |f.payload|
            && W.FrameOf(bytes, lengthEnd, |f.payload|) == FrameRead(f)
  {
    hide OutFrame.Bytes, OutFrame.First, OutFrame.Second, W.Unmask, Masked, W.BigEndian, ToBigEndian, W.CloseCode,
      CloseCodeOf, W.LengthBytes, W.MaskBytes;
    var bytes := f.Bytes() + later;
    assert bytes[0..] == bytes;
    FrameParts(f, bytes, 0);
    HeaderBits(f);
    if f.lengthBytes != 0 {
      BigEndianRoundTrip(|f.payload|, f.lengthBytes);
    }
    UnmaskIsExclusive(f.payload, f.mask);
    W.UnmaskUndoesItself(f.payload, f.mask);
    CloseCodeIs(f);
  }

  lemma CloseCodeIs(f: OutFrame)
    ensures W.CloseCode(f.opcode, f.payload) == CloseCodeOf(f)
  {
    if |f.payload| >= 2 {
      W.BigEndianOfTwo(f.payload[..2]);
    }
  }

  lemma SameSlice(input: seq<byte>, offset: nat, i: nat, j: nat)
    requires offset <= |input| && i <= j <= |input| - offset
    ensures input[offset..][i..j] == input[offset + i..offset + j]
  {
  }

  // ---------------------------------------------------------------------
  // Whole messages

  /** A part of a message in a frame of its own, and the control frames sent before it. */
  datatype Fragment = Fragment(controls: seq<OutFrame>, data: OutFrame)

  /** A message: the fragments of its payload, of which the first says what it is. */
  datatype OutMessage = OutMessage(compressed: bool, fragments: seq<Fragment>)

  predicate IsControl(f: OutFrame) {
    f.Valid() && f.opcode > 2
  }

  predicate ValidControls(fs: seq<OutFrame>) {
    forall f :: f in fs ==> IsControl(f)
  }

  /** Continuation fragments, the last of them final. */
  predicate ValidRest(fs: seq<Fragment>) {
    fs != [] ==>
      && fs[0].data.Valid() && ValidControls(fs[0].controls)
      && fs[0].data.opcode == 0 && (fs[0].data.fin <==> |fs| == 1)
      && ValidRest(fs[1..])
  }

  predicate ValidMessage(m: OutMessage) {
    && m.fragments != []
    && var first := m.fragments[0];
       && first.data.Valid() && ValidControls(first.controls)
       && first.data.opcode in {1, 2} && first.data.rsv1 == m.compressed
       && (first.data.fin <==> |m.fragments| == 1)
       && ValidRest(m.fragments[1..])
  }

  predicate ValidMessages(ms: seq<OutMessage>) {
    forall m :: m in ms ==> ValidMessage(m)
  }

  function FrameBytes(fs: seq<OutFrame>): seq<byte>
    requires forall f :: f in fs ==> f.Valid()
  {
    if fs == [] then [] else fs[0].Bytes() + FrameBytes(fs[1..])
  }

  function FramesOf(fs: seq<Fragment>): seq<OutFrame> {
    if fs == [] then [] else fs[0].controls + [fs[0].data] + FramesOf(fs[1..])
  }

  function AllFrames(ms: seq<OutMessage>): seq<OutFrame> {
    if ms == [] then [] else FramesOf(ms[0].fragments) + AllFrames(ms[1..])
  }

  function PayloadOf(fs: seq<Fragment>): seq<byte> {
    if fs == [] then [] else fs[0].data.payload + PayloadOf(fs[1..])
  }

  /** The message the transform should put together. */
  function BufferOf(m: OutMessage): Buffer {
    Buffer(m.compressed, PayloadOf(m.fragments))
  }

  function ControlsIn(fs: seq<Fragment>): nat {
    if fs == [] then 0 else |fs[0].controls| + ControlsIn(fs[1..])
  }

  function ControlsOf(ms: seq<OutMessage>): nat {
    if ms == [] then 0 else ControlsIn(ms[0].fragments) + ControlsOf(ms[1..])
  }

  lemma ControlsOfFirst(ms: seq<OutMessage>)
    requires ms != []
    ensures ControlsOf(ms) == ControlsIn(ms[0].fragments) + ControlsOf(ms[1..])
  {
  }

  // ---------------------------------------------------------------------
  // The transform, frame by frame

  /** The transform on a list of frames instead of bytes. */
  function RunFrames(fs: seq<Frame>, p: Progress, limit: nat, inflate: Inflate): Outcome
    decreases |fs|
  {
    if fs == [] then Finish(p)
    else
      match TakeFrame(fs[0], p, limit, inflate)
      case Stop(outcome) => outcome
      case Go(progress) => RunFrames(fs[1..], progress, limit, inflate)
  }

  function GoOn(step: Step, later: seq<Frame>, limit: nat, inflate: Inflate): Outcome {
    match step
    case Stop(outcome) => outcome
    case Go(progress) => RunFrames(later, progress, limit, inflate)
  }

  function Meanings(fs: seq<OutFrame>): (r: seq<Frame>)
    ensures |r| == |fs|
  {
    if fs == [] then [] else [fs[0].Meaning()] + Meanings(fs[1..])
  }

  /** On written frames the transform does what it does on the frames themselves. */
  lemma {:induction false} BytesAreFrames(
    fs: seq<OutFrame>, input: seq<byte>, offset: nat, p: Progress, limit: nat, inflate: Inflate)
    requires forall f :: f in fs ==> f.Valid()
    requires offset <= |input| && input[offset..] == FrameBytes(fs)
    ensures RunFrom(input, offset, p, limit, inflate) == RunFrames(Meanings(fs), p, limit, inflate)
    decreases |fs|
  {
    hide FrameAt, TakeFrame, Finish;
    if fs == [] {
      AtEnd(input, offset);
    } else {
      var f := fs[0];
      assert f in fs;
      var next := offset + |f.Bytes()|;
      FrameIsRead(f, input, offset);
      assert input[next..] == input[offset..][|f.Bytes()|..] == FrameBytes(fs[1..]);
      assert Meanings(fs)[1..] == Meanings(fs[1..]);
      var step := TakeFrame(f.Meaning(), p, limit, inflate);
      if step.Go? {
        BytesAreFrames(fs[1..], input, next, step.progress, limit, inflate);
      }
    }
  }

  lemma AtEnd(input: seq<byte>, offset: nat)
    requires offset == |input|
    ensures FrameAt(input, offset) == End
  {
  }

  lemma {:induction false} MeaningsConcat(one: seq<OutFrame>, two: seq<OutFrame>)
    ensures Meanings(one + two) == Meanings(one) + Meanings(two)
  {
    if one == [] {
      assert one + two == two;
    } else {
      assert (one + two)[1..] == one[1..] + two;
      MeaningsConcat(one[1..], two);
    }
  }

  /** Control frames are counted and passed over, inside a message or between two. */
  lemma {:induction false} ControlsArePassed(
    controls: seq<OutFrame>, later: seq<Frame>, p: Progress, limit: nat, inflate: Inflate)
    requires ValidControls(controls)
    ensures RunFrames(Meanings(controls) + later, p, limit, inflate)
            == RunFrames(later, p.(controls := p.controls + |controls|), limit, inflate)
  {
    if controls == [] {
      assert Meanings(controls) + later == later;
    } else {
      hide *;
      ControlFirst(controls, later, p, limit, inflate);
      ControlsArePassed(controls[1..], later, p.(controls := p.controls + 1), limit, inflate);
    }
  }

  lemma ControlFirst(controls: seq<OutFrame>, later: seq<Frame>, p: Progress, limit: nat, inflate: Inflate)
    requires ValidControls(controls) && controls != []
    ensures ValidControls(controls[1..])
    ensures RunFrames(Meanings(controls) + later, p, limit, inflate)
            == RunFrames(Meanings(controls[1..]) + later, p.(controls := p.controls + 1), limit, inflate)
  {
    hide TakeFrame, Finish;
    assert IsControl(controls[0]);
    ControlIsTaken(controls[0], p, limit, inflate);
    assert (Meanings(controls) + later)[1..] == Meanings(controls[1..]) + later;
  }

  lemma ControlIsTaken(f: OutFrame, p: Progress, limit: nat, inflate: Inflate)
    requires IsControl(f)
    ensures TakeFrame(f.Meaning(), p, limit, inflate) == Go(p.(controls := p.controls + 1))
  {
    hide Deliver;
  }

  /** What the frames of one fragment do. */
  lemma FragmentRuns(f: Fragment, later: seq<Frame>, p: Progress, limit: nat, inflate: Inflate)
    requires f.data.Valid() && ValidControls(f.controls)
    ensures var seen := p.(controls := p.controls + |f.controls|);
            RunFrames(Meanings(f.controls + [f.data]) + later, p, limit, inflate)
            == GoOn(TakeFrame(f.data.Meaning(), seen, limit, inflate), later, limit, inflate)
  {
    hide TakeFrame;
    var data := [f.data.Meaning()];
    MeaningsConcat(f.controls, [f.data]);
    assert Meanings([f.data]) == data;
    assert Meanings(f.controls) + data + later == Meanings(f.controls) + (data + later);
    assert (data + later)[1..] == later;
    ControlsArePassed(f.controls, data + later, p, limit, inflate);
  }

  /** The continuation fragments of a message complete it and deliver it. */
  lemma {:induction false} RestIsDelivered(
    fs: seq<Fragment>, later: seq<Frame>, m: Buffer, p: Progress, limit: nat, inflate: Inflate)
    requires fs != [] && ValidRest(fs) && p.current == Some(m)
    ensures var done := p.(controls := p.controls + ControlsIn(fs));
            RunFrames(Meanings(FramesOf(fs)) + later, p, limit, inflate)
            == GoOn(Deliver(m.(payload := m.payload + PayloadOf(fs)), done, limit, inflate), later, limit, inflate)
    decreases |fs|
  {
    hide Deliver, RunFrames;
    var f := fs[0];
    SplitFirst(fs, later);
    var after := Meanings(FramesOf(fs[1..])) + later;
    FragmentRuns(f, after, p, limit, inflate);
    var seen := p.(controls := p.controls + |f.controls|);
    var grown := m.(payload := m.payload + f.data.payload);
    var whole := m.(payload := m.payload + PayloadOf(fs));
    var done := p.(controls := p.controls + ControlsIn(fs));
    if |fs| == 1 {
      assert PayloadOf(fs) == f.data.payload + [] == f.data.payload;
      assert after == later;
      DeliverIgnoresCurrent(whole, seen, done, limit, inflate);
    } else {
      assert m.payload + PayloadOf(fs) == grown.payload + PayloadOf(fs[1..]);
      var next := seen.(current := Some(grown));
      RestIsDelivered(fs[1..], later, grown, next, limit, inflate);
      DeliverIgnoresCurrent(whole, next.(controls := next.controls + ControlsIn(fs[1..])), done, limit, inflate);
    }
  }

  /** Delivering a message forgets the one being put together. */
  lemma DeliverIgnoresCurrent(m: Buffer, p: Progress, q: Progress, limit: nat, inflate: Inflate)
    requires p.(current := None) == q.(current := None)
    ensures Deliver(m, p, limit, inflate) == Deliver(m, q, limit, inflate)
  {
  }

  lemma FramesOfFirst(fs: seq<Fragment>)
    requires fs != []
    ensures FramesOf(fs) == fs[0].controls + [fs[0].data] + FramesOf(fs[1..])
  {
  }

  lemma SplitFirst(fs: seq<Fragment>, later: seq<Frame>)
    requires fs != []
    ensures Meanings(FramesOf(fs)) + later
            == Meanings(fs[0].controls + [fs[0].data]) + (Meanings(FramesOf(fs[1..])) + later)
  {
    hide *;
    FramesOfFirst(fs);
    MeaningsConcat(fs[0].controls + [fs[0].data], FramesOf(fs[1..]));
  }

  /** All the frames of one message, taken between messages, deliver its payload. */
  lemma MessageIsDelivered(m: OutMessage, later: seq<Frame>, p: Progress, limit: nat, inflate: Inflate)
    requires ValidMessage(m) && p.current == None
    ensures var done := p.(controls := p.controls + ControlsIn(m.fragments));
            RunFrames(Meanings(FramesOf(m.fragments)) + later, p, limit, inflate)
            == GoOn(Deliver(BufferOf(m), done, limit, inflate), later, limit, inflate)
  {
    hide Deliver, RunFrames;
    var fs := m.fragments;
    var f := fs[0];
    SplitFirst(fs, later);
    var after := Meanings(FramesOf(fs[1..])) + later;
    FragmentRuns(f, after, p, limit, inflate);
    var seen := p.(controls := p.controls + |f.controls|);
    var done := p.(controls := p.controls + ControlsIn(fs));
    var started := Buffer(m.compressed, f.data.payload);
    if |fs| == 1 {
      assert PayloadOf(fs) == f.data.payload + [] == f.data.payload;
      assert after == later;
      DeliverIgnoresCurrent(started, seen, done, limit, inflate);
    } else {
      var next := seen.(current := Some(started));
      RestIsDelivered(fs[1..], later, started, next, limit, inflate);
      DeliverIgnoresCurrent(BufferOf(m), next.(controls := next.controls + ControlsIn(fs[1..])), done, limit, inflate);
    }
  }

  // ---------------------------------------------------------------------
  // The output

  /**
   What a message contributes: its payload, or, when it was compressed, that decompressed
   with the four bytes behind it that section 7.2.2 of RFC 7692 asks for.
   */
  function ContentOf(m: OutMessage, limit: nat, inflate: Inflate): Option<seq<byte>> {
    var b := BufferOf(m);
    if b.compressed then inflate(b.payload + [0x00, 0x00, 0xff, 0xff], limit) else Some(b.payload)
  }

  predicate AllInflate(ms: seq<OutMessage>, limit: nat, inflate: Inflate) {
    forall m :: m in ms ==> ContentOf(m, limit, inflate).Some?
  }

  /** The contents one after the other, with a line feed between, but none at the start. */
  function Joined(ms: seq<OutMessage>, before: seq<byte>, limit: nat, inflate: Inflate): seq<byte>
    requires AllInflate(ms, limit, inflate)
  {
    if ms == [] then before
    else
      var content := ContentOf(ms[0], limit, inflate).value;
      Joined(ms[1..], before + (if before == [] then [] else [LF]) + content, limit, inflate)
  }

  function CompressedIn(ms: seq<OutMessage>): nat {
    if ms == [] then 0 else (if ms[0].compressed then 1 else 0) + CompressedIn(ms[1..])
  }

  lemma {:induction false} JoinedGrows(ms: seq<OutMessage>, before: seq<byte>, limit: nat, inflate: Inflate)
    requires AllInflate(ms, limit, inflate)
    ensures before <= Joined(ms, before, limit, inflate)
  {
    if ms != [] {
      var content := ContentOf(ms[0], limit, inflate).value;
      JoinedGrows(ms[1..], before + (if before == [] then [] else [LF]) + content, limit, inflate);
    }
  }

  /** Delivering below the limit appends in full; at the limit the run stops with what fits. */
  lemma DeliverJoins(m: OutMessage, p: Progress, limit: nat, inflate: Inflate)
    requires ContentOf(m, limit, inflate).Some? && (p.output == [] || |p.output| < limit)
    ensures var whole := p.output + (if p.output == [] then [] else [LF]) + ContentOf(m, limit, inflate).value;
            var step := Deliver(BufferOf(m), p, limit, inflate);
            if |whole| >= limit
            then step.Stop? && step.outcome.Applied? && step.outcome.truncatedByLimit
                 && step.outcome.bytes == whole[..limit] && step.outcome.controls == p.controls
                 && step.outcome.decoded == p.decoded + (if m.compressed then 1 else 0)
                 && step.outcome.copied == p.copied + (if m.compressed then 0 else 1)
            else step == Go(p.(output := whole, current := None,
                               decoded := p.decoded + if m.compressed then 1 else 0,
                               copied := p.copied + if m.compressed then 0 else 1))
  {
    hide Chunked.AppendLimited;
    var separated := p.output + if p.output == [] then [] else [LF];
    assert separated[..|separated|] == separated;
    var whole := separated + ContentOf(m, limit, inflate).value;
    assert |whole| < limit ==> whole[..|whole|] == whole;
  }

  /**
   The outcome that recovers `ms`, with so many control frames among them, after what `p`
   has written: all of it, or its first `limit` bytes.
   */
  predicate Recovered(ms: seq<OutMessage>, controls: nat, p: Progress, limit: nat, inflate: Inflate, r: Outcome)
    requires AllInflate(ms, limit, inflate)
  {
    var joined := Joined(ms, p.output, limit, inflate);
    if ms != [] && |joined| >= limit
    then r.Applied? && r.truncatedByLimit && r.bytes == joined[..limit]
    else if p.decoded + CompressedIn(ms) == 0 then r == Noop
    else r.Applied? && !r.truncatedByLimit && r.bytes == joined
         && r.decoded == p.decoded + CompressedIn(ms)
         && r.decoded + r.copied == p.decoded + p.copied + |ms| && r.controls == p.controls + controls
  }

  lemma RecoveredStep(ms: seq<OutMessage>, controls: nat, p: Progress, limit: nat, inflate: Inflate, r: Outcome)
    requires ms != [] && AllInflate(ms, limit, inflate) && AllInflate(ms[1..], limit, inflate)
    requires p.output == [] || |p.output| < limit
    requires var step := Deliver(BufferOf(ms[0]), p, limit, inflate);
             if step.Stop? then r == step.outcome else Recovered(ms[1..], controls, step.progress, limit, inflate, r)
    ensures Recovered(ms, controls, p, limit, inflate, r)
  {
    hide Deliver, ContentOf;
    assert ms[0] in ms;
    DeliverJoins(ms[0], p, limit, inflate);
    var whole := p.output + (if p.output == [] then [] else [LF]) + ContentOf(ms[0], limit, inflate).value;
    JoinedGrows(ms[1..], whole, limit, inflate);
  }

  /**
   From the frames of any messages, fragmented and masked in any way and with
   control frames anywhere, the transform recovers exactly their payloads in order.
   */
  lemma {:induction false} MessagesAreRecovered(
    ms: seq<OutMessage>, trailing: seq<OutFrame>, p: Progress, limit: nat, inflate: Inflate)
    requires ValidMessages(ms) && ValidControls(trailing) && AllInflate(ms, limit, inflate)
    requires p.current == None && (p.output == [] || |p.output| < limit)
    ensures Recovered(ms, ControlsOf(ms) + |trailing|, p, limit, inflate,
                      RunFrames(Meanings(AllFrames(ms)) + Meanings(trailing), p, limit, inflate))
    decreases |ms|
  {
    hide *;
    if ms == [] {
      NothingIsRecovered(trailing, p, limit, inflate);
    } else {
      FirstMessage(ms, Meanings(trailing), limit, inflate);
      var later := Meanings(AllFrames(ms[1..])) + Meanings(trailing);
      MessageIsDelivered(ms[0], later, p, limit, inflate);
      var done := p.(controls := p.controls + ControlsIn(ms[0].fragments));
      var step := Deliver(BufferOf(ms[0]), done, limit, inflate);
      StepGoesOn(step, later, limit, inflate);
      if step.Go? {
        DeliveredProgress(ms[0], done, limit, inflate);
        MessagesAreRecovered(ms[1..], trailing, step.progress, limit, inflate);
      }
      var left := ControlsOf(ms[1..]) + |trailing|;
      RecoveredStep(ms, left, done, limit, inflate, GoOn(step, later, limit, inflate));
      RecoveredBefore(ms, left, done, p, limit, inflate, GoOn(step, later, limit, inflate));
      ControlsOfFirst(ms);
    }
  }

  /** The first of several messages, the others, and the frames of all of them. */
  lemma FirstMessage(ms: seq<OutMessage>, later: seq<Frame>, limit: nat, inflate: Inflate)
    requires ms != [] && ValidMessages(ms) && AllInflate(ms, limit, inflate)
    ensures ValidMessage(ms[0]) && ValidMessages(ms[1..]) && AllInflate(ms[1..], limit, inflate)
    ensures Meanings(AllFrames(ms)) + later
            == Meanings(FramesOf(ms[0].fragments)) + (Meanings(AllFrames(ms[1..])) + later)
  {
    hide ValidMessage, ContentOf, Meanings, FramesOf, AllFrames;
    assert ms[0] in ms;
    FirstFrames(ms, later);
  }

  lemma FirstFrames(ms: seq<OutMessage>, later: seq<Frame>)
    requires ms != []
    ensures Meanings(AllFrames(ms)) + later
            == Meanings(FramesOf(ms[0].fragments)) + (Meanings(AllFrames(ms[1..])) + later)
  {
    hide *;
    var first, rest := FramesOf(ms[0].fragments), AllFrames(ms[1..]);
    AllFramesFirst(ms);
    MeaningsConcat(first, rest);
    Associates(Meanings(first), Meanings(rest), later);
  }

  lemma AllFramesFirst(ms: seq<OutMessage>)
    requires ms != []
    ensures AllFrames(ms) == FramesOf(ms[0].fragments) + AllFrames(ms[1..])
  {
  }

  lemma DeliveredProgress(m: OutMessage, p: Progress, limit: nat, inflate: Inflate)
    requires Deliver(BufferOf(m), p, limit, inflate).Go?
    ensures var q := Deliver(BufferOf(m), p, limit, inflate).progress; q.current == None && |q.output| < limit
  {
  }

  /** Control frames that have gone by are among those still to be counted before. */
  lemma RecoveredBefore(
    ms: seq<OutMessage>, controls: nat, p: Progress, q: Progress, limit: nat, inflate: Inflate, r: Outcome)
    requires AllInflate(ms, limit, inflate) && Recovered(ms, controls, p, limit, inflate, r)
    requires q == p.(controls := q.controls) && q.controls <= p.controls
    ensures Recovered(ms, p.controls - q.controls + controls, q, limit, inflate, r)
  {
  }

  lemma StepGoesOn(step: Step, later: seq<Frame>, limit: nat, inflate: Inflate)
    ensures step.Stop? ==> GoOn(step, later, limit, inflate) == step.outcome
    ensures step.Go? ==> GoOn(step, later, limit, inflate) == RunFrames(later, step.progress, limit, inflate)
  {
    hide RunFrames;
  }

  lemma NothingIsRecovered(trailing: seq<OutFrame>, p: Progress, limit: nat, inflate: Inflate)
    requires ValidControls(trailing) && p.current == None
    ensures Recovered([], ControlsOf([]) + |trailing|, p, limit, inflate,
                      RunFrames(Meanings(AllFrames([])) + Meanings(trailing), p, limit, inflate))
  {
    hide RunFrames, Meanings, ValidControls;
    NoMoreMessages(trailing, p, limit, inflate);
  }

  lemma NoMoreMessages(trailing: seq<OutFrame>, p: Progress, limit: nat, inflate: Inflate)
    requires ValidControls(trailing)
    ensures Meanings(AllFrames([])) + Meanings(trailing) == Meanings(trailing)
    ensures RunFrames(Meanings(trailing), p, limit, inflate)
            == Finish(p.(controls := p.controls + |trailing|))
  {
    assert Meanings(trailing) + [] == Meanings(trailing);
    ControlsArePassed(trailing, [], p, limit, inflate);
  }

  /**
   The same on the wire: the transform on the bytes of those frames returns the
   payloads joined if that is shorter than the limit, and else its first bytes;
   when nothing was compressed and nothing cut short it declares itself a no-op.
   */
  lemma TransformRecoversMessages(ms: seq<OutMessage>, trailing: seq<OutFrame>, limit: nat, inflate: Inflate)
    requires ValidMessages(ms) && ValidControls(trailing) && AllInflate(ms, limit, inflate)
    ensures var frames := AllFrames(ms) + trailing;
            && (forall f :: f in frames ==> f.Valid())
            && Recovered(ms, ControlsOf(ms) + |trailing|, Progress([], None, 0, 0, 0), limit, inflate,
                         RunFrom(FrameBytes(frames), 0, NOTHING, limit, inflate))
  {
    hide RunFrom, RunFrames, FrameBytes, Joined, Recovered;
    var frames := AllFrames(ms) + trailing;
    FramesAreValid(ms);
    var input := FrameBytes(frames);
    assert input[0..] == input;
    BytesAreFrames(frames, input, 0, NOTHING, limit, inflate);
    MeaningsConcat(AllFrames(ms), trailing);
    MessagesAreRecovered(ms, trailing, NOTHING, limit, inflate);
  }

  lemma {:induction false} FramesAreValid(ms: seq<OutMessage>)
    requires ValidMessages(ms)
    ensures forall f :: f in AllFrames(ms) ==> f.Valid()
  {
    if ms != [] {
      assert ms[0] in ms;
      RestFramesAreValid(ms[0].fragments[1..]);
      FramesAreValid(ms[1..]);
    }
  }

  lemma {:induction false} RestFramesAreValid(fs: seq<Fragment>)
    requires ValidRest(fs)
    ensures forall f :: f in FramesOf(fs) ==> f.Valid()
  {
    if fs != [] {
      RestFramesAreValid(fs[1..]);
    }
  }

  // ---------------------------------------------------------------------
  // Frames in the wrong place

  /** Messages below the limit go by, and the transform goes on with what follows them. */
  lemma {:induction false} MessagesGoBy(
    ms: seq<OutMessage>, later: seq<Frame>, p: Progress, limit: nat, inflate: Inflate) returns (q: Progress)
    requires ValidMessages(ms) && AllInflate(ms, limit, inflate) && p.current == None
    requires p.output == [] || |p.output| < limit
    requires ms == [] || |Joined(ms, p.output, limit, inflate)| < limit
    ensures q.current == None
    ensures RunFrames(Meanings(AllFrames(ms)) + later, p, limit, inflate) == RunFrames(later, q, limit, inflate)
    decreases |ms|
  {
    hide *;
    if ms == [] {
      NoFrames(later);
      return p;
    }
    FirstMessage(ms, later, limit, inflate);
    var rest := Meanings(AllFrames(ms[1..])) + later;
    MessageIsDelivered(ms[0], rest, p, limit, inflate);
    var done := p.(controls := p.controls + ControlsIn(ms[0].fragments));
    StepGoesOn(Deliver(BufferOf(ms[0]), done, limit, inflate), rest, limit, inflate);
    DeliveredBelow(ms, done, limit, inflate);
    q := MessagesGoBy(ms[1..], later, Deliver(BufferOf(ms[0]), done, limit, inflate).progress, limit, inflate);
  }

  lemma NoFrames(later: seq<Frame>)
    ensures Meanings(AllFrames([])) + later == later
  {
  }

  lemma DeliveredBelow(ms: seq<OutMessage>, p: Progress, limit: nat, inflate: Inflate)
    requires ms != [] && AllInflate(ms, limit, inflate) && AllInflate(ms[1..], limit, inflate)
    requires |Joined(ms, p.output, limit, inflate)| < limit && (p.output == [] || |p.output| < limit)
    ensures var step := Deliver(BufferOf(ms[0]), p, limit, inflate);
            && step.Go? && step.progress.current == None && |step.progress.output| < limit
            && (ms[1..] != [] ==> |Joined(ms[1..], step.progress.output, limit, inflate)| < limit)
  {
    hide Deliver, ContentOf;
    assert ms[0] in ms;
    DeliverJoins(ms[0], p, limit, inflate);
    var whole := p.output + (if p.output == [] then [] else [LF]) + ContentOf(ms[0], limit, inflate).value;
    JoinedGrows(ms[1..], whole, limit, inflate);
  }

  /** The first fragments of a message, but not its last. */
  predicate Unfinished(fs: seq<Fragment>) {
    && fs != []
    && (forall f :: f in fs ==> f.data.Valid() && ValidControls(f.controls) && !f.data.fin)
    && fs[0].data.opcode in {1, 2}
    && (forall i :: 1 <= i < |fs| ==> fs[i].data.opcode == 0)
  }

  /** The fragments of an unfinished message are kept waiting for more. */
  lemma {:induction false} FragmentsAreKept(
    fs: seq<Fragment>, later: seq<Frame>, p: Progress, limit: nat, inflate: Inflate) returns (q: Progress)
    requires forall f :: f in fs ==> f.data.Valid() && ValidControls(f.controls) && !f.data.fin
    requires forall i :: 0 <= i < |fs| ==>
               if i == 0 && p.current == None then fs[i].data.opcode in {1, 2} else fs[i].data.opcode == 0
    ensures fs != [] || p.current.Some? ==> q.current.Some?
    ensures RunFrames(Meanings(FramesOf(fs)) + later, p, limit, inflate) == RunFrames(later, q, limit, inflate)
    decreases |fs|
  {
    if fs == [] {
      assert Meanings(FramesOf(fs)) + later == later;
      return p;
    }
    hide RunFrames, ValidControls, OutFrame.Valid, Deliver;
    SplitFirst(fs, later);
    var f := fs[0];
    assert f in fs;
    var rest := Meanings(FramesOf(fs[1..])) + later;
    FragmentRuns(f, rest, p, limit, inflate);
    var seen := p.(controls := p.controls + |f.controls|);
    var step := TakeFrame(f.data.Meaning(), seen, limit, inflate);
    StepGoesOn(step, rest, limit, inflate);
    assert forall i :: 0 <= i < |fs| - 1 ==> fs[1..][i] == fs[i + 1];
    q := FragmentsAreKept(fs[1..], later, step.progress, limit, inflate);
  }

  /**
   After any messages below the limit, a continuation without a message, a message that
   another one interrupts, one that is never finished and one that cannot be
   decompressed are all refused, each for its own reason.
   */
  lemma WrongFramesAreRefused(
    ms: seq<OutMessage>, wrong: OutFrame, fs: seq<Fragment>, bad: OutMessage, later: seq<Frame>,
    limit: nat, inflate: Inflate)
    requires ValidMessages(ms) && AllInflate(ms, limit, inflate)
    requires ms == [] || |Joined(ms, [], limit, inflate)| < limit
    requires Unfinished(fs) && ValidMessage(bad) && ContentOf(bad, limit, inflate).None?
    ensures var before := Meanings(AllFrames(ms));
            var start := Meanings(FramesOf(fs));
            && (wrong.opcode == 0 ==>
                  RunFrames(before + ([wrong.Meaning()] + later), NOTHING, limit, inflate) == Failed(LoneContinuation))
            && (wrong.opcode in {1, 2} ==>
                  RunFrames(before + (start + ([wrong.Meaning()] + later)), NOTHING, limit, inflate)
                  == Failed(InterruptedMessage))
            && RunFrames(before + (start + []), NOTHING, limit, inflate) == Failed(UnfinishedMessage)
            && RunFrames(before + (Meanings(FramesOf(bad.fragments)) + later), NOTHING, limit, inflate)
               == Failed(InflateFailed)
  {
    hide RunFrames, Deliver, Meanings, FramesOf, AllFrames, ValidMessages, ValidMessage, AllInflate, Joined, ContentOf,
      BufferOf;
    var start, next := Meanings(FramesOf(fs)), [wrong.Meaning()] + later;
    var one := MessagesGoBy(ms, next, NOTHING, limit, inflate);
    FrameFirst(wrong, later, one, limit, inflate);
    var two := MessagesGoBy(ms, start + next, NOTHING, limit, inflate);
    var kept := FragmentsAreKept(fs, next, two, limit, inflate);
    FrameFirst(wrong, later, kept, limit, inflate);
    var three := MessagesGoBy(ms, start + [], NOTHING, limit, inflate);
    var left := FragmentsAreKept(fs, [], three, limit, inflate);
    AtTheEnd(left, limit, inflate);
    var four := MessagesGoBy(ms, Meanings(FramesOf(bad.fragments)) + later, NOTHING, limit, inflate);
    MessageIsDelivered(bad, later, four, limit, inflate);
    var done := four.(controls := four.controls + ControlsIn(bad.fragments));
    NotInflated(bad, done, limit, inflate);
    StepGoesOn(Deliver(BufferOf(bad), done, limit, inflate), later, limit, inflate);
  }

  lemma FrameFirst(f: OutFrame, later: seq<Frame>, p: Progress, limit: nat, inflate: Inflate)
    ensures RunFrames([f.Meaning()] + later, p, limit, inflate)
            == GoOn(TakeFrame(f.Meaning(), p, limit, inflate), later, limit, inflate)
  {
    hide TakeFrame;
    assert ([f.Meaning()] + later)[1..] == later;
  }

  lemma AtTheEnd(p: Progress, limit: nat, inflate: Inflate)
    ensures p.current.Some? ==> RunFrames([], p, limit, inflate) == Failed(UnfinishedMessage)
  {
  }

  lemma NotInflated(m: OutMessage, p: Progress, limit: nat, inflate: Inflate)
    requires ContentOf(m, limit, inflate).None?
    ensures Deliver(BufferOf(m), p, limit, inflate) == Stop(Failed(InflateFailed))
  {
  }
}
