/**
 TLS records and WebSocket frames written out (section 5.1 of RFC 8446, section 5.2
 of RFC 6455), and what the framer makes of them however the bytes are cut.
 */
module RecordRoundTrip {
  import opened Bytes
  import opened WireFrames
  import opened RecordFramer
  import Ws = WebSocketRoundTrip

  // ---------------------------------------------------------------------
  // One unit

  /** A TLS record to be written. */
  datatype OutRecord = OutRecord(contentType: byte, minor: byte, payload: seq<byte>) {
    predicate Valid() {
      contentType in {20, 21, 22, 23} && minor <= 4 && |payload| < 0x1_0000
    }

    function Bytes(): seq<byte>
      requires Valid()
    {
      [contentType, 3, minor, |payload| / 256, |payload| % 256] + payload
    }
  }

  /** A written unit of either protocol. */
  datatype Unit = Record(record: OutRecord) | Framed(frame: Ws.OutFrame) {
    predicate Of(p: Protocol) {
      match this
      case Record(r) => p.Tls? && r.Valid()
      case Framed(f) => p.WebSocket? && f.Valid() && Ws.FramerAccepts(f.Meaning())
    }

    function Bytes(p: Protocol): seq<byte>
      requires Of(p)
    {
      match this
      case Record(r) => r.Bytes()
      case Framed(f) => f.Bytes()
    }

    function HeaderLen(): nat {
      match this
      case Record(_) => 5
      case Framed(f) => 2 + f.lengthBytes + if f.mask.Some? then 4 else 0
    }

    function Payload(): seq<byte> {
      match this
      case Record(r) => r.payload
      case Framed(f) => f.payload
    }

    function Info(): Info {
      match this
      case Record(r) => TlsRecord(r.contentType, 3, r.minor, |r.payload|, r.payload)
      case Framed(f) => WebSocketFrame(f.opcode, f.fin, f.rsv1, f.rsv2, f.rsv3, f.mask.Some?, f.opcode >= 8,
                                       |f.payload|, Ws.CloseCodeOf(f), f.payload)
    }
  }

  /** A written unit is read back whole, whatever follows it. */
  lemma UnitIsRead(p: Protocol, u: Unit, later: seq<byte>)
    requires u.Of(p)
    ensures |u.Bytes(p)| == u.HeaderLen() + |u.Payload()|
    ensures Parse(p, u.Bytes(p) + later) == Complete(Frame(|u.Bytes(p)|, u.HeaderLen(), u.Info()))
  {
    hide BigEndian, Ws.OutFrame.Bytes, ParseWebSocketFrame, Ws.CloseCodeOf, Ws.FramerAccepts;
    match u
    case Record(r) =>
      var bytes := r.Bytes() + later;
      BigEndianOfTwo(bytes[3..5]);
      assert bytes[5..5 + |r.payload|] == r.payload;
    case Framed(f) =>
      Ws.FramerReadsFrame(f, later);
      Ws.FrameLayout(f);
  }

  /** The start of a unit is no unit, nor anything to refuse. */
  lemma StartIsIncomplete(p: Protocol, whole: seq<byte>, cut: nat)
    requires Parse(p, whole).Complete? && Parse(p, whole).frame.totalLen == |whole| && cut < |whole|
    ensures Parse(p, whole[..cut]) == Incomplete
  {
    hide ParseTlsRecord, ParseWebSocketFrame;
    if Parse(p, whole[..cut]) != Incomplete {
      ParseIsStable(p, whole[..cut], whole);
    }
  }

  /** Only written records are read: writing out what was read gives the bytes. */
  lemma ReadRecordIsWritten(bytes: seq<byte>)
    requires ParseTlsRecord(bytes).Complete?
    ensures var frame := ParseTlsRecord(bytes).frame;
            && frame.info.TlsRecord?
            && var r := OutRecord(frame.info.contentType, frame.info.minor, frame.info.payload);
               r.Valid() && r.Bytes() == bytes[..frame.totalLen]
  {
    hide BigEndian;
    BigEndianOfTwo(bytes[3..5]);
    var payload := ParseTlsRecord(bytes).frame.info.payload;
    var high: nat := bytes[3];
    assert |payload| / 256 == high && |payload| % 256 == bytes[4];
    assert bytes[..5 + |payload|] == bytes[..5] + payload;
    assert bytes[..5] == [bytes[0], bytes[1], bytes[2], bytes[3], bytes[4]];
  }

  /** The frame a parser has read, to be written again. */
  function Rewritten(bytes: seq<byte>): Ws.OutFrame
    requires ParseWebSocketFrame(bytes).Complete?
  {
    var info := ParseWebSocketFrame(bytes).frame.info;
    Ws.OutFrame(info.fin, info.rsv1, info.rsv2, info.rsv3, info.opcode,
                MaskAt(bytes, 2 + LengthBytes(bytes[1])), LengthBytes(bytes[1]), info.unmasked)
  }

  /** Only written frames are read: writing out what was read, with its mask, gives the bytes. */
  lemma ReadFrameIsWritten(bytes: seq<byte>)
    requires ParseWebSocketFrame(bytes).Complete?
    ensures var f := Rewritten(bytes);
            && f.Valid() && Ws.FramerAccepts(f.Meaning())
            && f.Bytes() == bytes[..ParseWebSocketFrame(bytes).frame.totalLen]
  {
    hide BigEndian, Unmask, Ws.Masked, CloseCode, Ws.ToBigEndian, Ws.Power256, ParseWebSocketFrame, Rewritten;
    var f := Rewritten(bytes);
    RewrittenIs(bytes);
    var lengthEnd := 2 + LengthBytes(bytes[1]);
    var header := lengthEnd + MaskBytes(bytes[1]);
    var end := header + |f.payload|;
    HeaderIsWritten(bytes);
    Ws.UnmaskIsExclusive(Unmask(bytes[header..end], f.mask), f.mask);
    UnmaskUndoesItself(bytes[header..end], f.mask);
    assert bytes[..end] == bytes[..2] + bytes[2..lengthEnd] + bytes[lengthEnd..header] + bytes[header..end];
    assert bytes[..2] == [bytes[0], bytes[1]];
  }

  lemma RewrittenIs(bytes: seq<byte>)
    requires ParseWebSocketFrame(bytes).Complete?
    ensures |bytes| >= 2 && |bytes| >= 2 + LengthBytes(bytes[1]) + MaskBytes(bytes[1]) + PayloadLength(bytes)
    ensures var lengthEnd := 2 + LengthBytes(bytes[1]);
            var header := lengthEnd + MaskBytes(bytes[1]);
            var end := header + PayloadLength(bytes);
            var first := bytes[0];
            && ParseWebSocketFrame(bytes).frame.totalLen == end
            && (first % 16 >= 8 ==> first >= 128 && PayloadLength(bytes) <= 125)
            && Rewritten(bytes)
               == Ws.OutFrame(first >= 128, (first / 64) % 2 == 1, (first / 32) % 2 == 1, (first / 16) % 2 == 1,
                              first % 16, MaskAt(bytes, lengthEnd), LengthBytes(bytes[1]),
                              Unmask(bytes[header..end], MaskAt(bytes, lengthEnd)))
            && first % 16 in {0, 1, 2, 8, 9, 10}
  {
    hide BigEndian, Unmask, CloseCode, PayloadLength, LengthBytes, MaskBytes;
  }

  lemma HeaderIsWritten(bytes: seq<byte>)
    requires ParseWebSocketFrame(bytes).Complete?
    ensures var f := Rewritten(bytes);
            && f.Valid() && f.First() == bytes[0] && f.Second() == bytes[1]
            && |bytes| >= 2 + f.lengthBytes
            && bytes[2..2 + f.lengthBytes] == Ws.ToBigEndian(|f.payload|, f.lengthBytes)
  {
    hide BigEndian, Unmask, CloseCode, ParseWebSocketFrame, Rewritten, Ws.ToBigEndian, Ws.Power256;
    RewrittenIs(bytes);
    var length := bytes[2..2 + LengthBytes(bytes[1])];
    WrittenBigEndian(length);
    FirstIs(bytes[0]);
  }

  lemma FirstIs(first: byte)
    ensures first == (if first >= 128 then 128 else 0) + (if (first / 64) % 2 == 1 then 64 else 0)
                     + (if (first / 32) % 2 == 1 then 32 else 0) + (if (first / 16) % 2 == 1 then 16 else 0)
                     + first % 16
  {
  }

  /** The bytes of a length are those the number is written in. */
  lemma {:induction false} WrittenBigEndian(s: seq<byte>)
    ensures BigEndian(s) < Ws.Power256(|s|) && Ws.ToBigEndian(BigEndian(s), |s|) == s
  {
    if s != [] {
      var high := s[..|s| - 1];
      WrittenBigEndian(high);
      assert BigEndian(s) / 256 == BigEndian(high) && BigEndian(s) % 256 == s[|s| - 1];
    }
  }

  /** There is a unit at the front exactly when a written one stands there. */
  lemma UnitThereExactly(p: Protocol, bytes: seq<byte>)
    ensures Parse(p, bytes).Complete? <==> exists u: Unit :: u.Of(p) && u.Bytes(p) <= bytes
  {
    hide ParseTlsRecord, ParseWebSocketFrame, OutRecord.Bytes, Ws.OutFrame.Bytes, Rewritten;
    if Parse(p, bytes).Complete? {
      if p.Tls? {
        ReadRecordIsWritten(bytes);
        var info := ParseTlsRecord(bytes).frame.info;
        var u := Record(OutRecord(info.contentType, info.minor, info.payload));
        assert u.Of(p) && u.Bytes(p) <= bytes;
      } else {
        ReadFrameIsWritten(bytes);
        var u := Framed(Rewritten(bytes));
        assert u.Of(p) && u.Bytes(p) <= bytes;
      }
    } else if u: Unit :| u.Of(p) && u.Bytes(p) <= bytes {
      UnitIsRead(p, u, bytes[|u.Bytes(p)|..]);
      assert u.Bytes(p) + bytes[|u.Bytes(p)|..] == bytes;
    }
  }

  // ---------------------------------------------------------------------
  // Many units

  predicate AllOf(p: Protocol, units: seq<Unit>) {
    forall u :: u in units ==> u.Of(p)
  }

  function Wires(p: Protocol, units: seq<Unit>): (r: seq<seq<byte>>)
    requires AllOf(p, units)
    ensures |r| == |units| && forall i :: 0 <= i < |units| ==> r[i] == units[i].Bytes(p)
  {
    if units == [] then [] else [units[0].Bytes(p)] + Wires(p, units[1..])
  }

  /** The message a unit that starts at `start` should give. */
  function MessageOf(u: Unit, start: nat, ordinal: nat): Message {
    var header, body := u.HeaderLen(), |u.Payload()|;
    Message(Good, ordinal, start, start + header, start + header + body,
            Some((start + header, start + header + body)), header, body, header + body, Some(u.Info()), None)
  }

  /** One message for each unit, in order, each starting where the one before it ends. */
  function MessagesOf(units: seq<Unit>, start: nat, ordinal: nat): seq<Message> {
    if units == [] then []
    else [MessageOf(units[0], start, ordinal)]
         + MessagesOf(units[1..], start + units[0].HeaderLen() + |units[0].Payload()|, ordinal + 1)
  }

  lemma {:induction false} WrittenMessages(p: Protocol, units: seq<Unit>, frames: seq<Frame>, start: nat, ordinal: nat)
    requires AllOf(p, units) && |frames| == |units|
    requires forall i :: 0 <= i < |units| ==> Complete(frames[i]) == Parse(p, units[i].Bytes(p))
    ensures Messages(frames, start, ordinal) == MessagesOf(units, start, ordinal)
    ensures Size(frames) == |Concat(Wires(p, units))|
  {
    hide Parse, Unit.Of, Unit.Bytes, Unit.HeaderLen, Unit.Info, Unit.Payload;
    if units != [] {
      var u := units[0];
      assert u in units;
      UnitIsRead(p, u, []);
      assert u.Bytes(p) + [] == u.Bytes(p);
      WrittenMessages(p, units[1..], frames[1..], start + frames[0].totalLen, ordinal + 1);
    }
  }

  /**
   The round trip over the framer: written units with the start of one more behind
   them, cut into any pieces that fit, come out as exactly their messages, and the
   start of the last is kept.
   */
  lemma WrittenUnitsAreEmitted(
    p: Protocol, units: seq<Unit>, last: Unit, cut: nat, pieces: seq<seq<byte>>, maxBufferBytes: nat)
    requires AllOf(p, units) && last.Of(p) && cut < |last.Bytes(p)|
    requires Concat(pieces) == Concat(Wires(p, units)) + last.Bytes(p)[..cut]
    requires Fits(p, [], pieces, maxBufferBytes)
    ensures var sent := |Concat(Wires(p, units))|;
            PushAll(p, INITIAL, pieces, maxBufferBytes)
            == Outcome(State(last.Bytes(p)[..cut], sent, sent + cut, |units|), MessagesOf(units, 0, 0))
  {
    hide Parse, Unit.Of, Unit.Bytes, PushAll, Fits, Units, Rest, Messages, MessagesOf, Size;
    var wires, tail := Wires(p, units), last.Bytes(p)[..cut];
    forall w | w in wires
      ensures Parse(p, w).Complete? && Parse(p, w).frame.totalLen == |w|
    {
      var i :| 0 <= i < |wires| && wires[i] == w;
      assert units[i] in units;
      UnitIsRead(p, units[i], []);
      assert w + [] == w;
    }
    UnitIsRead(p, last, []);
    assert last.Bytes(p) + [] == last.Bytes(p);
    StartIsIncomplete(p, last.Bytes(p), cut);
    UnitsOfConcatenation(p, wires, tail);
    WrittenMessages(p, units, Units(p, Concat(pieces)), 0, 0);
    SplitInvariance(p, pieces, maxBufferBytes);
  }
}
