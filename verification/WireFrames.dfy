/**
 The units the TLS and WebSocket framers cut: records of section 5.1 of RFC 8446
 and frames of section 5.2 of RFC 6455, each read from the front of a buffer.
 */
module WireFrames {
  import opened Bytes

  datatype Protocol = Tls | WebSocket

  datatype Info =
    | TlsRecord(contentType: byte, major: byte, minor: byte, recordLen: nat, payload: seq<byte>)
    | WebSocketFrame(
        opcode: byte, fin: bool, rsv1: bool, rsv2: bool, rsv3: bool, masked: bool, control: bool,
        payloadBytes: nat, closeCode: Option<nat>, unmasked: seq<byte>)

  datatype Frame = Frame(totalLen: nat, headerLen: nat, info: Info)

  datatype FrameParse = Complete(frame: Frame) | Incomplete | Invalid(reason: string)

  /** A big-endian number. */
  function BigEndian(s: seq<byte>): nat {
    if s == [] then 0 else 256 * BigEndian(s[..|s| - 1]) + s[|s| - 1]
  }

  lemma BigEndianOfTwo(s: seq<byte>)
    requires |s| == 2
    ensures BigEndian(s) == (var high: nat := s[0]; 256 * high + s[1])
  {
    var one := s[..1];
    assert one[..0] == [] && BigEndian(one) == s[0];
  }

  /** Exclusive or of two numbers, bit by bit. */
  function Xor(a: nat, b: nat): nat {
    if a == 0 && b == 0 then 0 else 2 * Xor(a / 2, b / 2) + (a % 2 + b % 2) % 2
  }

  lemma {:induction false} XorBelow(a: nat, b: nat, bits: nat, limit: nat)
    requires a < limit && b < limit && limit == Power2(bits)
    ensures Xor(a, b) < limit
    decreases bits
  {
    if a != 0 || b != 0 {
      XorBelow(a / 2, b / 2, bits - 1, limit / 2);
    }
  }

  function Power2(n: nat): nat { if n == 0 then 1 else 2 * Power2(n - 1) }

  lemma XorUnfolds(a: nat, b: nat)
    ensures Xor(a, b) == 2 * Xor(a / 2, b / 2) + (a % 2 + b % 2) % 2
  {
  }

  lemma HalfAndBit(high: nat, low: nat)
    requires low < 2
    ensures (2 * high + low) / 2 == high && (2 * high + low) % 2 == low
  {
  }

  lemma BitTwice(i: nat, j: nat)
    requires i < 2 && j < 2
    ensures ((i + j) % 2 + j) % 2 == i
  {
  }

  lemma {:induction false} XorUndoesItself(a: nat, b: nat)
    ensures Xor(Xor(a, b), b) == a
    decreases a + b
  {
    if a != 0 || b != 0 {
      hide Xor;
      var high, low := Xor(a / 2, b / 2), (a % 2 + b % 2) % 2;
      XorUnfolds(a, b);
      HalfAndBit(high, low);
      XorUnfolds(2 * high + low, b);
      XorUndoesItself(a / 2, b / 2);
      BitTwice(a % 2, b % 2);
    } else {
      assert Xor(0, 0) == 0;
    }
  }

  function XorByte(a: byte, b: byte): byte {
    assert Power2(8) == 256 by { assert Power2(4) == 16; assert Power2(6) == 64; }
    XorBelow(a, b, 8, 256);
    Xor(a, b)
  }

  /** The payload with the mask applied; applying it again gives the payload back. */
  function Unmask(payload: seq<byte>, mask: Option<seq<byte>>): (r: seq<byte>)
    requires mask.Some? ==> |mask.value| == 4
    ensures |r| == |payload|
  {
    match mask
    case None => payload
    case Some(key) => seq(|payload|, i requires 0 <= i < |payload| => XorByte(payload[i], key[i % 4]))
  }

  lemma UnmaskUndoesItself(payload: seq<byte>, mask: Option<seq<byte>>)
    requires mask.Some? ==> |mask.value| == 4
    ensures Unmask(Unmask(payload, mask), mask) == payload
  {
    if mask.Some? {
      forall i | 0 <= i < |payload|
        ensures Unmask(Unmask(payload, mask), mask)[i] == payload[i]
      {
        XorUndoesItself(payload[i], mask.value[i % 4]);
      }
    }
  }

  predicate KnownOpcode(opcode: byte) {
    opcode <= 2 || 8 <= opcode <= 10
  }

  /** How many bytes after the first two hold the length: none, two or eight. */
  function LengthBytes(second: byte): nat {
    if second % 128 == 126 then 2 else if second % 128 == 127 then 8 else 0
  }

  function MaskBytes(second: byte): nat {
    if second >= 128 then 4 else 0
  }

  function PayloadLength(bytes: seq<byte>): nat
    requires |bytes| >= 2 && |bytes| >= 2 + LengthBytes(bytes[1])
  {
    if LengthBytes(bytes[1]) == 0 then bytes[1] % 128 else BigEndian(bytes[2..2 + LengthBytes(bytes[1])])
  }

  function MaskAt(bytes: seq<byte>, at: nat): (mask: Option<seq<byte>>)
    requires |bytes| >= 2 && |bytes| >= at + MaskBytes(bytes[1])
    ensures mask.Some? ==> |mask.value| == 4
  {
    if MaskBytes(bytes[1]) == 0 then None else Some(bytes[at..at + 4])
  }

  function CloseCode(opcode: byte, unmasked: seq<byte>): Option<nat> {
    if opcode == 8 && |unmasked| >= 2 then Some(BigEndian(unmasked[..2])) else None
  }

  function FrameOf(bytes: seq<byte>, lengthEnd: nat, len: nat): Frame
    requires |bytes| >= 2 && |bytes| >= lengthEnd + MaskBytes(bytes[1]) + len
  {
    var header := lengthEnd + MaskBytes(bytes[1]);
    var first := bytes[0];
    var unmasked := Unmask(bytes[header..header + len], MaskAt(bytes, lengthEnd));
    Frame(header + len, header, WebSocketFrame(
      first % 16, first >= 128, (first / 64) % 2 == 1, (first / 32) % 2 == 1, (first / 16) % 2 == 1,
      bytes[1] >= 128, first % 16 >= 8, len, CloseCode(first % 16, unmasked), unmasked))
  }

  function ParseWebSocketFrame(bytes: seq<byte>): (r: FrameParse)
    ensures r.Complete? ==> 0 < r.frame.headerLen <= r.frame.totalLen <= |bytes|
  {
    if |bytes| < 2 then Incomplete
    else
      var opcode := bytes[0] % 16;
      var control := opcode >= 8;
      var lengthEnd := 2 + LengthBytes(bytes[1]);
      if !KnownOpcode(opcode) then Invalid("unsupported websocket opcode")
      else if control && bytes[0] < 128 then Invalid("fragmented websocket control frame")
      else if |bytes| < lengthEnd then Incomplete
      else
        var len := PayloadLength(bytes);
        if control && len > 125 then Invalid("oversized websocket control frame")
        else if |bytes| < lengthEnd + MaskBytes(bytes[1]) then Incomplete
        else if |bytes| < lengthEnd + MaskBytes(bytes[1]) + len then Incomplete
        else Complete(FrameOf(bytes, lengthEnd, len))
  }

  function ParseTlsRecord(bytes: seq<byte>): (r: FrameParse)
    ensures r.Complete? ==> 0 < r.frame.headerLen <= r.frame.totalLen <= |bytes|
  {
    if |bytes| < 5 then Incomplete
    else if !(20 <= bytes[0] <= 23) then Invalid("unsupported tls content type")
    else if bytes[1] != 3 || bytes[2] > 4 then Invalid("unsupported tls record version")
    else
      var len := BigEndian(bytes[3..5]);
      if |bytes| < 5 + len then Incomplete
      else Complete(Frame(5 + len, 5, TlsRecord(bytes[0], bytes[1], bytes[2], len, bytes[5..5 + len])))
  }

  function Parse(p: Protocol, bytes: seq<byte>): (r: FrameParse)
    ensures r.Complete? ==> 0 < r.frame.headerLen <= r.frame.totalLen <= |bytes|
  {
    match p
    case Tls => ParseTlsRecord(bytes)
    case WebSocket => ParseWebSocketFrame(bytes)
  }

  lemma SamePart(bytes: seq<byte>, more: seq<byte>, i: nat, j: nat)
    requires bytes <= more && i <= j <= |bytes|
    ensures more[i..j] == bytes[i..j]
  {
  }

  /** What has been decided about a buffer stays decided when bytes arrive after it. */
  lemma ParseIsStable(p: Protocol, bytes: seq<byte>, more: seq<byte>)
    requires bytes <= more && Parse(p, bytes) != Incomplete
    ensures Parse(p, more) == Parse(p, bytes)
  {
    hide BigEndian, Unmask, CloseCode;
    match p
    case Tls =>
      SamePart(bytes, more, 3, 5);
      if Parse(p, bytes).Complete? {
        SamePart(bytes, more, 5, Parse(p, bytes).frame.totalLen);
      }
    case WebSocket =>
      assert more[0] == bytes[0] && more[1] == bytes[1];
      var lengthEnd := 2 + LengthBytes(bytes[1]);
      if lengthEnd <= |bytes| {
        SamePart(bytes, more, 2, lengthEnd);
        assert PayloadLength(more) == PayloadLength(bytes);
        if Parse(p, bytes).Complete? {
          SamePart(bytes, more, lengthEnd, lengthEnd + MaskBytes(bytes[1]));
          SamePart(bytes, more, lengthEnd + MaskBytes(bytes[1]), Parse(p, bytes).frame.totalLen);
        }
      }
  }
}
