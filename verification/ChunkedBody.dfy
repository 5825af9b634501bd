/**
 The chunked transfer coding of section 7.1 of RFC 9112, read by two decoders
 that share no code: the framer's scanner, which looks for the end of a body,
 and the transform's decoder, which collects its bytes.
 */
module ChunkedBody {
  import opened Bytes

  const USIZE_MAX: nat := 0xFFFF_FFFF_FFFF_FFFF
  const PLUS: byte := 43

  /** `len` bytes before the separator, `total` with it. */
  datatype Cut = Cut(len: nat, total: nat)

  /** The blank line that ends a head: CRLFCRLF anywhere before a bare LFLF. */
  function HeaderEnd(s: seq<byte>, from: nat): (r: Option<Cut>)
    ensures r.Some? ==> from <= r.value.len < r.value.total <= |s|
  {
    match Find(s, CRLF_CRLF, from)
    case Some(pos) => Some(Cut(pos, pos + 4))
    case None =>
      match Find(s, LF_LF, from)
      case Some(pos) => Some(Cut(pos, pos + 2))
      case None => None
  }

  /** The scanner's line end: a CRLF anywhere before a bare LF. */
  function LineEnd(s: seq<byte>, from: nat): (r: Option<Cut>)
    ensures r.Some? ==> from <= r.value.len < r.value.total <= |s|
  {
    match Find(s, CRLF, from)
    case Some(pos) => Some(Cut(pos, pos + 2))
    case None =>
      match Find(s, [LF], from)
      case Some(pos) => Some(Cut(pos, pos + 1))
      case None => None
  }

  /** The decoder's line end: the next LF, without a CR right before it. */
  function NextLine(s: seq<byte>, from: nat): (r: Option<Cut>)
    ensures r.Some? ==> from <= r.value.len < r.value.total <= |s|
  {
    match Find(s, [LF], from)
    case None => None
    case Some(newline) =>
      Some(Cut(if newline > from && s[newline - 1] == CR then newline - 1 else newline, newline + 1))
  }

  /** The length of the line break at `pos`, zero when there is none. */
  function Newline(s: seq<byte>, pos: nat): (length: nat)
    ensures length <= 2 && pos + length <= Max(pos, |s|)
  {
    if At(s, pos, CRLF) then 2 else if At(s, pos, [LF]) then 1 else 0
  }

  function HexValue(b: byte): Option<nat> {
    if 48 <= b <= 57 then Some(b - 48)
    else if 97 <= b <= 102 then Some(b - 87)
    else if 65 <= b <= 70 then Some(b - 55)
    else None
  }

  /** The sixteen digits, in either case. */
  lemma HexValueIs(b: byte)
    ensures HexValue(b).Some? ==> HexValue(b).value < 16
    ensures forall d: nat :: d < 16 ==>
              (HexValue(b) == Some(d) <==> b == "0123456789abcdef"[d] as byte || b == "0123456789ABCDEF"[d] as byte)
  {
  }

  /** The value of a string of hexadecimal digits. */
  function HexDigits(s: seq<byte>): Option<nat> {
    if s == [] then Some(0)
    else
      match (HexDigits(s[..|s| - 1]), HexValue(s[|s| - 1]))
      case (Some(high), Some(low)) => Some(16 * high + low)
      case _ => None
  }

  /** `usize::from_str_radix(token, 16)`: one leading plus is allowed, an empty number is not. */
  function ParseHex(token: seq<byte>): Option<nat> {
    var digits := if token != [] && token[0] == PLUS then token[1..] else token;
    if digits == [] then None
    else
      match HexDigits(digits)
      case Some(value) => if value <= USIZE_MAX then Some(value) else None
      case None => None
  }

  /** The bytes before the first `;`. */
  function BeforeSemicolon(line: seq<byte>): seq<byte> {
    match Find(line, [SEMICOLON], 0)
    case Some(pos) => line[..pos]
    case None => line
  }

  function WithoutWhitespace(s: seq<byte>): seq<byte> {
    if s == [] then []
    else (if IsAsciiWhitespace(s[0]) then [] else [s[0]]) + WithoutWhitespace(s[1..])
  }

  function TrimEnd(s: seq<byte>): seq<byte> {
    if s != [] && IsAsciiWhitespace(s[|s| - 1]) then TrimEnd(s[..|s| - 1]) else s
  }

  function TrimAscii(s: seq<byte>): seq<byte> {
    if s != [] && IsAsciiWhitespace(s[0]) then TrimAscii(s[1..]) else TrimEnd(s)
  }

  // ---------------------------------------------------------------------
  // The scanner

  datatype ChunkedBodyInfo = ChunkedBodyInfo(wireBytes: nat, decodedBytes: nat, chunks: nat, trailerBytes: nat)

  datatype ScanError = BadChunkSize | MissingChunkNewline

  datatype ChunkedBodyEnd = Complete(info: ChunkedBodyInfo) | Incomplete | Invalid(reason: ScanError)

  function ScannedSize(line: seq<byte>): Option<nat> {
    ParseHex(WithoutWhitespace(BeforeSemicolon(line)))
  }

  /** What the scanner says after the line of size zero. */
  function ScanTrailer(body: seq<byte>, position: nat, decoded: nat, chunks: nat): (r: ChunkedBodyEnd)
    ensures r.Complete? ==> r.info.wireBytes <= |body|
  {
    var blank := Newline(body, position);
    if blank != 0 then Complete(ChunkedBodyInfo(position + blank, decoded, chunks, blank))
    else
      match HeaderEnd(body, position)
      case Some(cut) => Complete(ChunkedBodyInfo(cut.total, decoded, chunks, cut.total - position))
      case None => Incomplete
  }

  /** What the scanner says from `position` on, with so many bytes and chunks counted before it. */
  function ScanFrom(body: seq<byte>, position: nat, decoded: nat, chunks: nat): (r: ChunkedBodyEnd)
    requires position <= |body|
    ensures r.Complete? ==> r.info.wireBytes <= |body|
    decreases |body| - position
  {
    match LineEnd(body, position)
    case None => Incomplete
    case Some(line) =>
      match ScannedSize(body[position..line.len])
      case None => Invalid(BadChunkSize)
      case Some(size) =>
        if size == 0 then ScanTrailer(body, line.total, decoded, chunks)
        else
          var after := line.total + size;
          if |body| < after + 1 then Incomplete
          else if Newline(body, after) == 0 then Invalid(MissingChunkNewline)
          else ScanFrom(body, after + Newline(body, after), decoded + size, chunks + 1)
  }

  function Scan(body: seq<byte>): (r: ChunkedBodyEnd)
    ensures r.Complete? ==> r.info.wireBytes <= |body|
  {
    ScanFrom(body, 0, 0, 0)
  }

  method FindChunkedBodyEnd(body: seq<byte>) returns (r: ChunkedBodyEnd)
    ensures r == Scan(body)
  {
    hide Find, LineEnd, ScanTrailer, ScannedSize, Newline;
    var position, decoded, chunks := 0, 0, 0;
    while true
      invariant position <= |body|
      invariant Scan(body) == ScanFrom(body, position, decoded, chunks)
      decreases |body| - position
    {
      var line := LineEnd(body, position);
      if line == None {
        return Incomplete;
      }
      var parsed := ScannedSize(body[position..line.value.len]);
      if parsed == None {
        return Invalid(BadChunkSize);
      }
      var size := parsed.value;
      position := line.value.total;
      if size == 0 {
        return ScanTrailer(body, position, decoded, chunks);
      }
      if |body| < position + size {
        return Incomplete;
      }
      decoded, chunks, position := decoded + size, chunks + 1, position + size;
      if |body| < position + 1 {
        return Incomplete;
      }
      var newline := Newline(body, position);
      if newline == 0 {
        return Invalid(MissingChunkNewline);
      }
      position := position + newline;
    }
  }

  // ---------------------------------------------------------------------
  // The decoder

  datatype ChunkedDecode = ChunkedDecode(
    bytes: seq<byte>, chunks: nat, truncatedByLimit: bool, partial: bool,
    reachedLastChunk: bool, trailingBytes: nat)

  datatype DecodeError = EmptySizeLine | BadSize | MissingNewline

  datatype DecodeResult = Decoded(decode: ChunkedDecode) | Failed(error: DecodeError)

  function AppendLimited(out: seq<byte>, bytes: seq<byte>, limit: nat): (r: seq<byte>)
    ensures |out| <= limit ==> |r| <= limit && r == (out + bytes)[..Min(limit, |out| + |bytes|)]
  {
    var remaining := Max(0, limit - |out|);
    out + bytes[..Min(|bytes|, remaining)]
  }

  function ParseChunkSize(line: seq<byte>): Option<nat> {
    ParseHex(TrimAscii(BeforeSemicolon(line)))
  }

  /** What the decoder returns from `offset` on, `done` being collected already. */
  function DecodeFrom(input: seq<byte>, limit: nat, offset: nat, done: ChunkedDecode): DecodeResult
    requires offset <= |input|
    decreases |input| - offset
  {
    match NextLine(input, offset)
    case None => Decoded(done.(partial := offset < |input|))
    case Some(cut) =>
      var line := TrimAscii(input[offset..cut.len]);
      if line == [] then Failed(EmptySizeLine)
      else
        match ParseChunkSize(line)
        case None => Failed(BadSize)
        case Some(size) =>
          if size == 0 then
            Decoded(done.(reachedLastChunk := true, trailingBytes := |input| - cut.total))
          else
            var take := Min(size, |input| - cut.total);
            var after := cut.total + take;
            var bytes := AppendLimited(done.bytes, input[cut.total..after], limit);
            var next := done.(bytes := bytes, chunks := done.chunks + 1,
                              truncatedByLimit := done.truncatedByLimit || |bytes| - |done.bytes| < take);
            if take < size then Decoded(next.(partial := true))
            else if Newline(input, after) == 0 then
              if after == |input| then Decoded(next.(partial := true)) else Failed(MissingNewline)
            else
              var offset' := after + Newline(input, after);
              if |bytes| >= limit then Decoded(next.(truncatedByLimit := offset' < |input|))
              else DecodeFrom(input, limit, offset', next)
  }

  const NOTHING_DECODED: ChunkedDecode := ChunkedDecode([], 0, false, false, false, 0)

  function Decode(input: seq<byte>, limit: nat): DecodeResult {
    DecodeFrom(input, limit, 0, NOTHING_DECODED)
  }

  method DecodeChunkedBody(input: seq<byte>, limit: nat) returns (r: DecodeResult)
    ensures r == Decode(input, limit)
  {
    hide Find, NextLine, TrimAscii, ParseChunkSize, Newline, AppendLimited;
    var bytes: seq<byte> := [];
    var offset, chunks, trailing := 0, 0, 0;
    var truncated, partial, reachedLast := false, false, false;
    while true
      invariant offset <= |input| && !partial && !reachedLast && trailing == 0
      invariant Decode(input, limit) ==
                DecodeFrom(input, limit, offset, ChunkedDecode(bytes, chunks, truncated, false, false, 0))
      decreases |input| - offset
    {
      var found := NextLine(input, offset);
      if found == None {
        partial := offset < |input|;
        break;
      }
      var line := TrimAscii(input[offset..found.value.len]);
      if line == [] {
        return Failed(EmptySizeLine);
      }
      var parsed := ParseChunkSize(line);
      if parsed == None {
        return Failed(BadSize);
      }
      var size := parsed.value;
      offset := found.value.total;
      if size == 0 {
        reachedLast, trailing := true, |input| - offset;
        break;
      }
      var take := Min(size, |input| - offset);
      var before := |bytes|;
      bytes := AppendLimited(bytes, input[offset..offset + take], limit);
      truncated := truncated || |bytes| - before < take;
      chunks, offset := chunks + 1, offset + take;
      if take < size {
        partial := true;
        break;
      }
      var newline := Newline(input, offset);
      if newline == 0 {
        if offset == |input| {
          partial := true;
          break;
        }
        return Failed(MissingNewline);
      }
      offset := offset + newline;
      if |bytes| >= limit {
        truncated := offset < |input|;
        break;
      }
    }
    return Decoded(ChunkedDecode(bytes, chunks, truncated, partial, reachedLast, trailing));
  }
}
