/**
 The HTTP/1 framer of one stream direction: bytes arrive in pieces, and are cut
 into messages with ordinals and logical ranges. Parsing the text of a head is a
 parameter, `Context.parseHead`, so every result holds for every head parser.
 */
module Http1Framer {
  import opened Bytes
  import Chunked = ChunkedBody

  datatype MessageKind = Request | Response | Unknown

  datatype MessageStatus = Complete | ParseError

  datatype BodyInfo = BodyInfo(
    framing: string, wireBytes: nat, normalizedBytes: Option<nat>,
    chunkCount: Option<nat>, trailerBytes: Option<nat>, transforms: seq<string>)

  datatype HeadInfo = HeadInfo(
    startLine: string, contentLength: Option<nat>, transferEncoding: Option<string>,
    contentEncoding: Option<string>, body: Option<BodyInfo>)

  datatype Head = Head(kind: MessageKind, summary: string, info: HeadInfo)

  datatype HeadResult = GoodHead(head: Head) | BadHead(reason: string)

  datatype Message = Message(
    status: MessageStatus, kind: MessageKind, ordinal: nat, summary: string,
    logicalStart: nat, logicalEnd: nat,
    headerStart: Option<nat>, headerEnd: Option<nat>, bodyStart: Option<nat>, bodyEnd: Option<nat>,
    wireBytes: nat, headerBytes: nat, bodyBytes: nat,
    http: Option<HeadInfo>, error: Option<string>)

  datatype Context = Context(maxHeaderBytes: nat, maxBufferBytes: nat, parseHead: seq<byte> -> HeadResult)

  /** A message whose body is still arriving. */
  datatype Pending = Pending(
    ordinal: nat, kind: MessageKind, summary: string, logicalStart: nat, headerEnd: nat,
    bodyStart: nat, bodyLen: nat, remaining: nat, http: HeadInfo)

  datatype State = State(
    buffer: seq<byte>, bufferStart: nat, nextLogical: nat, nextOrdinal: nat, pending: Option<Pending>)

  const INITIAL: State := State([], 0, 0, 0, None)

  /** A state and the messages emitted on the way to it. */
  datatype Outcome = Outcome(state: State, emitted: seq<Message>)

  // ---------------------------------------------------------------------
  // Recognising a message

  const SIGNATURES: seq<seq<byte>> := [
    [71, 69, 84],                     // GET
    [80, 79, 83, 84],                 // POST
    [80, 85, 84],                     // PUT
    [68, 69, 76, 69, 84, 69],         // DELETE
    [80, 65, 84, 67, 72],             // PATCH
    [72, 69, 65, 68],                 // HEAD
    [79, 80, 84, 73, 79, 78, 83],     // OPTIONS
    [84, 82, 65, 67, 69],             // TRACE
    [67, 79, 78, 78, 69, 67, 84],     // CONNECT
    [72, 84, 84, 80, 47]              // HTTP/
  ]

  predicate LooksLikeHttpPrefix(s: seq<byte>) {
    s != [] && exists i :: 0 <= i < |SIGNATURES| && (s <= SIGNATURES[i] || SIGNATURES[i] <= s)
  }

  function FindHttpStart(s: seq<byte>, from: nat): (r: Option<nat>)
    ensures r.Some? ==> from <= r.value < |s|
    decreases |s| - from
  {
    if from >= |s| then None
    else if LooksLikeHttpPrefix(s[from..]) then Some(from)
    else FindHttpStart(s, from + 1)
  }

  /** It is the first place from which on the bytes look like HTTP. */
  lemma {:induction false} HttpStartIs(s: seq<byte>, from: nat, at: nat)
    requires from <= at <= |s| && (at < |s| ==> LooksLikeHttpPrefix(s[at..]))
    requires forall j :: from <= j < at ==> !LooksLikeHttpPrefix(s[j..])
    ensures FindHttpStart(s, from) == if at < |s| then Some(at) else None
    decreases at - from
  {
    hide LooksLikeHttpPrefix;
    if from < at {
      HttpStartIs(s, from + 1, at);
    }
  }

  function Lower(s: string): string {
    seq(|s|, i requires 0 <= i < |s| => if 'A' <= s[i] <= 'Z' then (s[i] as int + 32) as char else s[i])
  }

  predicate OccursAt(s: string, i: nat, word: string) {
    i + |word| <= |s| && s[i..i + |word|] == word
  }

  predicate Contains(s: string, word: string) {
    exists i: nat | i <= |s| :: OccursAt(s, i, word)
  }

  datatype BodyFraming = NoBody | ContentLength(len: nat) | ChunkedCoding

  function FramingOf(head: Head): BodyFraming {
    if head.info.transferEncoding.Some? && Contains(Lower(head.info.transferEncoding.value), "chunked")
    then ChunkedCoding
    else
      match head.info.contentLength
      case Some(len) => ContentLength(len)
      case None => NoBody
  }

  predicate HasGzip(info: HeadInfo) {
    info.contentEncoding.Some? && Contains(Lower(info.contentEncoding.value), "gzip")
  }

  function Transforms(info: HeadInfo, chunked: bool): seq<string> {
    (if chunked then ["http_chunked"] else []) + (if HasGzip(info) then ["http_gzip"] else [])
  }

  function ContentLengthBody(info: HeadInfo, len: nat): Option<BodyInfo> {
    if len == 0 then None
    else Some(BodyInfo("content_length", len, if HasGzip(info) then None else Some(len), None, None,
                       Transforms(info, false)))
  }

  function ChunkedBodyOf(info: HeadInfo, body: Chunked.ChunkedBodyInfo): Option<BodyInfo> {
    Some(BodyInfo("chunked", body.wireBytes, Some(body.decodedBytes), Some(body.chunks), Some(body.trailerBytes),
                  Transforms(info, true)))
  }

  function ScanReason(reason: Chunked.ScanError): string {
    match reason
    case BadChunkSize => "invalid chunk size"
    case MissingChunkNewline => "chunk data is not followed by a newline"
  }

  // ---------------------------------------------------------------------
  // Building messages

  function BuildMessage(ordinal: nat, head: Head, logicalStart: nat, bodyStart: nat, bodyLen: nat): Message {
    var logicalEnd := bodyStart + bodyLen;
    Message(Complete, head.kind, ordinal, head.summary, logicalStart, logicalEnd,
            Some(logicalStart), Some(bodyStart), Some(bodyStart), Some(logicalEnd),
            SaturatingSub(logicalEnd, logicalStart), SaturatingSub(bodyStart, logicalStart), bodyLen,
            Some(head.info), None)
  }

  function Span(start: Option<nat>, end: Option<nat>): nat {
    if start.Some? && end.Some? then SaturatingSub(end.value, start.value) else 0
  }

  function FixContext(m: Message, consumed: nat): Message {
    m.(logicalEnd := m.logicalStart + consumed,
       wireBytes := consumed,
       headerBytes := Span(m.headerStart, m.headerEnd),
       bodyBytes := Span(m.bodyStart, m.bodyEnd))
  }

  /** Correcting a built message's context changes nothing when it consumed its head and its body. */
  lemma FixContextIsRedundant(ordinal: nat, head: Head, start: nat, bodyStart: nat, bodyLen: nat, consumed: nat)
    requires start <= bodyStart && start + consumed == bodyStart + bodyLen
    ensures FixContext(BuildMessage(ordinal, head, start, bodyStart, bodyLen), consumed)
            == BuildMessage(ordinal, head, start, bodyStart, bodyLen)
  {
  }

  /** And it puts right whatever else the context says. */
  lemma FixContextCorrects(m: Message, end: nat, wire: nat, headerBytes: nat, bodyBytes: nat, consumed: nat)
    ensures FixContext(m.(logicalEnd := end, wireBytes := wire, headerBytes := headerBytes, bodyBytes := bodyBytes), consumed)
            == FixContext(m, consumed)
  {
  }

  function CompletePending(p: Pending): Message {
    var logicalEnd := p.bodyStart + p.bodyLen;
    Message(Complete, p.kind, p.ordinal, p.summary, p.logicalStart, logicalEnd,
            Some(p.logicalStart), Some(p.headerEnd), Some(p.bodyStart), Some(logicalEnd),
            SaturatingSub(logicalEnd, p.logicalStart), SaturatingSub(p.headerEnd, p.logicalStart), p.bodyLen,
            Some(p.http), None)
  }

  function ErrorMessage(st: State, reason: string): Message {
    var start, end := st.bufferStart, st.bufferStart + |st.buffer|;
    Message(ParseError, Unknown, st.nextOrdinal, "HTTP/1 parse error", start, end,
            Some(start), Some(end), None, None, end - start, end - start, 0, None, Some(reason))
  }

  // ---------------------------------------------------------------------
  // The parser as a function of its state

  function ClearBuffer(st: State): State {
    st.(buffer := [], bufferStart := st.nextLogical)
  }

  function DrainFront(st: State, count: nat): State {
    if count >= |st.buffer| then ClearBuffer(st)
    else st.(buffer := st.buffer[count..], bufferStart := st.bufferStart + count)
  }

  function ResyncOrClear(st: State): State {
    match FindHttpStart(st.buffer, 1)
    case Some(offset) => DrainFront(st, offset)
    case None => ClearBuffer(st)
  }

  function Bump(st: State): State {
    st.(nextOrdinal := st.nextOrdinal + 1)
  }

  /** One turn of the parse loop; `again` when the loop goes on. */
  datatype Turn = Turn(state: State, emitted: seq<Message>, again: bool)

  /** The turn that has a whole head: `cut` is where it ends. */
  function HeadTurn(st: State, cut: Chunked.Cut, head: Head): (t: Turn)
    requires 0 <= cut.len < cut.total <= |st.buffer|
    ensures t.again ==> |t.state.buffer| < |st.buffer|
  {
    var bodyStart := st.bufferStart + cut.total;
    match FramingOf(head)
    case NoBody =>
      var m := BuildMessage(st.nextOrdinal, head, st.bufferStart, bodyStart, 0);
      Turn(DrainFront(Bump(st), cut.total), [FixContext(m, cut.total)], true)
    case ContentLength(len) =>
      var available := |st.buffer| - cut.total;
      var info := head.info.(body := ContentLengthBody(head.info, len));
      if len > available then
        var pending := Pending(st.nextOrdinal, head.kind, head.summary, st.bufferStart, bodyStart,
                               bodyStart, len, len - available, info);
        Turn(ClearBuffer(Bump(st)).(pending := Some(pending)), [], false)
      else
        var m := BuildMessage(st.nextOrdinal, head.(info := info), st.bufferStart, bodyStart, len);
        Turn(DrainFront(Bump(st), cut.total + len), [FixContext(m, cut.total + len)], true)
    case ChunkedCoding =>
      match Chunked.Scan(st.buffer[cut.total..])
      case Incomplete => Turn(st, [], false)
      case Invalid(reason) => Turn(DrainFront(Bump(st), cut.total), [ErrorMessage(st, ScanReason(reason))], true)
      case Complete(body) =>
        var info := head.info.(body := ChunkedBodyOf(head.info, body));
        var m := BuildMessage(st.nextOrdinal, head.(info := info), st.bufferStart, bodyStart, body.wireBytes);
        Turn(DrainFront(Bump(st), cut.total + body.wireBytes), [FixContext(m, cut.total + body.wireBytes)], true)
  }

  function ParseTurn(ctx: Context, st: State): (t: Turn)
    requires st.buffer != []
    ensures t.again ==> |t.state.buffer| < |st.buffer|
  {
    if !LooksLikeHttpPrefix(st.buffer) then Turn(ResyncOrClear(st), [], true)
    else if |st.buffer| > ctx.maxBufferBytes then
      Turn(ClearBuffer(Bump(st)), [ErrorMessage(st, "http message exceeded parser buffer limit")], false)
    else
      match Chunked.HeaderEnd(st.buffer, 0)
      case None =>
        if |st.buffer| > ctx.maxHeaderBytes then
          Turn(ClearBuffer(Bump(st)), [ErrorMessage(st, "http header exceeded parser limit")], false)
        else Turn(st, [], false)
      case Some(cut) =>
        match ctx.parseHead(st.buffer[..cut.len])
        case BadHead(reason) => Turn(DrainFront(Bump(st), cut.total), [ErrorMessage(st, reason)], true)
        case GoodHead(head) => HeadTurn(st, cut, head)
  }

  function ParseBuffer(ctx: Context, st: State): Outcome
    decreases |st.buffer|
  {
    if st.buffer == [] then Outcome(st, [])
    else
      var t := ParseTurn(ctx, st);
      if !t.again then Outcome(t.state, t.emitted)
      else
        var rest := ParseBuffer(ctx, t.state);
        Outcome(rest.state, t.emitted + rest.emitted)
  }

  /** Where the buffer starts once `input`, which lies at `inputStart`, is appended. */
  function Buffered(st: State, input: seq<byte>, inputStart: nat): State {
    if st.buffer != [] then st.(buffer := st.buffer + input)
    else
      match FindHttpStart(input, 0)
      case None => st
      case Some(start) => st.(buffer := input[start..], bufferStart := inputStart + start)
  }

  function AppendInput(ctx: Context, st: State, input: seq<byte>, inputStart: nat): Outcome {
    if st.buffer == [] && FindHttpStart(input, 0) == None then Outcome(st, [])
    else ParseBuffer(ctx, Buffered(st, input, inputStart))
  }

  /** The pending body takes its bytes first; what is left goes to the parser. */
  function Feed(ctx: Context, st: State, input: seq<byte>, inputStart: nat): Outcome
    decreases |input|, st.pending.Some?
  {
    if input == [] then Outcome(st, [])
    else
      match st.pending
      case None => AppendInput(ctx, st, input, inputStart)
      case Some(p) =>
        var consumed := Min(p.remaining, |input|);
        if consumed < p.remaining then
          Outcome(st.(pending := Some(p.(remaining := p.remaining - consumed))), [])
        else
          var rest := Feed(ctx, st.(pending := None), input[consumed..], inputStart + consumed);
          Outcome(rest.state, [CompletePending(p)] + rest.emitted)
  }

  function Push(ctx: Context, st: State, bytes: seq<byte>): Outcome {
    Feed(ctx, st.(nextLogical := st.nextLogical + |bytes|), bytes, st.nextLogical)
  }

  /** The pushes of a whole run, one after the other. */
  function PushAll(ctx: Context, st: State, pieces: seq<seq<byte>>): Outcome
    decreases |pieces|
  {
    if pieces == [] then Outcome(st, [])
    else
      var first := Push(ctx, st, pieces[0]);
      var rest := PushAll(ctx, first.state, pieces[1..]);
      Outcome(rest.state, first.emitted + rest.emitted)
  }
}
