/**
 Message boundaries do not depend on packet boundaries: on a stream of
 well-formed HTTP/1 messages the framer emits the same messages however TCP cuts
 the stream, and exactly the cuts that break this are named.
 */
module Http1Splits {
  import opened Bytes
  import opened Http1Framer
  import Chunked = ChunkedBody
  import Codec = ChunkedRoundTrip

  datatype WireBody = Plain(bytes: seq<byte>) | InChunks(body: Codec.Body)

  /** A message on the wire; `head` lacks the blank line that ends it. */
  datatype Wire = Wire(head: seq<byte>, body: WireBody) {
    function HeadBytes(): seq<byte> { head + CRLF_CRLF }

    function BodyBytes(): seq<byte> {
      match body
      case Plain(bytes) => bytes
      case InChunks(b) => Codec.Encode(b)
    }

    function Bytes(): seq<byte> { HeadBytes() + BodyBytes() }
  }

  /** A word occurs in a header value, in letters of any case. */
  ghost predicate Says(value: string, lower: string, upper: string)
    requires |lower| == |upper|
  {
    exists i: nat :: SaysAt(value, i, lower, upper)
  }

  predicate SaysAt(value: string, i: nat, lower: string, upper: string)
    requires |lower| == |upper|
  {
    i + |lower| <= |value| && forall k :: 0 <= k < |lower| ==> value[i + k] == lower[k] || value[i + k] == upper[k]
  }

  ghost predicate IsChunked(info: HeadInfo) {
    info.transferEncoding.Some? && Says(info.transferEncoding.value, "chunked", "CHUNKED")
  }

  ghost predicate IsGzipped(info: HeadInfo) {
    info.contentEncoding.Some? && Says(info.contentEncoding.value, "gzip", "GZIP")
  }

  /**
   The body that a head announces (section 6.3 of RFC 9112): in chunks if the chunked
   coding is named, whatever the length says; otherwise as many bytes as the
   Content-Length says; otherwise none.
   */
  ghost predicate BodyMatches(head: Head, body: WireBody) {
    if IsChunked(head.info) then body.InChunks? && body.body.Valid()
    else body.Plain? && |body.bytes| == if head.info.contentLength.Some? then head.info.contentLength.value else 0
  }

  /** How a request or a response starts (section 9.3 of RFC 9110, RFC 5789, section 2.3 of RFC 9112). */
  const STARTS: seq<string> :=
    ["GET", "POST", "PUT", "DELETE", "PATCH", "HEAD", "OPTIONS", "TRACE", "CONNECT", "HTTP/"]

  function Text(s: string): (bytes: seq<byte>)
    ensures |bytes| == |s|
  {
    seq(|s|, i requires 0 <= i < |s| => (s[i] as int) % 256)
  }

  lemma SignatureIs(i: nat)
    requires i < |STARTS|
    ensures |SIGNATURES| == |STARTS| && SIGNATURES[i] == Text(STARTS[i])
  {
  }

  /** What the framer takes for the start of a message: one of those words, or the start of one. */
  lemma LooksLikeIs(s: seq<byte>)
    ensures LooksLikeHttpPrefix(s) <==>
              s != [] && exists word :: word in STARTS && (s <= Text(word) || Text(word) <= s)
  {
    hide Text;
    forall i | 0 <= i < |STARTS|
      ensures |SIGNATURES| == |STARTS| && SIGNATURES[i] == Text(STARTS[i])
    {
      SignatureIs(i);
    }
    if word :| word in STARTS && (s <= Text(word) || Text(word) <= s) {
      var i :| 0 <= i < |STARTS| && STARTS[i] == word;
      assert SIGNATURES[i] == Text(word);
    }
    if LooksLikeHttpPrefix(s) {
      var i :| 0 <= i < |SIGNATURES| && (s <= SIGNATURES[i] || SIGNATURES[i] <= s);
      SignatureIs(0);
      assert STARTS[i] in STARTS;
    }
  }

  /**
   A message of sections 6.3 and 7.1 of RFC 9112: CRLF line ends, a head within
   the limit that starts like HTTP, and the body the head announces.
   */
  ghost predicate WellFormed(ctx: Context, m: Wire) {
    && (exists word :: word in STARTS && Text(word) <= m.HeadBytes())
    && (forall j: nat :: j < |m.head| ==> !At(m.HeadBytes(), j, CRLF_CRLF))
    && (forall j: nat :: !At(m.HeadBytes(), j, LF_LF))
    && |m.HeadBytes()| <= ctx.maxHeaderBytes + 1
    && ctx.parseHead(m.head).GoodHead?
    && BodyMatches(ctx.parseHead(m.head).head, m.body)
  }

  ghost predicate AllWellFormed(ctx: Context, ms: seq<Wire>) {
    forall m :: m in ms ==> WellFormed(ctx, m)
  }

  function Encode(ms: seq<Wire>): seq<byte> {
    if ms == [] then [] else ms[0].Bytes() + Encode(ms[1..])
  }

  // ---------------------------------------------------------------------
  // What has been emitted, and what is kept, after the first n bytes

  ghost function InfoOf(head: Head, body: WireBody): HeadInfo {
    var gzip := if IsGzipped(head.info) then ["http_gzip"] else [];
    match body
    case InChunks(b) =>
      head.info.(body := Some(BodyInfo("chunked", |Codec.Encode(b)|, Some(|Codec.Payload(b.chunks)|), Some(|b.chunks|),
                                       Some(|b.trailer.Wire()|), ["http_chunked"] + gzip)))
    case Plain(bytes) =>
      if head.info.contentLength.None? then head.info
      else if bytes == [] then head.info.(body := None)
      else
        var normalized := if IsGzipped(head.info) then None else Some(|bytes|);
        head.info.(body := Some(BodyInfo("content_length", |bytes|, normalized, None, None, gzip)))
  }

  ghost function TheMessage(ctx: Context, m: Wire, start: nat, ordinal: nat): Message
    requires WellFormed(ctx, m)
  {
    var head := ctx.parseHead(m.head).head;
    MessageOf(head, InfoOf(head, m.body), start, |m.HeadBytes()|, |m.BodyBytes()|, ordinal)
  }

  /** A complete message with a head and a body of so many bytes, one after the other. */
  function MessageOf(head: Head, info: HeadInfo, start: nat, headBytes: nat, bodyBytes: nat, ordinal: nat): Message {
    var middle, end := start + headBytes, start + headBytes + bodyBytes;
    Message(Complete, head.kind, ordinal, head.summary, start, end, Some(start), Some(middle), Some(middle), Some(end),
            headBytes + bodyBytes, headBytes, bodyBytes, Some(info), None)
  }

  lemma MessageIsBuilt(head: Head, info: HeadInfo, start: nat, headBytes: nat, bodyBytes: nat, ordinal: nat)
    ensures BuildMessage(ordinal, head.(info := info), start, start + headBytes, bodyBytes)
            == MessageOf(head, info, start, headBytes, bodyBytes, ordinal)
  {
  }

  // ---------------------------------------------------------------------
  // What a head announces

  lemma LowerIs(s: string, word: string, upper: string, i: nat)
    requires |word| == |upper| && forall k :: 0 <= k < |word| ==> 'a' <= word[k] <= 'z' && upper[k] as int == word[k] as int - 32
    ensures OccursAt(Lower(s), i, word) <==> SaysAt(s, i, word, upper)
  {
    if i + |word| <= |s| {
      var part := Lower(s)[i..i + |word|];
      assert forall k :: 0 <= k < |word| ==> part[k] == Lower(s)[i + k];
      assert forall k :: 0 <= k < |word| ==> (part[k] == word[k] <==> s[i + k] == word[k] || s[i + k] == upper[k]);
    }
  }

  lemma ContainsSays(s: string, word: string, upper: string)
    requires |word| == |upper| && forall k :: 0 <= k < |word| ==> 'a' <= word[k] <= 'z' && upper[k] as int == word[k] as int - 32
    ensures Contains(Lower(s), word) <==> Says(s, word, upper)
  {
    hide Lower, OccursAt, SaysAt;
    forall i: nat
      ensures OccursAt(Lower(s), i, word) <==> SaysAt(s, i, word, upper)
    {
      LowerIs(s, word, upper, i);
    }
    LowerLength(s);
    forall i: nat | SaysAt(s, i, word, upper)
      ensures i <= |Lower(s)|
    {
      SaysWithin(s, i, word, upper);
    }
  }

  lemma LowerLength(s: string)
    ensures |Lower(s)| == |s|
  {
  }

  lemma SaysWithin(s: string, i: nat, word: string, upper: string)
    requires |word| == |upper| && SaysAt(s, i, word, upper)
    ensures i <= |s|
  {
  }

  /** The framer finds out how the body is framed, and what the message will say of it. */
  lemma FramingIsAnnounced(head: Head)
    ensures FramingOf(head) == if IsChunked(head.info) then ChunkedCoding
                               else if head.info.contentLength.Some? then ContentLength(head.info.contentLength.value)
                               else NoBody
    ensures HasGzip(head.info) <==> IsGzipped(head.info)
  {
    hide Contains, Says, Lower;
    if head.info.transferEncoding.Some? {
      ContainsSays(head.info.transferEncoding.value, "chunked", "CHUNKED");
    }
    if head.info.contentEncoding.Some? {
      ContainsSays(head.info.contentEncoding.value, "gzip", "GZIP");
    }
  }

  lemma FramingMatches(head: Head, body: WireBody)
    requires BodyMatches(head, body)
    ensures FramingOf(head) == if body.InChunks? then ChunkedCoding
                               else if head.info.contentLength.Some? then ContentLength(|body.bytes|) else NoBody
    ensures body.InChunks? ==> body.body.Valid()
    ensures FramingOf(head).NoBody? ==> body == Plain([])
  {
    hide IsChunked, IsGzipped, HasGzip, FramingOf;
    FramingIsAnnounced(head);
  }

  lemma InfoIsBuilt(head: Head, body: WireBody)
    requires BodyMatches(head, body)
    ensures InfoOf(head, body)
            == if body.InChunks? then
                 var b := body.body;
                 head.info.(body := ChunkedBodyOf(head.info, Chunked.ChunkedBodyInfo(
                   |Codec.Encode(b)|, |Codec.Payload(b.chunks)|, |b.chunks|, |b.trailer.Wire()|)))
               else if FramingOf(head).ContentLength? then
                 head.info.(body := ContentLengthBody(head.info, |body.bytes|))
               else head.info
  {
    hide HasGzip, IsGzipped, IsChunked, FramingOf, Codec.Encode, Codec.Payload;
    FramingIsAnnounced(head);
    var gzip: seq<string> := if HasGzip(head.info) then ["http_gzip"] else [];
    assert [] + gzip == gzip;
  }

  ghost function ThePending(ctx: Context, m: Wire, start: nat, ordinal: nat, n: nat): Pending
    requires WellFormed(ctx, m) && n <= |m.Bytes()|
  {
    var head := ctx.parseHead(m.head).head;
    var bodyStart := start + |m.HeadBytes()|;
    Pending(ordinal, head.kind, head.summary, start, bodyStart, bodyStart, |m.BodyBytes()|, |m.Bytes()| - n,
            InfoOf(head, m.body))
  }

  /** What one unfinished message leaves behind: its first bytes, or the rest of its body to wait for. */
  ghost function Unfinished(ctx: Context, m: Wire, n: nat, start: nat, ordinal: nat): State
    requires WellFormed(ctx, m) && n < |m.Bytes()|
  {
    if n == 0 then State([], start, start, ordinal, None)
    else if m.body.Plain? && n >= |m.HeadBytes()| then
      State([], start + n, start + n, ordinal + 1, Some(ThePending(ctx, m, start, ordinal, n)))
    else State(m.Bytes()[..n], start, start + n, ordinal, None)
  }

  /** The messages wholly inside the first `n` bytes of the stream, and the state they leave. */
  ghost function Canonical(ctx: Context, ms: seq<Wire>, n: nat, start: nat, ordinal: nat): Outcome
    requires AllWellFormed(ctx, ms) && n <= |Encode(ms)|
  {
    if ms == [] then Outcome(State([], start, start, ordinal, None), [])
    else
      var size := |ms[0].Bytes()|;
      if n < size then Outcome(Unfinished(ctx, ms[0], n, start, ordinal), [])
      else
        var rest := Canonical(ctx, ms[1..], n - size, start + size, ordinal + 1);
        Outcome(rest.state, [TheMessage(ctx, ms[0], start, ordinal)] + rest.emitted)
  }

  /** Where an empty buffer starts is never read. */
  function Norm(st: State): State {
    if st.buffer == [] then st.(bufferStart := st.nextLogical) else st
  }

  predicate Same(r: Outcome, c: Outcome) {
    Norm(r.state) == c.state && r.emitted == c.emitted
  }

  /** The first `n` bytes do not end between the CR and the LF after a chunk's data. */
  predicate GoodCut(ms: seq<Wire>, n: nat) {
    ms == [] ||
    var m := ms[0];
    if n >= |m.Bytes()| then GoodCut(ms[1..], n - |m.Bytes()|)
    else m.body.InChunks? && n >= |m.HeadBytes()| ==> !Codec.SplitsNewline(m.body.body, n - |m.HeadBytes()|)
  }

  // ---------------------------------------------------------------------
  // Heads

  lemma LooksLikeHttp(ctx: Context, m: Wire, s: seq<byte>)
    requires WellFormed(ctx, m) && s != []
    requires s <= m.HeadBytes() || m.HeadBytes() <= s
    ensures LooksLikeHttpPrefix(s)
  {
    hide At;
    LooksLikeIs(s);
    var word :| word in STARTS && Text(word) <= m.HeadBytes();
    assert s <= Text(word) || Text(word) <= s;
  }

  lemma HeadFound(ctx: Context, m: Wire, s: seq<byte>)
    requires WellFormed(ctx, m) && m.HeadBytes() <= s
    ensures Chunked.HeaderEnd(s, 0) == Some(Chunked.Cut(|m.head|, |m.HeadBytes()|))
    ensures s[..|m.head|] == m.head
  {
    hide Find, At;
    var whole := m.HeadBytes();
    assert forall j :: 0 <= j < |whole| ==> s[j] == whole[j];
    forall j: nat | j <= |m.head|
      ensures At(s, j, CRLF_CRLF) <==> At(whole, j, CRLF_CRLF)
    {
      AtBytes(s, j, CRLF_CRLF);
      AtBytes(whole, j, CRLF_CRLF);
    }
    AtBytes(whole, |m.head|, CRLF_CRLF);
    FindIs(s, CRLF_CRLF, 0, |m.head|);
  }

  lemma HeadNotFound(ctx: Context, m: Wire, s: seq<byte>)
    requires WellFormed(ctx, m) && s < m.HeadBytes()
    ensures Chunked.HeaderEnd(s, 0) == None
  {
    hide Find, At;
    var whole := m.HeadBytes();
    assert forall j :: 0 <= j < |s| ==> s[j] == whole[j];
    forall j: nat
      ensures !At(s, j, CRLF_CRLF) && !At(s, j, LF_LF)
    {
      AtBytes(s, j, CRLF_CRLF);
      AtBytes(whole, j, CRLF_CRLF);
      AtBytes(s, j, LF_LF);
      AtBytes(whole, j, LF_LF);
    }
    FindNone(s, CRLF_CRLF, 0);
    FindNone(s, LF_LF, 0);
  }

  // ---------------------------------------------------------------------
  // One message in the buffer

  /** A buffer that starts with a whole message yields that message and is drained of it. */
  lemma WholeMessageTurn(ctx: Context, m: Wire, st: State)
    requires WellFormed(ctx, m) && m.Bytes() <= st.buffer && |st.buffer| <= ctx.maxBufferBytes
    ensures st.buffer != []
    ensures ParseTurn(ctx, st) == Turn(DrainFront(Bump(st), |m.Bytes()|),
                                       [TheMessage(ctx, m, st.bufferStart, st.nextOrdinal)], true)
  {
    hide Chunked.HeaderEnd, LooksLikeHttpPrefix, DrainFront, BodyMatches, HeadTurn, Find, At, FramingOf, MessageOf, InfoOf;
    assert m.HeadBytes() <= m.Bytes() <= st.buffer;
    LooksLikeHttp(ctx, m, st.buffer);
    HeadFound(ctx, m, st.buffer);
    var head := ctx.parseHead(m.head).head;
    var cut := Chunked.Cut(|m.head|, |m.HeadBytes()|);
    assert ParseTurn(ctx, st) == HeadTurn(st, cut, head);
    WholeMessageHeadTurn(m, st, head);
  }

  lemma WholeChunkedBody(m: Wire, s: seq<byte>)
    requires m.body.InChunks? && m.body.body.Valid() && m.Bytes() <= s
    ensures Chunked.Scan(s[|m.HeadBytes()|..]) == Chunked.Complete(Chunked.ChunkedBodyInfo(
      |m.BodyBytes()|, |Codec.Payload(m.body.body.chunks)|, |m.body.body.chunks|, |m.body.body.trailer.Wire()|))
  {
    hide Chunked.ScanFrom, Codec.Encode;
    var b := m.body.body;
    var rest := s[|m.HeadBytes()|..];
    assert rest[..|m.BodyBytes()|] == m.Bytes()[|m.HeadBytes()|..] == Codec.Encode(b);
    var tail := rest[|m.BodyBytes()|..];
    assert rest[0..] == rest == Codec.Encode(b) + tail;
    Codec.ScanEncoded(rest, 0, b, tail, 0, 0);
  }

  lemma WholeMessageHeadTurn(m: Wire, st: State, head: Head)
    requires BodyMatches(head, m.body) && m.Bytes() <= st.buffer
    ensures HeadTurn(st, Chunked.Cut(|m.head|, |m.HeadBytes()|), head)
            == Turn(DrainFront(Bump(st), |m.Bytes()|),
                    [MessageOf(head, InfoOf(head, m.body), st.bufferStart, |m.HeadBytes()|, |m.BodyBytes()|,
                               st.nextOrdinal)], true)
  {
    hide DrainFront, ContentLengthBody, ChunkedBodyOf, FramingOf, Chunked.Scan, BuildMessage, FixContext, Codec.Encode,
         BodyMatches, InfoOf, MessageOf;
    var total := |m.HeadBytes()|;
    var info := InfoOf(head, m.body);
    FramingMatches(head, m.body);
    InfoIsBuilt(head, m.body);
    MessageIsBuilt(head, info, st.bufferStart, total, |m.BodyBytes()|, st.nextOrdinal);
    FixContextIsRedundant(st.nextOrdinal, head.(info := info), st.bufferStart, st.bufferStart + total, |m.BodyBytes()|,
                          |m.Bytes()|);
    if m.body.InChunks? {
      WholeChunkedBody(m, st.buffer);
    } else if FramingOf(head).NoBody? {
      assert head.(info := head.info) == head;
    }
  }

  /** A buffer of some first bytes of one message, not cut badly, yields nothing and is kept or left pending. */
  lemma UnfinishedTurn(ctx: Context, m: Wire, st: State, n: nat)
    requires WellFormed(ctx, m) && 0 < n < |m.Bytes()| && st.buffer == m.Bytes()[..n] && n <= ctx.maxBufferBytes
    requires st.pending == None && st.nextLogical == st.bufferStart + n && GoodCut([m], n)
    ensures ParseTurn(ctx, st) == Turn(Unfinished(ctx, m, n, st.bufferStart, st.nextOrdinal), [], false)
  {
    hide Chunked.HeaderEnd, LooksLikeHttpPrefix, DrainFront, ContentLengthBody, ChunkedBodyOf, Find, At, FramingOf;
    hide Chunked.Scan;
    if n < |m.HeadBytes()| {
      assert st.buffer == m.HeadBytes()[..n];
      LooksLikeHttp(ctx, m, st.buffer);
      HeadNotFound(ctx, m, st.buffer);
    } else {
      assert m.HeadBytes() <= st.buffer;
      LooksLikeHttp(ctx, m, st.buffer);
      HeadFound(ctx, m, st.buffer);
      var head := ctx.parseHead(m.head).head;
      var cut := Chunked.Cut(|m.head|, |m.HeadBytes()|);
      assert ParseTurn(ctx, st) == HeadTurn(st, cut, head);
      CutBodyHeadTurn(ctx, m, st, n);
    }
  }

  lemma CutBodyHeadTurn(ctx: Context, m: Wire, st: State, n: nat)
    requires WellFormed(ctx, m) && |m.HeadBytes()| <= n < |m.Bytes()| && st.buffer == m.Bytes()[..n]
    requires st.pending == None && st.nextLogical == st.bufferStart + n
    ensures var t := HeadTurn(st, Chunked.Cut(|m.head|, |m.HeadBytes()|), ctx.parseHead(m.head).head);
            if GoodCut([m], n) then t == Turn(Unfinished(ctx, m, n, st.bufferStart, st.nextOrdinal), [], false)
            else |t.emitted| == 1 && t.emitted[0].status.ParseError?
  {
    hide DrainFront, ContentLengthBody, ChunkedBodyOf, FramingOf, Chunked.ScanFrom, Find, At, BodyMatches, InfoOf,
         LooksLikeHttpPrefix;
    var total := |m.HeadBytes()|;
    assert [m][1..] == [];
    FramingMatches(ctx.parseHead(m.head).head, m.body);
    InfoIsBuilt(ctx.parseHead(m.head).head, m.body);
    match m.body
    case Plain(bytes) =>
    case InChunks(b) =>
      var rest := st.buffer[total..];
      assert rest == Codec.Encode(b)[..n - total];
      assert rest[0..] == rest;
      Codec.ScanCut(rest, 0, b, 0, 0);
  }

  // ---------------------------------------------------------------------
  // A prefix of the stream in the buffer

  ghost predicate HasError(log: seq<Message>) {
    exists i :: 0 <= i < |log| && log[i].status.ParseError?
  }

  lemma EncodeFirst(ms: seq<Wire>, n: nat)
    requires ms != [] && n <= |Encode(ms)|
    ensures Encode(ms) == ms[0].Bytes() + Encode(ms[1..])
    ensures n <= |ms[0].Bytes()| ==> Encode(ms)[..n] == ms[0].Bytes()[..n]
    ensures n >= |ms[0].Bytes()| ==>
              && ms[0].Bytes() <= Encode(ms)[..n]
              && Encode(ms)[..n][|ms[0].Bytes()|..] == Encode(ms[1..])[..n - |ms[0].Bytes()|]
  {
    CutConcatenation(ms[0].Bytes(), Encode(ms[1..]), n);
  }

  lemma OverflowTurn(ctx: Context, m: Wire, st: State)
    requires WellFormed(ctx, m) && st.buffer != [] && |st.buffer| > ctx.maxBufferBytes
    requires st.buffer <= m.HeadBytes() || m.HeadBytes() <= st.buffer
    ensures HasError(ParseBuffer(ctx, st).emitted)
  {
    hide LooksLikeHttpPrefix, ClearBuffer, At, Chunked.HeaderEnd, HeadTurn;
    LooksLikeHttp(ctx, m, st.buffer);
    assert ParseBuffer(ctx, st).emitted[0].status.ParseError?;
  }

  lemma BadCutTurn(ctx: Context, m: Wire, st: State, n: nat)
    requires WellFormed(ctx, m) && 0 < n < |m.Bytes()| && st.buffer == m.Bytes()[..n] && n <= ctx.maxBufferBytes
    requires st.pending == None && st.nextLogical == st.bufferStart + n && !GoodCut([m], n)
    ensures HasError(ParseBuffer(ctx, st).emitted)
  {
    hide LooksLikeHttpPrefix, At, Chunked.HeaderEnd, HeadTurn;
    assert m.HeadBytes() <= st.buffer;
    LooksLikeHttp(ctx, m, st.buffer);
    HeadFound(ctx, m, st.buffer);
    CutBodyHeadTurn(ctx, m, st, n);
    assert ParseBuffer(ctx, st).emitted[0].status.ParseError?;
  }

  lemma NothingArrived(ctx: Context, ms: seq<Wire>, start: nat, ordinal: nat)
    requires AllWellFormed(ctx, ms)
    ensures GoodCut(ms, 0)
    ensures Canonical(ctx, ms, 0, start, ordinal) == Outcome(State([], start, start, ordinal, None), [])
  {
    hide WellFormed;
    assert ms != [] ==> ms[0] in ms;
  }

  lemma CanonicalUnfinished(ctx: Context, ms: seq<Wire>, n: nat, start: nat, ordinal: nat)
    requires AllWellFormed(ctx, ms) && ms != [] && n < |ms[0].Bytes()| && n <= |Encode(ms)|
    ensures WellFormed(ctx, ms[0])
    ensures Canonical(ctx, ms, n, start, ordinal) == Outcome(Unfinished(ctx, ms[0], n, start, ordinal), [])
  {
    hide WellFormed;
    assert ms[0] in ms;
  }

  lemma CanonicalStep(ctx: Context, ms: seq<Wire>, n: nat, start: nat, ordinal: nat)
    requires AllWellFormed(ctx, ms) && ms != [] && |ms[0].Bytes()| <= n <= |Encode(ms)|
    ensures n - |ms[0].Bytes()| <= |Encode(ms[1..])| && AllWellFormed(ctx, ms[1..]) && WellFormed(ctx, ms[0])
    ensures GoodCut(ms, n) == GoodCut(ms[1..], n - |ms[0].Bytes()|)
    ensures var rest := Canonical(ctx, ms[1..], n - |ms[0].Bytes()|, start + |ms[0].Bytes()|, ordinal + 1);
            Canonical(ctx, ms, n, start, ordinal)
            == Outcome(rest.state, [TheMessage(ctx, ms[0], start, ordinal)] + rest.emitted)
  {
    hide WellFormed, TheMessage, Unfinished;
    assert ms[0] in ms;
  }

  lemma ErrorStays(log: seq<Message>, more: seq<Message>)
    ensures HasError(more) ==> HasError(log + more)
  {
    if i :| 0 <= i < |more| && more[i].status.ParseError? {
      assert (log + more)[|log| + i] == more[i];
    }
  }

  lemma ParseWhole(ctx: Context, m: Wire, st: State)
    requires WellFormed(ctx, m) && m.Bytes() <= st.buffer && |st.buffer| <= ctx.maxBufferBytes
    ensures var rest := ParseBuffer(ctx, DrainFront(Bump(st), |m.Bytes()|));
            ParseBuffer(ctx, st)
            == Outcome(rest.state, [TheMessage(ctx, m, st.bufferStart, st.nextOrdinal)] + rest.emitted)
  {
    hide WellFormed, TheMessage, ParseTurn, DrainFront;
    WholeMessageTurn(ctx, m, st);
  }

  lemma ParseUnfinished(ctx: Context, ms: seq<Wire>, n: nat, st: State)
    requires AllWellFormed(ctx, ms) && ms != [] && WellFormed(ctx, ms[0])
    requires 0 < n < |ms[0].Bytes()| && n <= ctx.maxBufferBytes && st.buffer == ms[0].Bytes()[..n]
    requires st.pending == None && st.nextLogical == st.bufferStart + n
    ensures var r := ParseBuffer(ctx, st);
            if GoodCut(ms, n) then r == Outcome(Unfinished(ctx, ms[0], n, st.bufferStart, st.nextOrdinal), [])
            else HasError(r.emitted)
  {
    hide WellFormed, Unfinished, ParseTurn, HasError, Codec.SplitsNewline;
    var m := ms[0];
    assert GoodCut(ms, n) == GoodCut([m], n);
    if GoodCut(ms, n) {
      UnfinishedTurn(ctx, m, st, n);
    } else {
      BadCutTurn(ctx, m, st, n);
    }
  }

  /** Draining a whole message leaves a prefix of the rest of the stream. */
  lemma DrainedPrefix(ms: seq<Wire>, n: nat, st: State)
    requires ms != [] && |ms[0].Bytes()| <= n <= |Encode(ms)| && st.buffer == Encode(ms)[..n]
    requires st.pending == None && st.nextLogical == st.bufferStart + n
    ensures ms[0].Bytes() <= st.buffer
    ensures var next := DrainFront(Bump(st), |ms[0].Bytes()|);
            var left := n - |ms[0].Bytes()|;
            && left <= |Encode(ms[1..])| && next.buffer == Encode(ms[1..])[..left]
            && next.pending == None && next.nextLogical == st.nextLogical && next.nextOrdinal == st.nextOrdinal + 1
            && (left > 0 ==> next.nextLogical == next.bufferStart + left)
  {
    hide Encode;
    EncodeFirst(ms, n);
  }

  lemma NormUnfinished(ctx: Context, m: Wire, n: nat, start: nat, ordinal: nat)
    requires WellFormed(ctx, m) && n < |m.Bytes()|
    ensures Norm(Unfinished(ctx, m, n, start, ordinal)) == Unfinished(ctx, m, n, start, ordinal)
  {
    hide WellFormed, ThePending;
  }

  /** Parsing a prefix of the stream gives the canonical messages and state, unless it is cut badly. */
  lemma {:induction false} ParseCanonical(ctx: Context, ms: seq<Wire>, n: nat, st: State)
    requires AllWellFormed(ctx, ms) && n <= |Encode(ms)| && n <= ctx.maxBufferBytes
    requires st.pending == None && st.buffer == Encode(ms)[..n]
    requires n > 0 ==> st.nextLogical == st.bufferStart + n
    ensures var r := ParseBuffer(ctx, st);
            if GoodCut(ms, n) then n <= st.nextLogical && Same(r, Canonical(ctx, ms, n, st.nextLogical - n, st.nextOrdinal))
            else HasError(r.emitted)
  {
    hide ParseTurn, WellFormed, TheMessage, Unfinished, Canonical, GoodCut, HasError, DrainFront;
    if n == 0 {
      NothingArrived(ctx, ms, st.nextLogical, st.nextOrdinal);
    } else {
      hide ParseBuffer;
      assert ms != [];
      hide Encode;
      EncodeFirst(ms, n);
      if n < |ms[0].Bytes()| {
        CanonicalUnfinished(ctx, ms, n, st.bufferStart, st.nextOrdinal);
        NormUnfinished(ctx, ms[0], n, st.bufferStart, st.nextOrdinal);
        ParseUnfinished(ctx, ms, n, st);
      } else {
        CanonicalStep(ctx, ms, n, st.bufferStart, st.nextOrdinal);
        DrainedPrefix(ms, n, st);
        ParseWhole(ctx, ms[0], st);
        var next := DrainFront(Bump(st), |ms[0].Bytes()|);
        ParseCanonical(ctx, ms[1..], n - |ms[0].Bytes()|, next);
        ErrorStays([TheMessage(ctx, ms[0], st.bufferStart, st.nextOrdinal)], ParseBuffer(ctx, next).emitted);
      }
    }
  }

  // ---------------------------------------------------------------------
  // One push

  /** What `piece` leaves of a pending body's need, and what it adds to the buffer, is within the limit. */
  predicate Fits(ctx: Context, st: State, piece: seq<byte>) {
    match st.pending
    case Some(p) => |piece| <= p.remaining + ctx.maxBufferBytes
    case None => |st.buffer| + |piece| <= ctx.maxBufferBytes
  }

  lemma StreamLooksLikeHttp(ctx: Context, ms: seq<Wire>, s: seq<byte>)
    requires AllWellFormed(ctx, ms) && s != [] && s <= Encode(ms)
    ensures ms != [] && WellFormed(ctx, ms[0])
    ensures s <= ms[0].HeadBytes() || ms[0].HeadBytes() <= s
    ensures FindHttpStart(s, 0) == Some(0)
  {
    hide WellFormed, LooksLikeHttpPrefix;
    var m := ms[0];
    assert m in ms;
    assert m.HeadBytes() <= Encode(ms);
    LooksLikeHttp(ctx, m, s);
    assert s[0..] == s;
  }

  /** Input that starts a message, with nothing buffered and nothing pending. */
  lemma FeedFresh(ctx: Context, ms: seq<Wire>, st: State, input: seq<byte>, start: nat)
    requires AllWellFormed(ctx, ms) && input <= Encode(ms)
    requires st.buffer == [] && st.pending == None && st.nextLogical == start + |input|
    ensures var r := Feed(ctx, st, input, start);
            if |input| <= ctx.maxBufferBytes && GoodCut(ms, |input|)
            then Same(r, Canonical(ctx, ms, |input|, start, st.nextOrdinal))
            else HasError(r.emitted)
  {
    hide ParseBuffer, GoodCut, FindHttpStart, WellFormed, Canonical, Encode, HasError;
    if input == [] {
      NothingArrived(ctx, ms, start, st.nextOrdinal);
    } else {
      StreamLooksLikeHttp(ctx, ms, input);
      var buffered := Buffered(st, input, start);
      assert input[0..] == input;
      assert Encode(ms)[..|input|] == input;
      if |input| <= ctx.maxBufferBytes {
        ParseCanonical(ctx, ms, |input|, buffered);
      } else {
        OverflowTurn(ctx, ms[0], buffered);
      }
    }
  }

  /** What one push of `piece` after `n` bytes should do, and when it does not. */
  ghost predicate PushOk(ctx: Context, ms: seq<Wire>, n: nat, start: nat, ordinal: nat, piece: seq<byte>, r: Outcome)
    requires AllWellFormed(ctx, ms) && n + |piece| <= |Encode(ms)|
  {
    var before := Canonical(ctx, ms, n, start, ordinal);
    var after := Canonical(ctx, ms, n + |piece|, start, ordinal);
    if Fits(ctx, before.state, piece) && GoodCut(ms, n + |piece|)
    then Norm(r.state) == after.state && before.emitted + r.emitted == after.emitted
    else HasError(r.emitted)
  }

  lemma PendingCompletes(ctx: Context, m: Wire, n: nat, start: nat, ordinal: nat)
    requires WellFormed(ctx, m) && |m.HeadBytes()| <= n < |m.Bytes()| && m.body.Plain?
    ensures CompletePending(ThePending(ctx, m, start, ordinal, n)) == TheMessage(ctx, m, start, ordinal)
  {
    hide ContentLengthBody, ChunkedBodyOf, FramingOf, At;
  }

  /** What a state that waits for the rest of a body knows, and what it will emit. */
  lemma PendingShape(ctx: Context, m: Wire, n: nat, st: State, start: nat, ordinal: nat)
    requires WellFormed(ctx, m) && n < |m.Bytes()|
    requires Norm(st) == Unfinished(ctx, m, n, start, ordinal) && st.pending.Some?
    ensures st.pending.value.remaining == |m.Bytes()| - n
    ensures st.buffer == [] && st.nextLogical == start + n && st.nextOrdinal == ordinal + 1
    ensures CompletePending(st.pending.value) == TheMessage(ctx, m, start, ordinal)
  {
    hide WellFormed, TheMessage, CompletePending, InfoOf;
    PendingCompletes(ctx, m, n, start, ordinal);
  }

  lemma PushInsideBody(ctx: Context, st: State, piece: seq<byte>)
    requires piece != [] && st.pending.Some? && |piece| < st.pending.value.remaining
    ensures var p := st.pending.value;
            Push(ctx, st, piece) == Outcome(st.(nextLogical := st.nextLogical + |piece|,
                                                pending := Some(p.(remaining := p.remaining - |piece|))), [])
  {
    hide AppendInput;
  }

  /** A piece that stays inside a body makes the wait for it shorter. */
  lemma PushShort(ctx: Context, ms: seq<Wire>, n: nat, st: State, start: nat, ordinal: nat, piece: seq<byte>)
    requires AllWellFormed(ctx, ms) && ms != [] && n + |piece| < |ms[0].Bytes()| && n + |piece| <= |Encode(ms)|
    requires piece != [] && Norm(st) == Unfinished(ctx, ms[0], n, start, ordinal) && st.pending.Some?
    ensures PushOk(ctx, ms, n, start, ordinal, piece, Push(ctx, st, piece))
  {
    hide WellFormed, HasError, InfoOf, Canonical, Push, Encode;
    CanonicalUnfinished(ctx, ms, n, start, ordinal);
    CanonicalUnfinished(ctx, ms, n + |piece|, start, ordinal);
    PushInsideBody(ctx, st, piece);
  }

  lemma PushEndsBody(ctx: Context, st: State, piece: seq<byte>)
    requires piece != [] && st.pending.Some? && st.pending.value.remaining <= |piece|
    ensures var p := st.pending.value;
            var rest := Feed(ctx, st.(nextLogical := st.nextLogical + |piece|, pending := None),
                             piece[p.remaining..], st.nextLogical + p.remaining);
            Push(ctx, st, piece) == Outcome(rest.state, [CompletePending(p)] + rest.emitted)
  {
    hide AppendInput, CompletePending;
  }

  lemma LeftStartsNext(ms: seq<Wire>, n: nat, piece: seq<byte>)
    requires ms != [] && n < |ms[0].Bytes()| <= n + |piece| <= |Encode(ms)|
    requires piece == Encode(ms)[n..n + |piece|]
    ensures piece[|ms[0].Bytes()| - n..] <= Encode(ms[1..])
  {
    hide *;
    EncodeFirst(ms, n + |piece|);
    EndOfPart(Encode(ms), n, n + |piece|, |ms[0].Bytes()|);
  }

  lemma EndOfPart(s: seq<byte>, from: nat, to: nat, middle: nat)
    requires from <= middle <= to <= |s|
    ensures s[from..to][middle - from..] == s[..to][middle..]
  {
  }

  /** A piece that ends a body emits its message, and the rest of the piece starts the next one. */
  lemma PushPending(ctx: Context, ms: seq<Wire>, n: nat, st: State, start: nat, ordinal: nat, piece: seq<byte>)
    requires AllWellFormed(ctx, ms) && ms != [] && n < |ms[0].Bytes()| <= n + |piece| <= |Encode(ms)|
    requires piece != [] && piece == Encode(ms)[n..n + |piece|]
    requires Norm(st) == Canonical(ctx, ms, n, start, ordinal).state && st.pending.Some?
    ensures PushOk(ctx, ms, n, start, ordinal, piece, Push(ctx, st, piece))
  {
    hide *;
    CanonicalUnfinished(ctx, ms, n, start, ordinal);
    PendingShape(ctx, ms[0], n, st, start, ordinal);
    CanonicalStep(ctx, ms, n + |piece|, start, ordinal);
    LeftStartsNext(ms, n, piece);
    PushEndsBody(ctx, st, piece);
    var left := piece[st.pending.value.remaining..];
    var next := st.(nextLogical := st.nextLogical + |piece|, pending := None);
    FeedFresh(ctx, ms[1..], next, left, start + |ms[0].Bytes()|);
    PendingPushOk(ctx, ms, n, st, start, ordinal, piece, Feed(ctx, next, left, start + |ms[0].Bytes()|));
  }

  lemma PendingPushOk(
    ctx: Context, ms: seq<Wire>, n: nat, st: State, start: nat, ordinal: nat, piece: seq<byte>, rest: Outcome)
    requires AllWellFormed(ctx, ms) && ms != [] && WellFormed(ctx, ms[0]) && AllWellFormed(ctx, ms[1..])
    requires n < |ms[0].Bytes()| <= n + |piece| <= |Encode(ms)|
    requires n + |piece| - |ms[0].Bytes()| <= |Encode(ms[1..])|
    requires st.pending.Some? && st.pending.value.remaining == |ms[0].Bytes()| - n
    requires Norm(st) == Canonical(ctx, ms, n, start, ordinal).state
    requires Canonical(ctx, ms, n, start, ordinal).emitted == []
    requires var left := n + |piece| - |ms[0].Bytes()|;
             if left <= ctx.maxBufferBytes && GoodCut(ms[1..], left)
             then Same(rest, Canonical(ctx, ms[1..], left, start + |ms[0].Bytes()|, ordinal + 1))
             else HasError(rest.emitted)
    ensures PushOk(ctx, ms, n, start, ordinal, piece,
                   Outcome(rest.state, [TheMessage(ctx, ms[0], start, ordinal)] + rest.emitted))
  {
    hide WellFormed, HasError, Canonical, GoodCut, TheMessage, Encode;
    CanonicalStep(ctx, ms, n + |piece|, start, ordinal);
    var first := [TheMessage(ctx, ms[0], start, ordinal)];
    ErrorStays(first, rest.emitted);
    assert [] + (first + rest.emitted) == first + rest.emitted;
  }

  lemma PushBetween(ctx: Context, ms: seq<Wire>, st: State, start: nat, ordinal: nat, piece: seq<byte>)
    requires AllWellFormed(ctx, ms) && piece != [] && piece <= Encode(ms)
    requires st.buffer == [] && st.pending == None && st.nextLogical == start && st.nextOrdinal == ordinal
    ensures PushOk(ctx, ms, 0, start, ordinal, piece, Push(ctx, st, piece))
  {
    hide Feed, WellFormed, HasError, Canonical, GoodCut;
    NothingArrived(ctx, ms, start, ordinal);
    FeedFresh(ctx, ms, st.(nextLogical := st.nextLogical + |piece|), piece, start);
    var r := Push(ctx, st, piece);
    assert [] + r.emitted == r.emitted;
  }

  lemma PushBuffered(ctx: Context, ms: seq<Wire>, n: nat, st: State, start: nat, ordinal: nat, piece: seq<byte>)
    requires AllWellFormed(ctx, ms) && ms != [] && 0 < n < |ms[0].Bytes()| && n + |piece| <= |Encode(ms)|
    requires piece != [] && piece == Encode(ms)[n..n + |piece|]
    requires Norm(st) == Unfinished(ctx, ms[0], n, start, ordinal) && st.pending == None
    ensures PushOk(ctx, ms, n, start, ordinal, piece, Push(ctx, st, piece))
  {
    hide ParseBuffer, WellFormed, HasError, Canonical, FindHttpStart, GoodCut, ThePending, Encode;
    CanonicalUnfinished(ctx, ms, n, start, ordinal);
    EncodeFirst(ms, n);
    var buffered := st.(nextLogical := st.nextLogical + |piece|, buffer := st.buffer + piece);
    assert buffered.buffer == Encode(ms)[..n + |piece|];
    var r := ParseBuffer(ctx, buffered);
    assert Push(ctx, st, piece) == r;
    assert [] + r.emitted == r.emitted;
    if n + |piece| <= ctx.maxBufferBytes {
      ParseCanonical(ctx, ms, n + |piece|, buffered);
    } else {
      StreamLooksLikeHttp(ctx, ms, buffered.buffer);
      OverflowTurn(ctx, ms[0], buffered);
    }
  }

  /** Messages already emitted do not change what a push does. */
  lemma PushOkLater(ctx: Context, ms: seq<Wire>, n: nat, start: nat, ordinal: nat, piece: seq<byte>, r: Outcome)
    requires AllWellFormed(ctx, ms) && ms != [] && |ms[0].Bytes()| <= n && n + |piece| <= |Encode(ms)|
    requires AllWellFormed(ctx, ms[1..]) && n - |ms[0].Bytes()| + |piece| <= |Encode(ms[1..])|
    requires PushOk(ctx, ms[1..], n - |ms[0].Bytes()|, start + |ms[0].Bytes()|, ordinal + 1, piece, r)
    ensures PushOk(ctx, ms, n, start, ordinal, piece, r)
  {
    hide Canonical, GoodCut, WellFormed, HasError, TheMessage, Encode;
    CanonicalStep(ctx, ms, n, start, ordinal);
    CanonicalStep(ctx, ms, n + |piece|, start, ordinal);
    var m := [TheMessage(ctx, ms[0], start, ordinal)];
    var before := Canonical(ctx, ms[1..], n - |ms[0].Bytes()|, start + |ms[0].Bytes()|, ordinal + 1).emitted;
    assert m + before + r.emitted == m + (before + r.emitted);
  }

  lemma PushUnfinished(ctx: Context, ms: seq<Wire>, n: nat, st: State, start: nat, ordinal: nat, piece: seq<byte>)
    requires AllWellFormed(ctx, ms) && ms != [] && n < |ms[0].Bytes()| && n + |piece| <= |Encode(ms)|
    requires piece != [] && piece == Encode(ms)[n..n + |piece|]
    requires Norm(st) == Canonical(ctx, ms, n, start, ordinal).state
    ensures PushOk(ctx, ms, n, start, ordinal, piece, Push(ctx, st, piece))
  {
    hide Push, WellFormed, HasError, Canonical, PushOk, GoodCut, Encode, ThePending;
    CanonicalUnfinished(ctx, ms, n, start, ordinal);
    if st.pending.Some? {
      if n + |piece| < |ms[0].Bytes()| {
        PushShort(ctx, ms, n, st, start, ordinal, piece);
      } else {
        PushPending(ctx, ms, n, st, start, ordinal, piece);
      }
    } else if n == 0 {
      PushBetween(ctx, ms, st, start, ordinal, piece);
    } else {
      PushBuffered(ctx, ms, n, st, start, ordinal, piece);
    }
  }

  /** A piece behind the first message is a piece of the others. */
  lemma PieceOfRest(ms: seq<Wire>, n: nat, piece: seq<byte>)
    requires ms != [] && n >= |ms[0].Bytes()| && n + |piece| <= |Encode(ms)| && piece == Encode(ms)[n..n + |piece|]
    ensures var left := n - |ms[0].Bytes()|;
            left + |piece| <= |Encode(ms[1..])| && piece == Encode(ms[1..])[left..left + |piece|]
  {
    hide Wire.Bytes;
    var first, rest := ms[0].Bytes(), Encode(ms[1..]);
    assert Encode(ms) == first + rest;
    assert (first + rest)[|first|..] == rest;
    SliceOfPart(first + rest, |first|, rest, n - |first|, n - |first| + |piece|);
  }

  /** A push takes one canonical state to the next, exactly when it fits and does not end in a bad place. */
  lemma {:induction false} PushCanonical(
    ctx: Context, ms: seq<Wire>, n: nat, st: State, start: nat, ordinal: nat, piece: seq<byte>)
    requires AllWellFormed(ctx, ms) && n + |piece| <= |Encode(ms)|
    requires piece != [] && piece == Encode(ms)[n..n + |piece|]
    requires Norm(st) == Canonical(ctx, ms, n, start, ordinal).state
    ensures PushOk(ctx, ms, n, start, ordinal, piece, Push(ctx, st, piece))
  {
    hide Push, WellFormed, HasError, TheMessage, Canonical, PushOk, GoodCut;
    assert ms != [];
    hide Encode, Norm;
    var size := |ms[0].Bytes()|;
    if n < size {
      PushUnfinished(ctx, ms, n, st, start, ordinal, piece);
    } else {
      CanonicalStep(ctx, ms, n, start, ordinal);
      PieceOfRest(ms, n, piece);
      PushCanonical(ctx, ms[1..], n - size, st, start + size, ordinal + 1, piece);
      PushOkLater(ctx, ms, n, start, ordinal, piece, Push(ctx, st, piece));
    }
  }

  // ---------------------------------------------------------------------
  // Whole runs

  function Concat(pieces: seq<seq<byte>>): seq<byte> {
    if pieces == [] then [] else pieces[0] + Concat(pieces[1..])
  }

  /** Every piece fits when it arrives, and none ends between the CR and the LF after a chunk's data. */
  ghost predicate GoodRun(ctx: Context, ms: seq<Wire>, n: nat, pieces: seq<seq<byte>>)
    requires AllWellFormed(ctx, ms) && n + |Concat(pieces)| <= |Encode(ms)|
    decreases |pieces|
  {
    pieces == [] ||
    var piece := pieces[0];
    && (piece != [] ==> Fits(ctx, Canonical(ctx, ms, n, 0, 0).state, piece) && GoodCut(ms, n + |piece|))
    && GoodRun(ctx, ms, n + |piece|, pieces[1..])
  }

  lemma ConcatFirst(pieces: seq<seq<byte>>, all: seq<byte>, n: nat)
    requires pieces != [] && n + |Concat(pieces)| <= |all| && Concat(pieces) == all[n..n + |Concat(pieces)|]
    ensures var k := |pieces[0]|;
            && |Concat(pieces)| == k + |Concat(pieces[1..])|
            && pieces[0] == all[n..n + k]
            && Concat(pieces[1..]) == all[n + k..n + k + |Concat(pieces[1..])|]
  {
    var k := |pieces[0]|;
    assert pieces[0] == Concat(pieces)[..k];
    assert Concat(pieces[1..]) == Concat(pieces)[k..];
  }

  lemma CanonicalStart(ctx: Context, ms: seq<Wire>, n: nat, start: nat, ordinal: nat)
    requires AllWellFormed(ctx, ms) && n <= |Encode(ms)|
    ensures ms == [] || n < |ms[0].Bytes()| ==> Canonical(ctx, ms, n, start, ordinal).emitted == []
  {
    hide WellFormed, Wire.Bytes, Unfinished, TheMessage;
  }

  lemma {:induction false} CanonicalHasNoError(ctx: Context, ms: seq<Wire>, n: nat, start: nat, ordinal: nat)
    requires AllWellFormed(ctx, ms) && n <= |Encode(ms)|
    ensures !HasError(Canonical(ctx, ms, n, start, ordinal).emitted)
  {
    hide WellFormed, Wire.Bytes, Canonical;
    CanonicalStart(ctx, ms, n, start, ordinal);
    if ms != [] && n >= |ms[0].Bytes()| {
      CanonicalStep(ctx, ms, n, start, ordinal);
      CanonicalHasNoError(ctx, ms[1..], n - |ms[0].Bytes()|, start + |ms[0].Bytes()|, ordinal + 1);
    }
  }

  /** From one canonical state on, a run stays canonical if it is good, and reports an error if it is not. */
  lemma {:induction false} RunCanonical(ctx: Context, ms: seq<Wire>, n: nat, st: State, pieces: seq<seq<byte>>)
    requires AllWellFormed(ctx, ms) && n + |Concat(pieces)| <= |Encode(ms)|
    requires Concat(pieces) == Encode(ms)[n..n + |Concat(pieces)|]
    requires Norm(st) == Canonical(ctx, ms, n, 0, 0).state
    ensures var r := PushAll(ctx, st, pieces);
            var end := Canonical(ctx, ms, n + |Concat(pieces)|, 0, 0);
            if GoodRun(ctx, ms, n, pieces)
            then Norm(r.state) == end.state && Canonical(ctx, ms, n, 0, 0).emitted + r.emitted == end.emitted
            else HasError(r.emitted)
    decreases |pieces|
  {
    hide Push, WellFormed, HasError, Canonical, GoodCut, Fits, Encode, Norm;
    var start := Canonical(ctx, ms, n, 0, 0).emitted;
    if pieces == [] {
      assert start + [] == start;
    } else {
      var piece := pieces[0];
      ConcatFirst(pieces, Encode(ms), n);
      var first := Push(ctx, st, piece);
      if piece == [] {
        EmptyPush(ctx, st);
      } else {
        PushCanonical(ctx, ms, n, st, 0, 0, piece);
      }
      assert GoodRun(ctx, ms, n, pieces) <==>
             (piece != [] ==> Fits(ctx, Canonical(ctx, ms, n, 0, 0).state, piece) && GoodCut(ms, n + |piece|))
             && GoodRun(ctx, ms, n + |piece|, pieces[1..]);
      var rest := PushAll(ctx, first.state, pieces[1..]);
      if piece == [] || (Fits(ctx, Canonical(ctx, ms, n, 0, 0).state, piece) && GoodCut(ms, n + |piece|)) {
        RunCanonical(ctx, ms, n + |piece|, first.state, pieces[1..]);
        assert start + (first.emitted + rest.emitted) == start + first.emitted + rest.emitted;
        assert piece == [] ==> start + [] == start;
        ErrorStays(first.emitted, rest.emitted);
      } else {
        ErrorStaysBefore(first.emitted, rest.emitted);
      }
    }
  }

  lemma EmptyPush(ctx: Context, st: State)
    ensures Push(ctx, st, []) == Outcome(st, [])
  {
  }

  lemma ErrorStaysBefore(log: seq<Message>, more: seq<Message>)
    ensures HasError(log) ==> HasError(log + more)
  {
    if i :| 0 <= i < |log| && log[i].status.ParseError? {
      assert (log + more)[i] == log[i];
    }
  }

  /**
   Any run over any prefix of the stream emits exactly the messages wholly inside
   that prefix, and leaves the same state, if and only if every piece fits and no
   piece ends between the CR and the LF after a chunk's data. Otherwise it
   reports a parse error on a stream that has none.
   */
  lemma SplitInvariance(ctx: Context, ms: seq<Wire>, pieces: seq<seq<byte>>)
    requires AllWellFormed(ctx, ms) && Concat(pieces) <= Encode(ms)
    ensures var r := PushAll(ctx, INITIAL, pieces);
            && (GoodRun(ctx, ms, 0, pieces) <==> Same(r, Canonical(ctx, ms, |Concat(pieces)|, 0, 0)))
            && (GoodRun(ctx, ms, 0, pieces) <==> !HasError(r.emitted))
  {
    hide PushAll, WellFormed, HasError, GoodRun, Canonical;
    var n := |Concat(pieces)|;
    assert Concat(pieces) == Encode(ms)[0..0 + n];
    NothingArrived(ctx, ms, 0, 0);
    RunCanonical(ctx, ms, 0, INITIAL, pieces);
    CanonicalHasNoError(ctx, ms, n, 0, 0);
    var r := PushAll(ctx, INITIAL, pieces);
    assert [] + r.emitted == r.emitted;
  }

  /** Two ways to cut the same bytes, neither of them bad, cannot be told apart. */
  lemma CutsDoNotMatter(ctx: Context, ms: seq<Wire>, one: seq<seq<byte>>, other: seq<seq<byte>>)
    requires AllWellFormed(ctx, ms) && Concat(one) == Concat(other) <= Encode(ms)
    requires GoodRun(ctx, ms, 0, one) && GoodRun(ctx, ms, 0, other)
    ensures PushAll(ctx, INITIAL, one).emitted == PushAll(ctx, INITIAL, other).emitted
    ensures Norm(PushAll(ctx, INITIAL, one).state) == Norm(PushAll(ctx, INITIAL, other).state)
  {
    hide PushAll, WellFormed, HasError, GoodRun, Canonical;
    SplitInvariance(ctx, ms, one);
    SplitInvariance(ctx, ms, other);
  }

  /**
   The failing family: a message with at least one chunk, which arrives well in
   one piece, is reported as an error when it is cut right before the LF that
   follows its first chunk's data.
   */
  lemma CutInsideChunkNewlineFails(ctx: Context, m: Wire)
    requires WellFormed(ctx, m) && m.body.InChunks? && m.body.body.chunks != []
    requires |m.Bytes()| <= ctx.maxBufferBytes
    ensures var k := |m.HeadBytes()| + |m.body.body.chunks[0].Wire()| - 1;
            && k < |m.Bytes()|
            && !HasError(PushAll(ctx, INITIAL, [m.Bytes()]).emitted)
            && HasError(PushAll(ctx, INITIAL, [m.Bytes()[..k], m.Bytes()[k..]]).emitted)
  {
    hide WellFormed, HasError, PushAll;
    var bytes := m.Bytes();
    var k := |m.HeadBytes()| + |m.body.body.chunks[0].Wire()| - 1;
    assert Encode([m]) == bytes + Encode([]) == bytes;
    assert Concat([bytes]) == bytes;
    NothingArrived(ctx, [m], 0, 0);
    var stream, whole := [m], [bytes];
    assert stream[1..] == [] && |whole[1..]| == 0;
    assert GoodCut([m], |bytes|);
    assert GoodRun(ctx, [m], 0, [bytes]);
    SplitInvariance(ctx, [m], [bytes]);
    var cut := [bytes[..k], bytes[k..]];
    assert cut[1..] == [bytes[k..]];
    assert Concat(cut) == bytes[..k] + Concat([bytes[k..]]) == bytes;
    assert !GoodCut([m], k);
    SplitInvariance(ctx, [m], cut);
  }

  // ---------------------------------------------------------------------
  // When every cut is good

  /** The stream has no chunked body. */
  predicate NoChunks(ms: seq<Wire>) {
    forall m :: m in ms ==> m.body.Plain?
  }

  lemma {:induction false} EveryCutIsGood(ms: seq<Wire>, n: nat)
    requires NoChunks(ms)
    ensures GoodCut(ms, n)
  {
    if ms != [] {
      assert ms[0] in ms;
      if n >= |ms[0].Bytes()| {
        EveryCutIsGood(ms[1..], n - |ms[0].Bytes()|);
      }
    }
  }

  lemma {:induction false} BufferIsSmall(ctx: Context, ms: seq<Wire>, n: nat, start: nat, ordinal: nat)
    requires AllWellFormed(ctx, ms) && n <= |Encode(ms)| && NoChunks(ms)
    ensures |Canonical(ctx, ms, n, start, ordinal).state.buffer| <= Min(n, ctx.maxHeaderBytes)
  {
    if ms != [] {
      assert ms[0] in ms;
      if n >= |ms[0].Bytes()| {
        BufferIsSmall(ctx, ms[1..], n - |ms[0].Bytes()|, start + |ms[0].Bytes()|, ordinal + 1);
      }
    }
  }

  /**
   Without chunked bodies a run is good as soon as each piece, together with a
   head that is still incomplete, is within the buffer limit; a stream that as a
   whole is within the limit can be cut anywhere.
   */
  lemma {:induction false} PlainRunsAreGood(ctx: Context, ms: seq<Wire>, n: nat, pieces: seq<seq<byte>>)
    requires AllWellFormed(ctx, ms) && n + |Concat(pieces)| <= |Encode(ms)| && NoChunks(ms)
    requires || n + |Concat(pieces)| <= ctx.maxBufferBytes
             || forall p :: p in pieces ==> |p| + ctx.maxHeaderBytes <= ctx.maxBufferBytes
    ensures GoodRun(ctx, ms, n, pieces)
    decreases |pieces|
  {
    hide WellFormed, Canonical, GoodCut, NoChunks, Encode;
    if pieces != [] {
      assert |Concat(pieces)| == |pieces[0]| + |Concat(pieces[1..])|;
      assert forall p :: p in pieces[1..] ==> p in pieces;
      EveryCutIsGood(ms, n + |pieces[0]|);
      BufferIsSmall(ctx, ms, n, 0, 0);
      assert pieces[0] in pieces;
      PlainRunsAreGood(ctx, ms, n + |pieces[0]|, pieces[1..]);
    }
  }
}
