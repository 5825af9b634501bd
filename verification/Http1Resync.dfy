/**
 What the HTTP/1 framer does with bytes that belong to no message, and where its
 liking for CRLF makes the messages depend on the cut after all.
 */
module Http1Resync {
  import opened Bytes
  import opened Http1Framer
  import opened Http1Splits
  import Chunked = ChunkedBody

  // ---------------------------------------------------------------------
  // Bytes between messages

  /** Nowhere in `junk`, with `later` behind it, do the bytes look like HTTP. */
  predicate Silent(junk: seq<byte>, later: seq<byte>) {
    forall j :: 0 <= j < |junk| ==> !LooksLikeHttpPrefix((junk + later)[j..])
  }

  /** A buffer that starts with junk is drained of it, and of nothing else. */
  lemma JunkTurn(ctx: Context, st: State, junk: seq<byte>, later: seq<byte>)
    requires junk != [] && Silent(junk, later) && st.buffer == junk + later
    requires later != [] ==> LooksLikeHttpPrefix(later)
    ensures ParseTurn(ctx, st) == Turn(DrainFront(st, |junk|), [], true)
    ensures DrainFront(st, |junk|).buffer == later
  {
    hide LooksLikeHttpPrefix, Chunked.HeaderEnd;
    assert st.buffer[0..] == st.buffer && st.buffer[|junk|..] == later;
    HttpStartIs(st.buffer, 1, |junk|);
  }

  lemma ParseAgain(ctx: Context, st: State, next: State)
    requires st.buffer != [] && ParseTurn(ctx, st) == Turn(next, [], true)
    ensures ParseBuffer(ctx, st) == ParseBuffer(ctx, next)
  {
    hide ParseTurn;
    assert [] + ParseBuffer(ctx, next).emitted == ParseBuffer(ctx, next).emitted;
  }

  lemma PrefixLooksLikeHttp(ctx: Context, ms: seq<Wire>, n: nat)
    requires AllWellFormed(ctx, ms) && 0 < n <= |Encode(ms)|
    ensures LooksLikeHttpPrefix(Encode(ms)[..n])
  {
    hide LooksLikeHttpPrefix, WellFormed, Encode;
    var s := Encode(ms)[..n];
    StreamLooksLikeHttp(ctx, ms, s);
    LooksLikeHttp(ctx, ms[0], s);
  }

  /** Behind junk the framer goes on as if the stream began there. */
  lemma ParseBehindJunk(ctx: Context, junk: seq<byte>, ms: seq<Wire>, n: nat, st: State)
    requires AllWellFormed(ctx, ms) && n <= |Encode(ms)| && GoodCut(ms, n)
    requires Silent(junk, Encode(ms)[..n]) && st.buffer == junk + Encode(ms)[..n] && |st.buffer| <= ctx.maxBufferBytes
    requires st.pending == None && (st.buffer != [] ==> st.nextLogical == st.bufferStart + |st.buffer|)
    ensures n <= st.nextLogical
            && Same(ParseBuffer(ctx, st), Canonical(ctx, ms, n, st.nextLogical - n, st.nextOrdinal))
  {
    hide Silent, LooksLikeHttpPrefix, WellFormed, Encode, Canonical, GoodCut, ParseBuffer, ParseTurn, Same;
    var later := Encode(ms)[..n];
    if junk == [] {
      assert junk + later == later;
      ParseCanonical(ctx, ms, n, st);
    } else {
      if n > 0 {
        PrefixLooksLikeHttp(ctx, ms, n);
      }
      JunkTurn(ctx, st, junk, later);
      ParseAgain(ctx, st, DrainFront(st, |junk|));
      ParseCanonical(ctx, ms, n, DrainFront(st, |junk|));
    }
  }

  /** The messages of a whole stream that starts at `start`. */
  ghost function AllMessages(ctx: Context, ms: seq<Wire>, start: nat, ordinal: nat): seq<Message>
    requires AllWellFormed(ctx, ms)
  {
    if ms == [] then []
    else [TheMessage(ctx, ms[0], start, ordinal)]
         + AllMessages(ctx, ms[1..], start + |ms[0].Bytes()|, ordinal + 1)
  }

  /** Whole messages, junk, and a part of a further stream. */
  function WithJunk(before: seq<Wire>, junk: seq<byte>, ms: seq<Wire>, n: nat): seq<byte>
    requires n <= |Encode(ms)|
  {
    Encode(before) + junk + Encode(ms)[..n]
  }

  lemma {:induction false} ParseWithJunk(
    ctx: Context, before: seq<Wire>, junk: seq<byte>, ms: seq<Wire>, n: nat, st: State)
    requires AllWellFormed(ctx, before) && AllWellFormed(ctx, ms) && n <= |Encode(ms)| && GoodCut(ms, n)
    requires Silent(junk, Encode(ms)[..n])
    requires st.buffer == WithJunk(before, junk, ms, n) && |st.buffer| <= ctx.maxBufferBytes
    requires st.pending == None && (st.buffer != [] ==> st.nextLogical == st.bufferStart + |st.buffer|)
    ensures n <= st.nextLogical
            && Same(ParseBuffer(ctx, st),
                    var rest := Canonical(ctx, ms, n, st.nextLogical - n, st.nextOrdinal + |before|);
                    Outcome(rest.state, AllMessages(ctx, before, st.bufferStart, st.nextOrdinal) + rest.emitted))
    decreases |before|
  {
    hide Silent, LooksLikeHttpPrefix, WellFormed, Canonical, GoodCut, ParseBuffer, ParseTurn, TheMessage, Encode,
      WithJunk, Wire.Bytes, DrainFront;
    if before == [] {
      NothingBefore(junk, ms, n);
      ParseBehindJunk(ctx, junk, ms, n, st);
      var emitted := Canonical(ctx, ms, n, st.nextLogical - n, st.nextOrdinal).emitted;
      assert [] + emitted == emitted;
    } else {
      var m := before[0];
      assert m in before;
      FirstDrained(before, junk, ms, n, st);
      ParseWhole(ctx, m, st);
      var next := DrainFront(Bump(st), |m.Bytes()|);
      ParseWithJunk(ctx, before[1..], junk, ms, n, next);
      var rest := Canonical(ctx, ms, n, st.nextLogical - n, st.nextOrdinal + |before|).emitted;
      var first := TheMessage(ctx, m, st.bufferStart, st.nextOrdinal);
      var others := AllMessages(ctx, before[1..], st.bufferStart + |m.Bytes()|, st.nextOrdinal + 1);
      assert [first] + (others + rest) == [first] + others + rest;
    }
  }

  lemma NothingBefore(junk: seq<byte>, ms: seq<Wire>, n: nat)
    requires n <= |Encode(ms)|
    ensures WithJunk([], junk, ms, n) == junk + Encode(ms)[..n]
  {
    assert [] + junk == junk;
  }

  lemma FirstDrained(before: seq<Wire>, junk: seq<byte>, ms: seq<Wire>, n: nat, st: State)
    requires before != [] && n <= |Encode(ms)| && st.buffer == WithJunk(before, junk, ms, n)
    requires st.pending == None && (st.buffer != [] ==> st.nextLogical == st.bufferStart + |st.buffer|)
    ensures before[0].Bytes() <= st.buffer && st.buffer != []
    ensures var next := DrainFront(Bump(st), |before[0].Bytes()|);
            && next.buffer == WithJunk(before[1..], junk, ms, n)
            && next.bufferStart == st.bufferStart + |before[0].Bytes()|
            && next.nextLogical == st.nextLogical && next.nextOrdinal == st.nextOrdinal + 1 && next.pending == None
            && next.nextLogical == next.bufferStart + |next.buffer|
  {
    hide Encode, WithJunk, Wire.Bytes;
    var first, rest := before[0].Bytes(), WithJunk(before[1..], junk, ms, n);
    WithJunkFirst(before, junk, ms, n);
    assert (first + rest)[|first|..] == rest;
  }

  lemma WithJunkFirst(before: seq<Wire>, junk: seq<byte>, ms: seq<Wire>, n: nat)
    requires before != [] && n <= |Encode(ms)|
    ensures before[0].Bytes() != []
    ensures WithJunk(before, junk, ms, n) == before[0].Bytes() + WithJunk(before[1..], junk, ms, n)
  {
    var first, others, part := before[0].Bytes(), Encode(before[1..]), Encode(ms)[..n];
    assert first[|before[0].head|] == CR;
    hide Wire.Bytes;
    assert Encode(before) == first + others;
    Associates(first, others, junk);
    Associates(first, others + junk, part);
  }

  /**
   Bytes that nowhere look like HTTP are passed over, whether they come before, between
   or after messages: the messages are those of the streams around them, at their places.
   */
  lemma JunkIsPassedOver(ctx: Context, before: seq<Wire>, junk: seq<byte>, ms: seq<Wire>, n: nat)
    requires AllWellFormed(ctx, before) && AllWellFormed(ctx, ms) && n <= |Encode(ms)| && GoodCut(ms, n)
    requires Silent(junk, Encode(ms)[..n]) && |WithJunk(before, junk, ms, n)| <= ctx.maxBufferBytes
    ensures Same(Push(ctx, INITIAL, WithJunk(before, junk, ms, n)),
                 var rest := Canonical(ctx, ms, n, |Encode(before)| + |junk|, |before|);
                 Outcome(rest.state, AllMessages(ctx, before, 0, 0) + rest.emitted))
  {
    hide Silent, LooksLikeHttpPrefix, WellFormed, Canonical, GoodCut, ParseBuffer, FindHttpStart, TheMessage, Encode;
    var whole := WithJunk(before, junk, ms, n);
    var st := INITIAL.(nextLogical := |whole|);
    if before == [] {
      assert Encode(before) == [] by { NothingEncoded(); }
      JunkFirst(ctx, junk, ms, n, st);
    } else {
      FirstDrained(before, junk, ms, n, st.(buffer := whole));
      assert before[0] in before;
      LooksLikeHttp(ctx, before[0], whole);
      assert whole[0..] == whole;
      HttpStartIs(whole, 0, 0);
      ParseWithJunk(ctx, before, junk, ms, n, st.(buffer := whole));
    }
  }

  lemma NothingEncoded()
    ensures Encode([]) == []
  {
  }

  /** Junk in front of the first message is never buffered. */
  lemma JunkFirst(ctx: Context, junk: seq<byte>, ms: seq<Wire>, n: nat, st: State)
    requires AllWellFormed(ctx, ms) && n <= |Encode(ms)| && GoodCut(ms, n)
    requires Silent(junk, Encode(ms)[..n]) && |WithJunk([], junk, ms, n)| <= ctx.maxBufferBytes
    requires st == INITIAL.(nextLogical := |junk| + n)
    ensures Same(Feed(ctx, st, WithJunk([], junk, ms, n), 0), Canonical(ctx, ms, n, |junk|, 0))
  {
    hide LooksLikeHttpPrefix, WellFormed, Canonical, GoodCut, ParseBuffer, FindHttpStart, TheMessage, Encode;
    var whole, later := WithJunk([], junk, ms, n), Encode(ms)[..n];
    NothingEncoded();
    assert whole == junk + later && whole[|junk|..] == later;
    if n > 0 {
      PrefixLooksLikeHttp(ctx, ms, n);
    }
    HttpStartIs(whole, 0, |junk|);
    if n > 0 {
      ParseCanonical(ctx, ms, n, Buffered(st, whole, 0));
    } else {
      NothingArrived(ctx, ms, |junk|, 0);
    }
  }

  // ---------------------------------------------------------------------
  // Bare line feeds

  /** A message without a body whose head ends in two bare line feeds, and holds no blank line before. */
  ghost predicate BareHead(ctx: Context, text: seq<byte>) {
    && (exists word :: word in STARTS && Text(word) <= text)
    && (forall j: nat :: !At(text + LF_LF, j, CRLF_CRLF))
    && (forall j: nat :: j < |text| ==> !At(text + LF_LF, j, LF_LF))
    && ctx.parseHead(text).GoodHead?
    && ctx.parseHead(text).head.info.contentLength.None? && !IsChunked(ctx.parseHead(text).head.info)
  }

  ghost function BareMessage(ctx: Context, text: seq<byte>): Message
    requires BareHead(ctx, text)
  {
    var head := ctx.parseHead(text).head;
    MessageOf(head, head.info, 0, |text| + 2, 0, 0)
  }

  lemma BareHeadFound(ctx: Context, text: seq<byte>)
    requires BareHead(ctx, text)
    ensures Chunked.HeaderEnd(text + LF_LF, 0) == Some(Chunked.Cut(|text|, |text| + 2))
    ensures (text + LF_LF)[..|text|] == text
    ensures FindHttpStart(text + LF_LF, 0) == Some(0) && LooksLikeHttpPrefix(text + LF_LF)
  {
    hide LooksLikeHttpPrefix, FindHttpStart, IsChunked, Chunked.HeaderEnd, At, Text;
    BareEnd(text);
    StartIsHttp(text, LF_LF);
  }

  lemma BareEnd(text: seq<byte>)
    requires forall j: nat :: !At(text + LF_LF, j, CRLF_CRLF)
    requires forall j: nat :: j < |text| ==> !At(text + LF_LF, j, LF_LF)
    ensures Chunked.HeaderEnd(text + LF_LF, 0) == Some(Chunked.Cut(|text|, |text| + 2))
  {
    hide Find, At;
    var s := text + LF_LF;
    FindNone(s, CRLF_CRLF, 0);
    AtBytes(s, |text|, LF_LF);
    FindIs(s, LF_LF, 0, |text|);
  }

  lemma StartIsHttp(text: seq<byte>, later: seq<byte>)
    requires exists word :: word in STARTS && Text(word) <= text
    ensures FindHttpStart(text + later, 0) == Some(0) && LooksLikeHttpPrefix(text + later)
  {
    hide Text, FindHttpStart, LooksLikeHttpPrefix;
    var s := text + later;
    var word :| word in STARTS && Text(word) <= text;
    assert |word| > 0;
    assert Text(word) <= s;
    LooksLikeIs(s);
    assert s[0..] == s;
    HttpStartIs(s, 0, 0);
  }

  /** On its own the message is emitted as it stands. */
  lemma BareHeadAlone(ctx: Context, text: seq<byte>)
    requires BareHead(ctx, text) && |text| + 2 <= ctx.maxBufferBytes
    ensures var r := Push(ctx, INITIAL, text + LF_LF);
            r.emitted == [BareMessage(ctx, text)]
            && Norm(r.state) == State([], |text| + 2, |text| + 2, 1, None)
  {
    hide LooksLikeHttpPrefix, FindHttpStart, Chunked.HeaderEnd, At, BuildMessage, FixContext, MessageOf, IsChunked, FramingOf;
    var s := text + LF_LF;
    var head := ctx.parseHead(text).head;
    BareHeadFound(ctx, text);
    FramingIsAnnounced(head);
    FixContextIsRedundant(0, head, 0, |s|, 0, |s|);
    MessageIsBuilt(head, head.info, 0, |s|, 0, 0);
    assert s[0..] == s;
    var st := INITIAL.(nextLogical := |s|);
    var m := BareMessage(ctx, text);
    var next := DrainFront(Bump(st.(buffer := s)), |s|);
    assert head.(info := head.info) == head;
    assert ParseTurn(ctx, st.(buffer := s)) == Turn(next, [m], true);
    assert ParseBuffer(ctx, next) == Outcome(next, []);
    assert [m] + [] == [m];
  }

  /** Before a blank line of CRLFs the bare one is not seen: the first message, if any, is longer. */
  lemma BareHeadIsPassedOver(ctx: Context, text: seq<byte>, later: seq<byte>, at: nat)
    requires BareHead(ctx, text) && At(later, at, CRLF_CRLF) && |text| + 2 + |later| <= ctx.maxBufferBytes
    ensures var ms := Push(ctx, INITIAL, text + LF_LF + later).emitted;
            ms != [] ==> ms[0].status.ParseError? || ms[0].logicalEnd > |text| + 2
  {
    hide LooksLikeHttpPrefix, FindHttpStart, Chunked.HeaderEnd, At, BareHead, ParseBuffer, Text;
    var s := text + LF_LF + later;
    assert s == text + (LF_LF + later);
    BareHeadHas(ctx, text);
    StartIsHttp(text, LF_LF + later);
    BlankLineAfter(text + LF_LF, later, at);
    assert s[0..] == s;
    LongerTurn(ctx, INITIAL.(buffer := s, nextLogical := |s|), |text| + 2);
  }

  lemma BareHeadHas(ctx: Context, text: seq<byte>)
    requires BareHead(ctx, text)
    ensures exists word :: word in STARTS && Text(word) <= text
    ensures forall j: nat :: !At(text + LF_LF, j, CRLF_CRLF)
  {
  }

  lemma BlankLineAfter(bare: seq<byte>, later: seq<byte>, at: nat)
    requires (forall j: nat :: !At(bare, j, CRLF_CRLF)) && At(later, at, CRLF_CRLF)
    ensures var cut := Chunked.HeaderEnd(bare + later, 0);
            cut.Some? && cut.value.total > |bare|
  {
    hide Find, At;
    var s := bare + later;
    AtBytes(later, at, CRLF_CRLF);
    AtBytes(s, |bare| + at, CRLF_CRLF);
    forall j: nat | j + 4 <= |bare|
      ensures !At(s, j, CRLF_CRLF)
    {
      AtBytes(s, j, CRLF_CRLF);
      AtBytes(bare, j, CRLF_CRLF);
    }
  }

  lemma LongerTurn(ctx: Context, st: State, end: nat)
    requires LooksLikeHttpPrefix(st.buffer) && |st.buffer| <= ctx.maxBufferBytes && st.bufferStart == 0
    requires Chunked.HeaderEnd(st.buffer, 0).Some? && Chunked.HeaderEnd(st.buffer, 0).value.total > end
    ensures var ms := ParseBuffer(ctx, st).emitted;
            ms != [] ==> ms[0].status.ParseError? || ms[0].logicalEnd > end
  {
    hide LooksLikeHttpPrefix, Chunked.HeaderEnd, Chunked.Scan, FramingOf, DrainFront, ClearBuffer, ContentLengthBody,
      ChunkedBodyOf;
  }

  /**
   The cut matters to messages whose head ends in bare line feeds: before a message with
   CRLFs such a message is emitted when it comes in a push of its own, and not when both
   come in one push.
   */
  lemma BareHeadsDependOnTheCut(ctx: Context, text: seq<byte>, m: Wire)
    requires BareHead(ctx, text) && WellFormed(ctx, m) && |text| + 2 + |m.Bytes()| <= ctx.maxBufferBytes
    ensures var first := Push(ctx, INITIAL, text + LF_LF);
            && first.emitted == [BareMessage(ctx, text)]
            && Push(ctx, first.state, m.Bytes()).emitted == [TheMessage(ctx, m, |text| + 2, 1)]
    ensures var together := Push(ctx, INITIAL, text + LF_LF + m.Bytes()).emitted;
            together == [] || together[0] != BareMessage(ctx, text)
  {
    hide BareHead, WellFormed, Push, TheMessage, MessageOf, Wire.Bytes, At;
    BareHeadAlone(ctx, text);
    MessageAfter(ctx, m, Push(ctx, INITIAL, text + LF_LF).state);
    BlankLineIn(m);
    BareHeadIsPassedOver(ctx, text, m.Bytes(), |m.head|);
    BareMessageIs(ctx, text);
  }

  lemma BareMessageIs(ctx: Context, text: seq<byte>)
    requires BareHead(ctx, text)
    ensures BareMessage(ctx, text).status.Complete? && BareMessage(ctx, text).logicalEnd == |text| + 2
  {
    hide BareHead;
  }

  lemma BlankLineIn(m: Wire)
    ensures At(m.Bytes(), |m.head|, CRLF_CRLF)
  {
    AtBytes(m.Bytes(), |m.head|, CRLF_CRLF);
  }

  /** A message in a push of its own, with nothing left over from before. */
  lemma MessageAfter(ctx: Context, m: Wire, st: State)
    requires WellFormed(ctx, m) && |m.Bytes()| <= ctx.maxBufferBytes && st.buffer == [] && st.pending == None
    ensures Push(ctx, st, m.Bytes()).emitted == [TheMessage(ctx, m, st.nextLogical, st.nextOrdinal)]
  {
    hide WellFormed, TheMessage, Wire.Bytes, Canonical, Feed, GoodCut, Encode, HasError;
    var n := |m.Bytes()|;
    OneEncoded(m);
    OneIsCanonical(ctx, m, st.nextLogical, st.nextOrdinal);
    FeedFresh(ctx, [m], st.(nextLogical := st.nextLogical + n), m.Bytes(), st.nextLogical);
  }

  lemma OneEncoded(m: Wire)
    ensures Encode([m]) == m.Bytes() && GoodCut([m], |m.Bytes()|)
  {
    hide Wire.Bytes;
    var ms := [m];
    assert ms[1..] == [];
    assert Encode(ms) == m.Bytes() + Encode([]) == m.Bytes();
  }

  lemma OneIsCanonical(ctx: Context, m: Wire, start: nat, ordinal: nat)
    requires WellFormed(ctx, m)
    ensures |Encode([m])| == |m.Bytes()|
    ensures Canonical(ctx, [m], |m.Bytes()|, start, ordinal).emitted == [TheMessage(ctx, m, start, ordinal)]
  {
    hide WellFormed, TheMessage, Wire.Bytes, Unfinished;
    OneEncoded(m);
    var ms := [m];
    assert ms[1..] == [];
  }
}
