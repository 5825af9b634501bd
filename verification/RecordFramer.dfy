/**
 The framer shared by TLS records and WebSocket frames: one buffer per direction,
 cut from the front for as long as a whole unit is there.
 */
module RecordFramer {
  import opened Bytes
  import opened WireFrames

  datatype MessageStatus = Good | ParseError

  datatype Message = Message(
    status: MessageStatus, ordinal: nat, logicalStart: nat, headerEnd: nat, logicalEnd: nat,
    bodyRange: Option<(nat, nat)>, headerBytes: nat, bodyBytes: nat, wireBytes: nat,
    info: Option<Info>, error: Option<string>)

  datatype State = State(buffer: seq<byte>, bufferStart: nat, nextLogical: nat, nextOrdinal: nat)

  const INITIAL: State := State([], 0, 0, 0)

  datatype Outcome = Outcome(state: State, emitted: seq<Message>)

  function FrameMessage(frame: Frame, start: nat, ordinal: nat): Message {
    var headerEnd, end := start + frame.headerLen, start + frame.totalLen;
    Message(Good, ordinal, start, headerEnd, end, Some((headerEnd, end)),
            SaturatingSub(headerEnd, start), SaturatingSub(end, headerEnd), SaturatingSub(end, start),
            Some(frame.info), None)
  }

  function ErrorMessage(st: State, reason: string): Message {
    var start, end := st.bufferStart, st.bufferStart + |st.buffer|;
    Message(ParseError, st.nextOrdinal, start, end, end, None, end - start, 0, end - start, None, Some(reason))
  }

  function ClearBuffer(st: State): State {
    st.(buffer := [], bufferStart := st.nextLogical)
  }

  function DrainFront(st: State, count: nat): State {
    if count >= |st.buffer| then ClearBuffer(st)
    else st.(buffer := st.buffer[count..], bufferStart := st.bufferStart + count)
  }

  function Bump(st: State): State {
    st.(nextOrdinal := st.nextOrdinal + 1)
  }

  function CutAll(p: Protocol, st: State): Outcome
    decreases |st.buffer|
  {
    match Parse(p, st.buffer)
    case Incomplete => Outcome(st, [])
    case Invalid(reason) => Outcome(ClearBuffer(Bump(st)), [ErrorMessage(st, reason)])
    case Complete(frame) =>
      var m := FrameMessage(frame, st.bufferStart, st.nextOrdinal);
      var next := DrainFront(Bump(st), frame.totalLen);
      if next.buffer == [] then Outcome(next, [m])
      else
        var rest := CutAll(p, next);
        Outcome(rest.state, [m] + rest.emitted)
  }

  function OverflowReason(p: Protocol): string {
    match p
    case Tls => "tls record exceeded parser buffer limit"
    case WebSocket => "websocket frame exceeded parser buffer limit"
  }

  function Received(st: State, bytes: seq<byte>): State {
    State(st.buffer + bytes, if st.buffer == [] then st.nextLogical else st.bufferStart,
          st.nextLogical + |bytes|, st.nextOrdinal)
  }

  function Push(p: Protocol, st: State, bytes: seq<byte>, maxBufferBytes: nat): Outcome {
    if bytes == [] then Outcome(st, [])
    else
      var full := Received(st, bytes);
      if |full.buffer| > maxBufferBytes then
        Outcome(ClearBuffer(Bump(full)), [ErrorMessage(full, OverflowReason(p))])
      else CutAll(p, full)
  }

  function PushAll(p: Protocol, st: State, pieces: seq<seq<byte>>, maxBufferBytes: nat): Outcome
    decreases |pieces|
  {
    if pieces == [] then Outcome(st, [])
    else
      var first := Push(p, st, pieces[0], maxBufferBytes);
      var rest := PushAll(p, first.state, pieces[1..], maxBufferBytes);
      Outcome(rest.state, first.emitted + rest.emitted)
  }

  // ---------------------------------------------------------------------
  // The whole-input form: the units at the front of a byte string, and the rest

  function Units(p: Protocol, s: seq<byte>): seq<Frame> {
    match Parse(p, s)
    case Complete(frame) => [frame] + Units(p, s[frame.totalLen..])
    case _ => []
  }

  function Rest(p: Protocol, s: seq<byte>): (r: seq<byte>)
    ensures |r| <= |s| && !Parse(p, r).Complete?
  {
    match Parse(p, s)
    case Complete(frame) => Rest(p, s[frame.totalLen..])
    case _ => s
  }

  function Size(units: seq<Frame>): nat {
    if units == [] then 0 else units[0].totalLen + Size(units[1..])
  }

  function Messages(units: seq<Frame>, start: nat, ordinal: nat): (ms: seq<Message>)
    ensures |ms| == |units|
  {
    if units == [] then []
    else [FrameMessage(units[0], start, ordinal)] + Messages(units[1..], start + units[0].totalLen, ordinal + 1)
  }

  lemma {:induction false} UnitsAndRest(p: Protocol, s: seq<byte>)
    ensures Size(Units(p, s)) + |Rest(p, s)| == |s|
  {
    var parse := Parse(p, s);
    if parse.Complete? {
      UnitsAndRest(p, s[parse.frame.totalLen..]);
    }
  }

  lemma MessagesFirst(units: seq<Frame>, start: nat, ordinal: nat)
    requires units != []
    ensures Messages(units, start, ordinal)
            == [FrameMessage(units[0], start, ordinal)]
               + Messages(units[1..], start + units[0].totalLen, ordinal + 1)
    ensures Size(units) == units[0].totalLen + Size(units[1..])
  {
  }

  lemma {:induction false} MessagesConcat(one: seq<Frame>, two: seq<Frame>, start: nat, ordinal: nat)
    ensures Messages(one + two, start, ordinal)
            == Messages(one, start, ordinal) + Messages(two, start + Size(one), ordinal + |one|)
    ensures Size(one + two) == Size(one) + Size(two)
  {
    if one == [] {
      assert one + two == two;
    } else {
      hide *;
      assert (one + two)[1..] == one[1..] + two && (one + two)[0] == one[0];
      MessagesFirst(one + two, start, ordinal);
      MessagesFirst(one, start, ordinal);
      MessagesConcat(one[1..], two, start + one[0].totalLen, ordinal + 1);
    }
  }

  lemma UnitsFirst(p: Protocol, s: seq<byte>)
    ensures var parse := Parse(p, s);
            if parse.Complete? then
              && Units(p, s) == [parse.frame] + Units(p, s[parse.frame.totalLen..])
              && Rest(p, s) == Rest(p, s[parse.frame.totalLen..])
            else Units(p, s) == [] && Rest(p, s) == s
  {
  }

  /** More bytes leave the units already cut alone, and go on from the rest. */
  lemma {:induction false} UnitsGoOn(p: Protocol, s: seq<byte>, more: seq<byte>)
    ensures Units(p, s + more) == Units(p, s) + Units(p, Rest(p, s) + more)
    ensures Rest(p, s + more) == Rest(p, Rest(p, s) + more)
  {
    hide *;
    var parse := Parse(p, s);
    UnitsFirst(p, s);
    if parse.Complete? {
      ParseIsStable(p, s, s + more);
      UnitsFirst(p, s + more);
      var total := parse.frame.totalLen;
      assert (s + more)[total..] == s[total..] + more;
      UnitsGoOn(p, s[total..], more);
    }
  }

  // ---------------------------------------------------------------------
  // One push

  /** The state that all of `s`, not cut wrongly yet, leaves behind. */
  function StateAfter(p: Protocol, s: seq<byte>): State {
    State(Rest(p, s), |s| - |Rest(p, s)|, |s|, |Units(p, s)|)
  }

  predicate Broken(p: Protocol, s: seq<byte>) {
    Parse(p, Rest(p, s)).Invalid?
  }

  ghost predicate HasError(log: seq<Message>) {
    exists i :: 0 <= i < |log| && log[i].status.ParseError?
  }

  /** An error over everything that was buffered from `start` on, and nothing of it a body. */
  predicate IsError(m: Message, ordinal: nat, start: nat, reason: string) {
    && m.logicalEnd >= start
    && var bytes := m.logicalEnd - start;
       m == Message(ParseError, ordinal, start, m.logicalEnd, m.logicalEnd, None, bytes, 0, bytes, None, Some(reason))
  }

  /** The units first, then an error where the next one would start. */
  predicate EndsInError(log: seq<Message>, units: seq<Message>, ordinal: nat, start: nat, reason: string) {
    && |log| > |units| && log[..|units|] == units
    && IsError(log[|units|], ordinal + |units|, start, reason)
  }

  /** Where the units at the front of `s` end. */
  function UnitsEnd(p: Protocol, s: seq<byte>): nat { |s| - |Rest(p, s)| }

  /** The loop has cut every unit of the buffer, and stopped at the rest or at an error. */
  predicate AllCut(p: Protocol, st: State, r: Outcome) {
    var rest := Rest(p, st.buffer);
    var ms := Messages(Units(p, st.buffer), st.bufferStart, st.nextOrdinal);
    if Parse(p, rest).Invalid?
    then |rest| <= st.nextLogical
         && EndsInError(r.emitted, ms, st.nextOrdinal, st.nextLogical - |rest|, Parse(p, rest).reason)
    else r.emitted == ms
         && |rest| <= st.nextLogical
         && r.state == State(rest, st.nextLogical - |rest|, st.nextLogical, st.nextOrdinal + |ms|)
  }

  lemma ErrorAfterOne(m: Message, log: seq<Message>, units: seq<Message>, ordinal: nat, start: nat, reason: string)
    ensures EndsInError(log, units, ordinal + 1, start, reason) ==>
              EndsInError([m] + log, [m] + units, ordinal, start, reason)
  {
    if EndsInError(log, units, ordinal + 1, start, reason) {
      assert ([m] + log)[..|units| + 1] == [m] + log[..|units|];
    }
  }

  lemma AllCutStep(p: Protocol, st: State, frame: Frame, r: Outcome)
    requires Parse(p, st.buffer) == Complete(frame) && st.bufferStart + |st.buffer| == st.nextLogical
    requires AllCut(p, DrainFront(Bump(st), frame.totalLen), r)
    ensures AllCut(p, st, Outcome(r.state, [FrameMessage(frame, st.bufferStart, st.nextOrdinal)] + r.emitted))
  {
    hide Parse, FrameMessage, EndsInError;
    var next := DrainFront(Bump(st), frame.totalLen);
    assert next.buffer == st.buffer[frame.totalLen..];
    assert next.bufferStart == st.bufferStart + frame.totalLen;
    var rest := Rest(p, st.buffer);
    if Parse(p, rest).Invalid? {
      ErrorAfterOne(FrameMessage(frame, st.bufferStart, st.nextOrdinal), r.emitted,
                    Messages(Units(p, next.buffer), next.bufferStart, next.nextOrdinal),
                    st.nextOrdinal, st.nextLogical - |rest|, Parse(p, rest).reason);
    }
  }

  lemma {:induction false} CutAllIs(p: Protocol, st: State)
    requires st.buffer != [] && st.bufferStart + |st.buffer| == st.nextLogical
    ensures AllCut(p, st, CutAll(p, st))
    decreases |st.buffer|
  {
    hide Parse, FrameMessage, ErrorMessage, AllCut;
    var parse := Parse(p, st.buffer);
    if parse.Complete? {
      var next := DrainFront(Bump(st), parse.frame.totalLen);
      if next.buffer == [] {
        EmptyIsCut(p, next);
        AllCutStep(p, st, parse.frame, Outcome(next, []));
        var m := FrameMessage(parse.frame, st.bufferStart, st.nextOrdinal);
        assert [m] + [] == [m];
      } else {
        CutAllIs(p, next);
        AllCutStep(p, st, parse.frame, CutAll(p, next));
      }
    } else {
      StoppedIsCut(p, st);
    }
  }

  lemma EmptyIsCut(p: Protocol, st: State)
    requires st.buffer == [] && st.bufferStart == st.nextLogical
    ensures AllCut(p, st, Outcome(st, []))
  {
    assert Parse(p, []) == Incomplete;
  }

  lemma StoppedIsCut(p: Protocol, st: State)
    requires !Parse(p, st.buffer).Complete? && st.bufferStart + |st.buffer| == st.nextLogical
    ensures AllCut(p, st, CutAll(p, st))
  {
    hide Parse;
  }

  /** What has gone wrong at the front of the rest stays wrong, and no further unit is cut. */
  lemma BrokenStays(p: Protocol, s: seq<byte>, more: seq<byte>)
    requires Broken(p, s)
    ensures Broken(p, s + more) && Units(p, s + more) == Units(p, s)
    ensures Parse(p, Rest(p, s + more)) == Parse(p, Rest(p, s))
    ensures UnitsEnd(p, s + more) == UnitsEnd(p, s)
  {
    hide Parse;
    UnitsGoOn(p, s, more);
    ParseIsStable(p, Rest(p, s), Rest(p, s) + more);
    assert Units(p, s) + [] == Units(p, s);
  }

  predicate PieceFits(p: Protocol, s: seq<byte>, piece: seq<byte>, maxBufferBytes: nat) {
    piece == [] || |Rest(p, s)| + |piece| <= maxBufferBytes
  }

  /** The messages of the units that `piece` completes after `s`. */
  function More(p: Protocol, s: seq<byte>, piece: seq<byte>): seq<Message> {
    Messages(Units(p, Rest(p, s) + piece), |s| - |Rest(p, s)|, |Units(p, s)|)
  }

  lemma MoreIsMore(p: Protocol, s: seq<byte>, piece: seq<byte>)
    ensures Messages(Units(p, s + piece), 0, 0) == Messages(Units(p, s), 0, 0) + More(p, s, piece)
    ensures |Units(p, s + piece)| == |Units(p, s)| + |More(p, s, piece)|
    ensures Rest(p, s + piece) == Rest(p, Rest(p, s) + piece)
  {
    hide Parse, Messages, Units, Rest;
    UnitsAndRest(p, s);
    UnitsGoOn(p, s, piece);
    MessagesConcat(Units(p, s), Units(p, Rest(p, s) + piece), 0, 0);
  }

  predicate PushOk(p: Protocol, s: seq<byte>, piece: seq<byte>, maxBufferBytes: nat, r: Outcome) {
    if !PieceFits(p, s, piece, maxBufferBytes)
    then EndsInError(r.emitted, [], |Units(p, s)|, UnitsEnd(p, s), OverflowReason(p))
    else if Broken(p, s + piece)
    then EndsInError(r.emitted, More(p, s, piece), |Units(p, s)|, UnitsEnd(p, s + piece),
                     Parse(p, Rest(p, s + piece)).reason)
    else r == Outcome(StateAfter(p, s + piece), More(p, s, piece))
  }

  lemma PushIs(p: Protocol, s: seq<byte>, piece: seq<byte>, maxBufferBytes: nat)
    requires !Broken(p, s)
    ensures PushOk(p, s, piece, maxBufferBytes, Push(p, StateAfter(p, s), piece, maxBufferBytes))
  {
    hide Parse, CutAll, FrameMessage, Messages, Units, Rest;
    var st := StateAfter(p, s);
    MoreIsMore(p, s, piece);
    if piece == [] {
      assert s + piece == s && Rest(p, s) + piece == Rest(p, s);
      assert |More(p, s, piece)| == 0;
    } else {
      var full := Received(st, piece);
      if |full.buffer| <= maxBufferBytes {
        CutAllIs(p, full);
      }
    }
  }

  // ---------------------------------------------------------------------
  // Whole runs

  function Concat(pieces: seq<seq<byte>>): seq<byte> {
    if pieces == [] then [] else pieces[0] + Concat(pieces[1..])
  }

  /** Every piece, with the incomplete unit before it, is within the limit. */
  predicate Fits(p: Protocol, s: seq<byte>, pieces: seq<seq<byte>>, maxBufferBytes: nat)
    decreases |pieces|
  {
    pieces == [] ||
    (PieceFits(p, s, pieces[0], maxBufferBytes) && Fits(p, s + pieces[0], pieces[1..], maxBufferBytes))
  }

  lemma {:induction false} RunIs(p: Protocol, s: seq<byte>, pieces: seq<seq<byte>>, maxBufferBytes: nat)
    requires !Broken(p, s)
    ensures var r := PushAll(p, StateAfter(p, s), pieces, maxBufferBytes);
            var all := s + Concat(pieces);
            var log := Messages(Units(p, s), 0, 0) + r.emitted;
            if !Fits(p, s, pieces, maxBufferBytes) then HasError(r.emitted)
            else if Broken(p, all)
            then EndsInError(log, Messages(Units(p, all), 0, 0), 0, UnitsEnd(p, all), Parse(p, Rest(p, all)).reason)
                 && HasError(r.emitted)
            else log == Messages(Units(p, all), 0, 0) && r.state == StateAfter(p, all)
    decreases |pieces|
  {
    hide Push, StateAfter, Units, Rest, Parse, Messages, PieceFits, More, Broken;
    var log := Messages(Units(p, s), 0, 0);
    if pieces == [] {
      assert s + Concat(pieces) == s && log + [] == log;
    } else {
      var piece := pieces[0];
      var first := Push(p, StateAfter(p, s), piece, maxBufferBytes);
      var rest := PushAll(p, first.state, pieces[1..], maxBufferBytes);
      assert s + Concat(pieces) == s + piece + Concat(pieces[1..]);
      assert log + (first.emitted + rest.emitted) == log + first.emitted + rest.emitted;
      PushIs(p, s, piece, maxBufferBytes);
      MoreIsMore(p, s, piece);
      if PieceFits(p, s, piece, maxBufferBytes) && !Broken(p, s + piece) {
        RunIs(p, s + piece, pieces[1..], maxBufferBytes);
        ErrorStays(first.emitted, rest.emitted);
      } else {
        FailedPush(p, s, piece, Concat(pieces[1..]), first, rest.emitted, maxBufferBytes);
      }
    }
  }

  lemma FailedPush(p: Protocol, s: seq<byte>, piece: seq<byte>, later: seq<byte>,
                   first: Outcome, rest: seq<Message>, maxBufferBytes: nat)
    requires PushOk(p, s, piece, maxBufferBytes, first)
    requires PieceFits(p, s, piece, maxBufferBytes) ==> Broken(p, s + piece)
    ensures HasError(first.emitted + rest)
    ensures PieceFits(p, s, piece, maxBufferBytes) ==>
              var all := s + piece + later;
              && Broken(p, all)
              && EndsInError(Messages(Units(p, s), 0, 0) + first.emitted + rest, Messages(Units(p, all), 0, 0),
                             0, UnitsEnd(p, all), Parse(p, Rest(p, all)).reason)
  {
    hide Units, Rest, Parse, Messages, PieceFits, Broken, More;
    ErrorStays(first.emitted, rest);
    if PieceFits(p, s, piece, maxBufferBytes) {
      var more := More(p, s, piece);
      MoreIsMore(p, s, piece);
      BrokenStays(p, s + piece, later);
      var log := Messages(Units(p, s), 0, 0);
      assert (log + first.emitted + rest)[..|log| + |more|] == log + first.emitted[..|more|];
    }
  }

  lemma ErrorStays(log: seq<Message>, more: seq<Message>)
    ensures HasError(log) || HasError(more) ==> HasError(log + more)
  {
    if i :| 0 <= i < |log| && log[i].status.ParseError? {
      assert (log + more)[i] == log[i];
    } else if i :| 0 <= i < |more| && more[i].status.ParseError? {
      assert (log + more)[|log| + i] == more[i];
    }
  }

  /**
   Whatever the bytes are and however they are cut: if every piece fits, the run
   emits the messages of the units at the front of the whole input, with the
   ordinals and ranges the whole input gives them, and keeps the rest; or, if the
   rest cannot start a unit, those messages first and then an error. An error is
   reported exactly when the input is broken or some piece does not fit.
   */
  lemma SplitInvariance(p: Protocol, pieces: seq<seq<byte>>, maxBufferBytes: nat)
    ensures var r := PushAll(p, INITIAL, pieces, maxBufferBytes);
            var all := Concat(pieces);
            && (HasError(r.emitted) <==> Broken(p, all) || !Fits(p, [], pieces, maxBufferBytes))
            && (!HasError(r.emitted) ==>
                  r == Outcome(StateAfter(p, all), Messages(Units(p, all), 0, 0)))
            && (Fits(p, [], pieces, maxBufferBytes) && Broken(p, all) ==>
                  EndsInError(r.emitted, Messages(Units(p, all), 0, 0), 0, UnitsEnd(p, all),
                              Parse(p, Rest(p, all)).reason))
  {
    hide PushAll, Fits, Units, Rest, Messages;
    NothingToCut(p);
    RunIs(p, [], pieces, maxBufferBytes);
    assert [] + Concat(pieces) == Concat(pieces);
    var r := PushAll(p, INITIAL, pieces, maxBufferBytes);
    assert [] + r.emitted == r.emitted;
    MessagesAreGood(Units(p, Concat(pieces)), 0, 0);
  }

  lemma NothingToCut(p: Protocol)
    ensures Parse(p, []) == Incomplete && Units(p, []) == [] && Rest(p, []) == []
    ensures Messages([], 0, 0) == [] && StateAfter(p, []) == INITIAL && !Broken(p, [])
  {
  }

  lemma {:induction false} MessagesAreGood(units: seq<Frame>, start: nat, ordinal: nat)
    ensures !HasError(Messages(units, start, ordinal))
  {
    if units != [] {
      MessagesAreGood(units[1..], start + units[0].totalLen, ordinal + 1);
      var rest := Messages(units[1..], start + units[0].totalLen, ordinal + 1);
      forall i | 0 <= i < |units|
        ensures Messages(units, start, ordinal)[i].status.Good?
      {
        assert i > 0 ==> Messages(units, start, ordinal)[i] == rest[i - 1];
      }
    }
  }

  /** The units of a concatenation of valid units and an incomplete tail are those units. */
  lemma {:induction false} UnitsOfConcatenation(p: Protocol, wires: seq<seq<byte>>, tail: seq<byte>)
    requires forall w :: w in wires ==> Parse(p, w).Complete? && Parse(p, w).frame.totalLen == |w|
    requires Parse(p, tail) == Incomplete
    ensures |Units(p, Concat(wires) + tail)| == |wires|
    ensures forall i :: 0 <= i < |wires| ==> Complete(Units(p, Concat(wires) + tail)[i]) == Parse(p, wires[i])
    ensures Rest(p, Concat(wires) + tail) == tail
  {
    hide Parse;
    if wires == [] {
      assert Concat(wires) + tail == tail;
    } else {
      var w := wires[0];
      assert w in wires;
      var s := Concat(wires) + tail;
      assert s == w + (Concat(wires[1..]) + tail);
      ParseIsStable(p, w, s);
      assert s[|w|..] == Concat(wires[1..]) + tail;
      UnitsOfConcatenation(p, wires[1..], tail);
    }
  }

  // ---------------------------------------------------------------------
  // After an error

  /** A good unit that comes in the same push as a bad one before it is thrown away; in a push of its own it is not. */
  lemma GoodAfterBad(p: Protocol, bad: seq<byte>, good: seq<byte>, maxBufferBytes: nat)
    requires Parse(p, bad).Invalid? && Parse(p, good).Complete? && Parse(p, good).frame.totalLen == |good|
    requires bad != [] && |bad| + |good| <= maxBufferBytes
    ensures var together := PushAll(p, INITIAL, [bad + good], maxBufferBytes);
            together.state.buffer == [] && |together.emitted| == 1 && together.emitted[0].status.ParseError?
    ensures var apart := PushAll(p, INITIAL, [bad, good], maxBufferBytes).emitted;
            && |apart| == 2 && apart[0].status.ParseError?
            && apart[1] == FrameMessage(Parse(p, good).frame, |bad|, 1)
  {
    hide Parse, FrameMessage;
    ParseIsStable(p, bad, bad + good);
    assert [] + (bad + good) == bad + good && [] + bad == bad && [] + good == good;
    assert [bad, good][1..] == [good] && [good][1..] == [] && [bad + good][1..] == [];
    var first := Push(p, INITIAL, bad, maxBufferBytes);
    assert first.state == State([], |bad|, |bad|, 1) && |first.emitted| == 1;
    var second := Push(p, first.state, good, maxBufferBytes);
    assert second.emitted == [FrameMessage(Parse(p, good).frame, |bad|, 1)];
    assert PushAll(p, second.state, [], maxBufferBytes).emitted == [];
    assert PushAll(p, first.state, [good], maxBufferBytes).emitted == second.emitted + [];
  }

  /** So of a frame with an opcode that does not exist and an empty text frame after it, the second is lost. */
  lemma FrameAfterBadOpcode()
    ensures var together := PushAll(WebSocket, INITIAL, [[0x83, 0, 0x81, 0]], 4).emitted;
            |together| == 1 && together[0].status.ParseError?
    ensures var apart := PushAll(WebSocket, INITIAL, [[0x83, 0], [0x81, 0]], 4).emitted;
            |apart| == 2 && apart[1].status.Good? && apart[1].logicalStart == 2 && apart[1].logicalEnd == 4
  {
    hide PushAll;
    var bad: seq<byte>, good: seq<byte> := [0x83, 0], [0x81, 0];
    assert bad + good == [0x83, 0, 0x81, 0];
    assert Parse(WebSocket, bad).Invalid?;
    assert Parse(WebSocket, good).frame.totalLen == 2;
    GoodAfterBad(WebSocket, bad, good, 4);
  }
}
