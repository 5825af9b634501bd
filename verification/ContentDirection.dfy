/**
 One direction of a stored stream: a list of segments that holds the last bytes
 of everything that was ever appended.
 */
module ContentDirection {
  import opened Bytes

  // ---------------------------------------------------------------------
  // Sequence numbers, and bytes that carry them

  /** The sequence number `n` bytes on, modulo 2^32 (section 3.4 of RFC 9293). */
  function Advance(sequence: Option<u32>, n: nat): Option<u32> {
    if sequence.None? then None else Some((sequence.value + n) % 0x1_0000_0000)
  }

  lemma AdvanceTwice(sequence: Option<u32>, a: nat, b: nat)
    ensures Advance(Advance(sequence, a), b) == Advance(sequence, a + b)
    ensures Advance(sequence, 0) == sequence
  {
  }

  /** The sequence number of the next byte: one more, and zero after the last. */
  function Following(sequence: u32): u32 { if sequence == 0xFFFF_FFFF then 0 else sequence + 1 }

  lemma AdvanceSteps(sequence: u32, n: nat)
    ensures Advance(Some(sequence), 0) == Some(sequence)
    ensures Advance(Some(sequence), n + 1) == Some(Following(Advance(Some(sequence), n).value))
  {
    var at: nat := sequence + n;
    var rounds, place := at / 0x1_0000_0000, at % 0x1_0000_0000;
    assert at == rounds * 0x1_0000_0000 + place;
    if place == 0xFFFF_FFFF {
      assert at + 1 == (rounds + 1) * 0x1_0000_0000;
    }
  }

  /** A byte of a stream, with its sequence number when it has one. */
  datatype Cell = Cell(data: byte, sequence: Option<u32>)

  function Cells(bytes: seq<byte>, sequence: Option<u32>): (r: seq<Cell>)
    ensures |r| == |bytes|
  {
    seq(|bytes|, k requires 0 <= k < |bytes| => Cell(bytes[k], Advance(sequence, k)))
  }

  lemma CellsConcat(a: seq<byte>, b: seq<byte>, sequence: Option<u32>)
    ensures Cells(a + b, sequence) == Cells(a, sequence) + Cells(b, Advance(sequence, |a|))
  {
    hide Advance;
    forall k | 0 <= k < |a| + |b|
      ensures Cells(a + b, sequence)[k] == (Cells(a, sequence) + Cells(b, Advance(sequence, |a|)))[k]
    {
      if k >= |a| {
        AdvanceTwice(sequence, |a|, k - |a|);
      }
    }
  }

  lemma CellsSplit(bytes: seq<byte>, sequence: Option<u32>, n: nat)
    requires n <= |bytes|
    ensures Cells(bytes, sequence) == Cells(bytes[..n], sequence) + Cells(bytes[n..], Advance(sequence, n))
  {
    hide *;
    assert bytes == bytes[..n] + bytes[n..];
    CellsConcat(bytes[..n], bytes[n..], sequence);
  }

  // ---------------------------------------------------------------------
  // The stored direction

  datatype Segment = Segment(start: nat, sequence: Option<u32>, observed: nat, bytes: seq<byte>) {
    function End(): nat { start + |bytes| }

    function SequenceEnd(): Option<u32> { Advance(sequence, |bytes|) }
  }

  /** The fields of a stored direction. */
  datatype Content = Content(next: nat, stored: nat, segments: seq<Segment>)

  const EMPTY: Content := Content(0, 0, [])

  datatype Range = Range(
    start: nat, end: nat, sequenceStart: Option<u32>, sequenceEnd: Option<u32>, stored: nat)

  predicate Merges(segments: seq<Segment>, sequence: Option<u32>, slice: seq<byte>, max: nat) {
    && segments != [] && sequence.Some?
    && segments[|segments| - 1].SequenceEnd() == sequence
    && |segments[|segments| - 1].bytes| + |slice| <= max
  }

  /** The segments with a slice added, to the last one if it carries on from there. */
  function AddSlice(
    segments: seq<Segment>, start: nat, sequence: Option<u32>, observed: nat, slice: seq<byte>, max: nat): seq<Segment>
  {
    if Merges(segments, sequence, slice, max) then
      var last := segments[|segments| - 1];
      segments[..|segments| - 1] + [last.(bytes := last.bytes + slice)]
    else segments + [Segment(start, sequence, observed, slice)]
  }

  function Store(c: Content, sequence: Option<u32>, observed: nat, slice: seq<byte>, max: nat): Content {
    Content(c.next + |slice|, c.stored + |slice|, AddSlice(c.segments, c.next, sequence, observed, slice, max))
  }

  function Append(c: Content, bytes: seq<byte>, sequence: Option<u32>, observed: nat, max: nat): Content
    requires max > 0
    decreases |bytes|
  {
    if bytes == [] then c
    else
      var take := Min(|bytes|, max);
      Append(Store(c, sequence, observed, bytes[..take], max), bytes[take..], Advance(sequence, take), observed, max)
  }

  /** What an append reports: the ranges of its slices. */
  function RangesOf(start: nat, bytes: seq<byte>, sequence: Option<u32>, max: nat): seq<Range>
    requires max > 0
    decreases |bytes|
  {
    if bytes == [] then []
    else
      var take := Min(|bytes|, max);
      [Range(start, start + take, sequence, Advance(sequence, take), take)]
      + RangesOf(start + take, bytes[take..], Advance(sequence, take), max)
  }

  /** How many slices of an append went into the segment before them. */
  function MergedBy(c: Content, bytes: seq<byte>, sequence: Option<u32>, observed: nat, max: nat): nat
    requires max > 0
    decreases |bytes|
  {
    if bytes == [] then 0
    else
      var take := Min(|bytes|, max);
      (if Merges(c.segments, sequence, bytes[..take], max) then 1 else 0)
      + MergedBy(Store(c, sequence, observed, bytes[..take], max), bytes[take..], Advance(sequence, take), observed, max)
  }

  function Trim(c: Content, n: nat): Content
    decreases |c.segments|
  {
    if n == 0 || c.segments == [] then c
    else
      var first := c.segments[0];
      if |first.bytes| <= n
      then Trim(Content(c.next, SaturatingSub(c.stored, |first.bytes|), c.segments[1..]), n - |first.bytes|)
      else Content(c.next, SaturatingSub(c.stored, n),
                   [Segment(first.start + n, Advance(first.sequence, n), first.observed, first.bytes[n..])]
                   + c.segments[1..])
  }

  /** How many bytes a trim takes out of the segments. */
  function TrimmedBy(segments: seq<Segment>, n: nat): nat {
    if n == 0 || segments == [] then 0
    else if |segments[0].bytes| <= n then |segments[0].bytes| + TrimmedBy(segments[1..], n - |segments[0].bytes|)
    else n
  }

  datatype Window = Window(start: nat, bytes: seq<byte>)

  /** The window being put together while segments are gone through, and those before it. */
  datatype Gathered = Gathered(done: seq<Window>, start: nat, end: nat, bytes: seq<byte>)

  function Gather(g: Gathered, s: Segment, from: nat, to: nat): Gathered {
    var start, end := Max(s.start, from), Min(s.End(), to);
    if start >= end then g
    else
      var part := s.bytes[start - s.start..end - s.start];
      if g.bytes == [] then Gathered(g.done, start, end, part)
      else if start == g.end then g.(end := end, bytes := g.bytes + part)
      else Gathered(g.done + [Window(g.start, g.bytes)], start, end, part)
  }

  function GatherAll(g: Gathered, segments: seq<Segment>, from: nat, to: nat): Gathered
    decreases |segments|
  {
    if segments == [] then g else GatherAll(Gather(g, segments[0], from, to), segments[1..], from, to)
  }

  function Windows(segments: seq<Segment>, from: nat, to: nat): seq<Window> {
    if from >= to then []
    else
      var g := GatherAll(Gathered([], 0, 0, []), segments, from, to);
      if g.bytes == [] then g.done else g.done + [Window(g.start, g.bytes)]
  }

  // ---------------------------------------------------------------------
  // What it stands for

  /**
   The segments are non-empty, at most `max` long, one after the other from
   `start` to the end of the history, and hold what the history has there, each
   byte with its true sequence number.
   */
  predicate Chain(segments: seq<Segment>, start: nat, history: seq<Cell>, max: nat) {
    if segments == [] then start == |history|
    else
      var first := segments[0];
      && first.start == start && 0 < |first.bytes| <= max && first.End() <= |history|
      && Cells(first.bytes, first.sequence) == history[start..first.End()]
      && Chain(segments[1..], first.End(), history, max)
  }

  /** The content is the last `stored` bytes of the history. */
  predicate Refines(c: Content, history: seq<Cell>, max: nat) {
    c.next == |history| && c.stored <= c.next && Chain(c.segments, c.next - c.stored, history, max)
  }

  function Joined(segments: seq<Segment>): seq<byte> {
    if segments == [] then [] else segments[0].bytes + Joined(segments[1..])
  }

  function JoinedCells(segments: seq<Segment>): seq<Cell> {
    if segments == [] then [] else Cells(segments[0].bytes, segments[0].sequence) + JoinedCells(segments[1..])
  }

  /** What a trim says it took is missing afterwards. */
  lemma {:induction false} TrimTakes(c: Content, n: nat)
    ensures TrimmedBy(c.segments, n) <= n
    ensures |Joined(Trim(c, n).segments)| + TrimmedBy(c.segments, n) == |Joined(c.segments)|
    decreases |c.segments|
  {
    hide Advance;
    if n != 0 && c.segments != [] && |c.segments[0].bytes| <= n {
      var first := |c.segments[0].bytes|;
      TrimTakes(Content(c.next, SaturatingSub(c.stored, first), c.segments[1..]), n - first);
    }
  }

  /** Put together, the segments are the tail of the history. */
  lemma {:induction false} JoinedIsTheTail(segments: seq<Segment>, start: nat, history: seq<Cell>, max: nat)
    requires Chain(segments, start, history, max)
    ensures start <= |history| && JoinedCells(segments) == history[start..]
    ensures |Joined(segments)| == |history| - start
    ensures forall k :: 0 <= k < |Joined(segments)| ==> Joined(segments)[k] == history[start + k].data
  {
    if segments != [] {
      hide Advance;
      var end := segments[0].End();
      JoinedIsTheTail(segments[1..], end, history, max);
      assert history[start..] == history[start..end] + history[end..];
      forall k | 0 <= k < |Joined(segments)|
        ensures Joined(segments)[k] == history[start + k].data
      {
        if k < end - start {
          assert Cells(segments[0].bytes, segments[0].sequence)[k] == history[start..end][k];
        } else {
          assert Joined(segments)[k] == Joined(segments[1..])[k - (end - start)];
        }
      }
    }
  }

  lemma {:induction false} ChainGrows(
    segments: seq<Segment>, start: nat, history: seq<Cell>, max: nat, added: Segment)
    requires Chain(segments, start, history, max)
    requires added.start == |history| && 0 < |added.bytes| <= max
    ensures Chain(segments + [added], start, history + Cells(added.bytes, added.sequence), max)
    decreases |segments|
  {
    hide Cells;
    var longer := history + Cells(added.bytes, added.sequence);
    if segments == [] {
      assert longer[|history|..] == Cells(added.bytes, added.sequence);
    } else {
      var end := segments[0].End();
      assert longer[start..end] == history[start..end];
      assert (segments + [added])[1..] == segments[1..] + [added];
      ChainGrows(segments[1..], end, history, max, added);
    }
  }

  lemma {:induction false} ChainMerges(
    segments: seq<Segment>, start: nat, history: seq<Cell>, max: nat, sequence: Option<u32>, slice: seq<byte>)
    requires Chain(segments, start, history, max) && Merges(segments, sequence, slice, max)
    ensures var last := segments[|segments| - 1];
            Chain(segments[..|segments| - 1] + [last.(bytes := last.bytes + slice)],
                  start, history + Cells(slice, sequence), max)
    decreases |segments|
  {
    hide Cells, Advance;
    var last := segments[|segments| - 1];
    var end := segments[0].End();
    var merged := segments[..|segments| - 1] + [last.(bytes := last.bytes + slice)];
    var longer := history + Cells(slice, sequence);
    if |segments| == 1 {
      CellsConcat(last.bytes, slice, last.sequence);
      assert longer[start..] == history[start..end] + Cells(slice, sequence);
    } else {
      assert longer[start..end] == history[start..end];
      assert merged[1..] == segments[1..][..|segments| - 2] + [last.(bytes := last.bytes + slice)];
      ChainMerges(segments[1..], end, history, max, sequence, slice);
    }
  }

  /** Storing a slice stores exactly its bytes after what was there. */
  lemma StoreRefines(
    c: Content, history: seq<Cell>, sequence: Option<u32>, observed: nat, slice: seq<byte>, max: nat)
    requires Refines(c, history, max) && 0 < |slice| <= max
    ensures Refines(Store(c, sequence, observed, slice, max), history + Cells(slice, sequence), max)
  {
    hide Cells, Chain, Merges;
    if Merges(c.segments, sequence, slice, max) {
      ChainMerges(c.segments, c.next - c.stored, history, max, sequence, slice);
    } else {
      ChainGrows(c.segments, c.next - c.stored, history, max, Segment(c.next, sequence, observed, slice));
    }
  }

  /** An append extends the history by its bytes and what is stored by as many. */
  lemma {:induction false} AppendRefines(
    c: Content, history: seq<Cell>, bytes: seq<byte>, sequence: Option<u32>, observed: nat, max: nat)
    requires max > 0 && Refines(c, history, max)
    ensures var after := Append(c, bytes, sequence, observed, max);
            && Refines(after, history + Cells(bytes, sequence), max)
            && after.next == c.next + |bytes| && after.stored == c.stored + |bytes|
    decreases |bytes|
  {
    hide Cells, Advance, Refines, AddSlice;
    if bytes == [] {
      assert history + Cells(bytes, sequence) == history;
    } else {
      var take := Min(|bytes|, max);
      var slice := bytes[..take];
      StoreRefines(c, history, sequence, observed, slice, max);
      CellsSplit(bytes, sequence, take);
      var stored := Store(c, sequence, observed, slice, max);
      AppendRefines(stored, history + Cells(slice, sequence), bytes[take..], Advance(sequence, take), observed, max);
      assert history + Cells(bytes, sequence)
          == history + Cells(slice, sequence) + Cells(bytes[take..], Advance(sequence, take));
    }
  }

  /** Each slice of an append is reported once, and either joins a segment or becomes one. */
  lemma {:induction false} SlicesAreCounted(
    c: Content, bytes: seq<byte>, sequence: Option<u32>, observed: nat, max: nat)
    requires max > 0
    ensures |Append(c, bytes, sequence, observed, max).segments| + MergedBy(c, bytes, sequence, observed, max)
            == |c.segments| + |RangesOf(c.next, bytes, sequence, max)|
    decreases |bytes|
  {
    hide Advance, Merges;
    if bytes != [] {
      var take := Min(|bytes|, max);
      var next := Store(c, sequence, observed, bytes[..take], max);
      SlicesAreCounted(next, bytes[take..], Advance(sequence, take), observed, max);
      SliceIsCounted(c, sequence, observed, bytes[..take], max);
    }
  }

  lemma SliceIsCounted(c: Content, sequence: Option<u32>, observed: nat, slice: seq<byte>, max: nat)
    ensures |Store(c, sequence, observed, slice, max).segments|
            == |c.segments| + if Merges(c.segments, sequence, slice, max) then 0 else 1
  {
    hide Advance;
  }

  /** A trim drops as many of the oldest bytes as asked, or all there are. */
  lemma {:induction false} TrimRefines(c: Content, history: seq<Cell>, n: nat, max: nat)
    requires Refines(c, history, max)
    ensures var after := Trim(c, n);
            Refines(after, history, max) && after.next == c.next && after.stored == SaturatingSub(c.stored, n)
    decreases |c.segments|
  {
    hide Cells, Advance;
    if n != 0 && c.segments != [] {
      var first := c.segments[0];
      var start := c.next - c.stored;
      ChainFits(c.segments[1..], first.End(), history, max);
      if |first.bytes| <= n {
        var next := Content(c.next, SaturatingSub(c.stored, |first.bytes|), c.segments[1..]);
        TrimRefines(next, history, n - |first.bytes|, max);
      } else {
        CellsSplit(first.bytes, first.sequence, n);
        var rest := Segment(first.start + n, Advance(first.sequence, n), first.observed, first.bytes[n..]);
        assert ([rest] + c.segments[1..])[1..] == c.segments[1..];
        assert history[start + n..first.End()] == history[start..first.End()][n..];
      }
    }
  }

  lemma ChainFits(segments: seq<Segment>, start: nat, history: seq<Cell>, max: nat)
    requires Chain(segments, start, history, max)
    ensures start <= |history| && (segments == [] <==> start == |history|)
  {
    hide Cells;
  }

  // ---------------------------------------------------------------------
  // Any run

  datatype Operation =
    | Appending(bytes: seq<byte>, sequence: Option<u32>, observed: nat)
    | Trimming(n: nat)

  function Run(c: Content, ops: seq<Operation>, max: nat): Content
    requires max > 0
    decreases |ops|
  {
    if ops == [] then c
    else
      var op := ops[0];
      Run(if op.Trimming? then Trim(c, op.n) else Append(c, op.bytes, op.sequence, op.observed, max), ops[1..], max)
  }

  /** Everything a run appended. */
  function History(ops: seq<Operation>): seq<Cell> {
    if ops == [] then []
    else (if ops[0].Trimming? then [] else Cells(ops[0].bytes, ops[0].sequence)) + History(ops[1..])
  }

  lemma {:induction false} RunRefines(c: Content, history: seq<Cell>, ops: seq<Operation>, max: nat)
    requires max > 0 && Refines(c, history, max)
    ensures Refines(Run(c, ops, max), history + History(ops), max)
    decreases |ops|
  {
    hide Cells, Refines, Append, Trim;
    if ops == [] {
      assert history + History(ops) == history;
    } else {
      var op := ops[0];
      if op.Trimming? {
        TrimRefines(c, history, op.n, max);
        RunRefines(Trim(c, op.n), history, ops[1..], max);
        assert [] + History(ops[1..]) == History(ops[1..]);
      } else {
        AppendRefines(c, history, op.bytes, op.sequence, op.observed, max);
        var longer := history + Cells(op.bytes, op.sequence);
        RunRefines(Append(c, op.bytes, op.sequence, op.observed, max), longer, ops[1..], max);
        assert history + History(ops) == longer + History(ops[1..]);
      }
    }
  }

  /**
   Whatever is appended and trimmed in whatever order, the segments are the last
   `stored` bytes of all that was appended, with their sequence numbers.
   */
  lemma EveryRunIsATail(ops: seq<Operation>, max: nat)
    requires max > 0
    ensures var c := Run(EMPTY, ops, max);
            var history := History(ops);
            && Refines(c, history, max) && c.stored <= |history|
            && JoinedCells(c.segments) == history[|history| - c.stored..]
  {
    hide Run, History, Cells;
    RunRefines(EMPTY, [], ops, max);
    assert [] + History(ops) == History(ops);
    var c := Run(EMPTY, ops, max);
    JoinedIsTheTail(c.segments, c.next - c.stored, History(ops), max);
  }

  // ---------------------------------------------------------------------
  // Segments are no shorter than they need be

  /** The second segment carries on where the first ends, and both fit in one. */
  predicate Joinable(s: Segment, t: Segment, max: nat) {
    && s.sequence.Some? && t.sequence == Some((s.sequence.value + |s.bytes|) % 0x1_0000_0000)
    && |s.bytes| + |t.bytes| <= max
  }

  /** No two segments next to each other could be one; only the first, which trims cut, is left out. */
  predicate Packed(segments: seq<Segment>, max: nat) {
    forall i :: 1 <= i < |segments| - 1 ==> !Joinable(segments[i], segments[i + 1], max)
  }

  lemma AddSlicePacks(
    segments: seq<Segment>, start: nat, sequence: Option<u32>, observed: nat, slice: seq<byte>, max: nat)
    requires Packed(segments, max)
    ensures Packed(AddSlice(segments, start, sequence, observed, slice, max), max)
  {
    var after := AddSlice(segments, start, sequence, observed, slice, max);
    forall i | 1 <= i < |after| - 1
      ensures !Joinable(after[i], after[i + 1], max)
    {
      if i + 1 < |segments| {
        assert !Joinable(segments[i], segments[i + 1], max);
      }
    }
  }

  lemma {:induction false} AppendPacks(c: Content, bytes: seq<byte>, sequence: Option<u32>, observed: nat, max: nat)
    requires max > 0 && Packed(c.segments, max)
    ensures Packed(Append(c, bytes, sequence, observed, max).segments, max)
    decreases |bytes|
  {
    if bytes != [] {
      hide Packed, AddSlice, Advance;
      var take := Min(|bytes|, max);
      AddSlicePacks(c.segments, c.next, sequence, observed, bytes[..take], max);
      AppendPacks(Store(c, sequence, observed, bytes[..take], max), bytes[take..], Advance(sequence, take), observed, max);
    }
  }

  lemma {:induction false} TrimPacks(c: Content, n: nat, max: nat)
    requires Packed(c.segments, max)
    ensures Packed(Trim(c, n).segments, max)
    decreases |c.segments|
  {
    hide Joinable, Advance;
    if n != 0 && c.segments != [] && |c.segments[0].bytes| <= n {
      assert forall i :: 0 <= i < |c.segments| - 1 ==> c.segments[1..][i] == c.segments[i + 1];
      TrimPacks(Content(c.next, SaturatingSub(c.stored, |c.segments[0].bytes|), c.segments[1..]),
                n - |c.segments[0].bytes|, max);
    }
  }

  /** Over any run, bytes that could go into the segment before them did. */
  lemma {:induction false} EveryRunIsPacked(c: Content, ops: seq<Operation>, max: nat)
    requires max > 0 && Packed(c.segments, max)
    ensures Packed(Run(c, ops, max).segments, max)
    decreases |ops|
  {
    if ops != [] {
      hide Packed, Append, Trim;
      var op := ops[0];
      if op.Trimming? {
        TrimPacks(c, op.n, max);
        EveryRunIsPacked(Trim(c, op.n), ops[1..], max);
      } else {
        AppendPacks(c, op.bytes, op.sequence, op.observed, max);
        EveryRunIsPacked(Append(c, op.bytes, op.sequence, op.observed, max), ops[1..], max);
      }
    }
  }

  // ---------------------------------------------------------------------
  // Windows

  /** Bytes with their places. */
  function Placed(bytes: seq<byte>, at: nat): (r: seq<(nat, byte)>)
    ensures |r| == |bytes|
  {
    seq(|bytes|, k requires 0 <= k < |bytes| => (at + k, bytes[k]))
  }

  function PlacedWindows(windows: seq<Window>): seq<(nat, byte)> {
    if windows == [] then []
    else PlacedWindows(windows[..|windows| - 1]) + Placed(windows[|windows| - 1].bytes, windows[|windows| - 1].start)
  }

  /** The bytes of the segments that lie from `from` to `to`. */
  function PlacedWithin(segments: seq<Segment>, from: nat, to: nat): seq<(nat, byte)> {
    if segments == [] then []
    else
      var s := segments[0];
      var start, end := Max(s.start, from), Min(s.End(), to);
      (if start < end then Placed(s.bytes[start - s.start..end - s.start], start) else [])
      + PlacedWithin(segments[1..], from, to)
  }

  /** No window is empty, and none ends where the next one starts. */
  predicate Apart(windows: seq<Window>) {
    && (forall i :: 0 <= i < |windows| ==> windows[i].bytes != [])
    && (forall i :: 0 <= i < |windows| - 1 ==> windows[i].start + |windows[i].bytes| != windows[i + 1].start)
  }

  /** All windows so far, the open one included. */
  function Opened(g: Gathered): seq<Window> {
    if g.bytes == [] then g.done else g.done + [Window(g.start, g.bytes)]
  }

  predicate GatheredOk(g: Gathered) {
    Apart(Opened(g)) && (g.bytes == [] ==> g.done == []) && (g.bytes != [] ==> g.end == g.start + |g.bytes|)
  }

  lemma PlacedConcat(a: seq<byte>, b: seq<byte>, at: nat)
    ensures Placed(a + b, at) == Placed(a, at) + Placed(b, at + |a|)
  {
  }

  lemma PlacedLast(windows: seq<Window>, w: Window)
    ensures PlacedWindows(windows + [w]) == PlacedWindows(windows) + Placed(w.bytes, w.start)
  {
    assert (windows + [w])[..|windows|] == windows;
  }

  lemma ApartLast(windows: seq<Window>, w: Window)
    requires Apart(windows) && w.bytes != []
    requires windows != [] ==> var last := windows[|windows| - 1]; last.start + |last.bytes| != w.start
    ensures Apart(windows + [w])
  {
  }

  lemma ApartLonger(windows: seq<Window>, w: Window, longer: Window)
    requires Apart(windows + [w]) && longer.start == w.start && longer.bytes != []
    ensures Apart(windows + [longer])
  {
    forall i | 0 <= i < |windows|
      ensures windows[i].bytes != []
      ensures windows[i].start + |windows[i].bytes| != (windows + [longer])[i + 1].start
    {
      var before := windows + [w];
      assert before[i].bytes != [] && before[i].start + |before[i].bytes| != before[i + 1].start;
    }
  }

  lemma GatherPlaces(g: Gathered, s: Segment, from: nat, to: nat)
    requires GatheredOk(g)
    ensures GatheredOk(Gather(g, s, from, to))
    ensures PlacedWindows(Opened(Gather(g, s, from, to))) == PlacedWindows(Opened(g)) + PlacedWithin([s], from, to)
  {
    hide PlacedWindows, Apart, Placed;
    var start, end := Max(s.start, from), Min(s.End(), to);
    if start < end {
      var part := s.bytes[start - s.start..end - s.start];
      var window := Window(start, part);
      assert PlacedWithin([s], from, to) == Placed(part, start);
      if g.bytes != [] && start == g.end {
        var open, longer := Window(g.start, g.bytes), Window(g.start, g.bytes + part);
        ApartLonger(g.done, open, longer);
        PlacedLast(g.done, open);
        PlacedLast(g.done, longer);
        PlacedConcat(g.bytes, part, g.start);
      } else {
        ApartLast(Opened(g), window);
        PlacedLast(Opened(g), window);
      }
    } else {
      assert PlacedWithin([s], from, to) == [];
    }
  }

  /**
   Whatever the segments, the windows hold exactly their bytes within the request, in
   order and at their places, and are as long as they can be.
   */
  lemma WindowsHoldWhatIsAsked(segments: seq<Segment>, from: nat, to: nat)
    ensures var windows := Windows(segments, from, to);
            Apart(windows) && PlacedWindows(windows) == PlacedWithin(segments, from, to)
  {
    hide PlacedWindows, GatherAll;
    if from < to {
      assert PlacedWindows([]) == [] by { NothingPlaced(); }
      GatherAllPlaces(Gathered([], 0, 0, []), segments, from, to);
      assert [] + PlacedWithin(segments, from, to) == PlacedWithin(segments, from, to);
    } else {
      NothingPlaced();
      NothingWithin(segments, from, to);
    }
  }

  lemma NothingPlaced()
    ensures PlacedWindows([]) == []
  {
  }

  lemma {:induction false} NothingWithin(segments: seq<Segment>, from: nat, to: nat)
    requires from >= to
    ensures PlacedWithin(segments, from, to) == []
  {
    if segments != [] {
      NothingWithin(segments[1..], from, to);
    }
  }

  lemma {:induction false} GatherAllPlaces(g: Gathered, segments: seq<Segment>, from: nat, to: nat)
    requires GatheredOk(g)
    ensures var after := GatherAll(g, segments, from, to);
            && GatheredOk(after)
            && PlacedWindows(Opened(after)) == PlacedWindows(Opened(g)) + PlacedWithin(segments, from, to)
    decreases |segments|
  {
    hide GatheredOk, PlacedWindows, Opened, Gather, Placed;
    if segments != [] {
      var next := Gather(g, segments[0], from, to);
      GatherPlaces(g, segments[0], from, to);
      GatherAllPlaces(next, segments[1..], from, to);
      var before, first, rest := PlacedWindows(Opened(g)), PlacedWithin([segments[0]], from, to),
                                 PlacedWithin(segments[1..], from, to);
      assert [segments[0]][1..] == [];
      assert PlacedWithin(segments, from, to) == first + rest;
      assert before + first + rest == before + (first + rest);
    }
  }

  function Data(cells: seq<Cell>): (r: seq<byte>)
    ensures |r| == |cells|
  {
    seq(|cells|, k requires 0 <= k < |cells| => cells[k].data)
  }

  /** What a scan of the segments up to `at` has gathered when they hold the history from `base` on. */
  predicate GatheredUpTo(g: Gathered, base: nat, at: nat, from: nat, to: nat, history: seq<Cell>)
    requires at <= |history|
  {
    var start, end := Max(base, from), Min(at, to);
    && g.done == []
    && if start >= end then g.bytes == []
       else g.start == start && g.end == end && g.bytes == Data(history[start..end])
  }

  lemma GatherStep(g: Gathered, s: Segment, base: nat, from: nat, to: nat, history: seq<Cell>)
    requires base <= s.start && s.End() <= |history| && GatheredUpTo(g, base, s.start, from, to, history)
    requires Cells(s.bytes, s.sequence) == history[s.start..s.End()]
    ensures GatheredUpTo(Gather(g, s, from, to), base, s.End(), from, to, history)
  {
    hide Advance;
    var start, end := Max(s.start, from), Min(s.End(), to);
    if start < end {
      var part := s.bytes[start - s.start..end - s.start];
      SegmentData(s, start, end, history);
      var low := Max(base, from);
      if low < Min(s.start, to) {
        DataConcat(history[low..s.start], history[s.start..end]);
        assert history[low..end] == history[low..s.start] + history[s.start..end];
      }
    }
  }

  lemma DataConcat(a: seq<Cell>, b: seq<Cell>)
    ensures Data(a + b) == Data(a) + Data(b)
  {
  }

  lemma SegmentData(s: Segment, start: nat, end: nat, history: seq<Cell>)
    requires s.start <= start <= end <= s.End() <= |history|
    requires Cells(s.bytes, s.sequence) == history[s.start..s.End()]
    ensures s.bytes[start - s.start..end - s.start] == Data(history[start..end])
  {
    hide Advance;
    forall k | start <= k < end
      ensures s.bytes[k - s.start] == history[k].data
    {
      assert Cells(s.bytes, s.sequence)[k - s.start] == history[s.start..s.End()][k - s.start];
    }
  }

  lemma {:induction false} GatherAllSteps(
    g: Gathered, segments: seq<Segment>, base: nat, at: nat, from: nat, to: nat, history: seq<Cell>, max: nat)
    requires Chain(segments, at, history, max) && base <= at <= |history|
    requires GatheredUpTo(g, base, at, from, to, history)
    ensures GatheredUpTo(GatherAll(g, segments, from, to), base, |history|, from, to, history)
    decreases |segments|
  {
    if segments != [] {
      hide Cells, GatheredUpTo, Gather;
      GatherStep(g, segments[0], base, from, to, history);
      GatherAllSteps(Gather(g, segments[0], from, to), segments[1..], base, segments[0].End(), from, to, history, max);
    }
  }

  /** A window request gets the retained part of what it asks for, in one piece, or nothing if there is none. */
  lemma WindowsAreTheRetainedPart(c: Content, history: seq<Cell>, max: nat, from: nat, to: nat)
    requires Refines(c, history, max)
    ensures var start, end := Max(c.next - c.stored, from), Min(c.next, to);
            Windows(c.segments, from, to)
            == if start < end then [Window(start, Data(history[start..end]))] else []
  {
    hide Cells, Chain, GatherAll, Data;
    ChainFits(c.segments, c.next - c.stored, history, max);
    GatherAllSteps(Gathered([], 0, 0, []), c.segments, c.next - c.stored, c.next - c.stored, from, to, history, max);
  }

  // ---------------------------------------------------------------------
  // Reported ranges

  /** Ranges end to end from `at` to `end`; the byte at `origin` has the sequence number given. */
  predicate Tile(ranges: seq<Range>, at: nat, end: nat, origin: nat, sequence: Option<u32>, max: nat)
    requires origin <= at
  {
    if ranges == [] then at == end
    else
      var r := ranges[0];
      && r.start == at < r.end && r.stored == r.end - r.start <= max
      && r.sequenceStart == Advance(sequence, at - origin) && r.sequenceEnd == Advance(sequence, r.end - origin)
      && Tile(ranges[1..], r.end, end, origin, sequence, max)
  }

  /** The ranges an append reports lie end to end over exactly the new bytes, with their sequence numbers. */
  lemma RangesTile(start: nat, bytes: seq<byte>, sequence: Option<u32>, max: nat)
    requires max > 0
    ensures Tile(RangesOf(start, bytes, sequence, max), start, start + |bytes|, start, sequence, max)
  {
    AdvanceTwice(sequence, 0, 0);
    RangesTileFrom(start, bytes, max, start, sequence);
  }

  lemma {:induction false} RangesTileFrom(at: nat, bytes: seq<byte>, max: nat, origin: nat, sequence: Option<u32>)
    requires max > 0 && origin <= at
    ensures Tile(RangesOf(at, bytes, Advance(sequence, at - origin), max), at, at + |bytes|, origin, sequence, max)
    decreases |bytes|
  {
    if bytes != [] {
      hide Advance;
      var take := Min(|bytes|, max);
      AdvanceTwice(sequence, at - origin, take);
      RangesTileFrom(at + take, bytes[take..], max, origin, sequence);
    }
  }
}
