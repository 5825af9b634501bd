/**
 What scanning each update of a stored stream finds: every literal occurrence
 exactly once, as one scan of everything the stream ever carried would.
 */
module PatternScan {
  import opened Bytes
  import C = ContentDirection
  import opened ContentRecords

  type Patterns = seq<seq<byte>>

  /** Pattern `pattern` stands at `start` up to `end`. */
  datatype Match = Match(pattern: nat, start: nat, end: nat)

  predicate NonEmpty(patterns: Patterns) {
    forall p :: 0 <= p < |patterns| ==> patterns[p] != []
  }

  predicate Occurs(m: Match, patterns: Patterns, text: seq<byte>) {
    && m.pattern < |patterns|
    && At(text, m.start, patterns[m.pattern])
    && m.end == m.start + |patterns[m.pattern]|
  }

  /** All that an overlapping search of `text` finds. */
  function Occurrences(patterns: Patterns, text: seq<byte>): set<Match> {
    set p: nat, s: nat | p < |patterns| && s <= |text| && At(text, s, patterns[p]) :: Match(p, s, s + |patterns[p]|)
  }

  lemma OccurrencesAre(patterns: Patterns, text: seq<byte>, m: Match)
    ensures m in Occurrences(patterns, text) <==> Occurs(m, patterns, text)
  {
    if Occurs(m, patterns, text) {
      assert m == Match(m.pattern, m.start, m.start + |patterns[m.pattern]|);
    }
  }

  function MaxLiteralLen(patterns: Patterns): nat {
    if patterns == [] then 0 else Max(MaxLiteralLen(patterns[..|patterns| - 1]), |patterns[|patterns| - 1]|)
  }

  lemma {:induction false} NoLiteralIsLonger(patterns: Patterns, p: nat)
    requires p < |patterns|
    ensures |patterns[p]| <= MaxLiteralLen(patterns)
  {
    if p < |patterns| - 1 {
      NoLiteralIsLonger(patterns[..|patterns| - 1], p);
    }
  }

  function Lookbehind(patterns: Patterns, regexWindow: nat): nat {
    Max(SaturatingSub(MaxLiteralLen(patterns), 1), regexWindow)
  }

  // ---------------------------------------------------------------------
  // One range of new bytes

  function Shift(m: Match, n: nat): Match { Match(m.pattern, m.start + n, m.end + n) }

  /** A match of a window that touches the new bytes. */
  predicate IsNew(m: Match, from: nat, to: nat) {
    m.start != m.end && m.start < to && m.end > from
  }

  function InWindow(patterns: Patterns, w: C.Window, from: nat, to: nat): set<Match> {
    set m | m in Occurrences(patterns, w.bytes) && IsNew(Shift(m, w.start), from, to) :: Shift(m, w.start)
  }

  function InWindows(patterns: Patterns, windows: seq<C.Window>, from: nat, to: nat): set<Match> {
    if windows == [] then {} else InWindow(patterns, windows[0], from, to) + InWindows(patterns, windows[1..], from, to)
  }

  /** What scanning the windows fetched for a new range finds. */
  function InRange(patterns: Patterns, regexWindow: nat, c: C.Content, from: nat, to: nat): set<Match> {
    InWindows(patterns, C.Windows(c.segments, SaturatingSub(from, Lookbehind(patterns, regexWindow)), to), from, to)
  }

  /** An occurrence in the whole history that ends in the range and starts where it is still kept. */
  predicate Expected(m: Match, patterns: Patterns, history: seq<byte>, base: nat, from: nat, to: nat) {
    Occurs(m, patterns, history) && base <= m.start && from < m.end <= to
  }

  lemma WindowFinds(
    patterns: Patterns, history: seq<byte>, w: C.Window, low: nat, base: nat, from: nat, to: nat, m: Match)
    requires NonEmpty(patterns) && w.start == Max(base, low) <= to <= |history| && w.bytes == history[w.start..to]
    requires m.pattern < |patterns| ==> low + |patterns[m.pattern]| <= from + 1 || low == 0
    ensures m in InWindow(patterns, w, from, to) <==> Expected(m, patterns, history, base, from, to)
  {
    hide Occurrences;
    if m in InWindow(patterns, w, from, to) {
      var n :| n in Occurrences(patterns, w.bytes) && IsNew(Shift(n, w.start), from, to) && m == Shift(n, w.start);
      OccurrencesAre(patterns, w.bytes, n);
      WindowSlice(history, w, to, n.start, patterns[n.pattern]);
    }
    if Expected(m, patterns, history, base, from, to) {
      assert low <= m.start;
      var n := Match(m.pattern, m.start - w.start, m.end - w.start);
      WindowSlice(history, w, to, n.start, patterns[n.pattern]);
      OccurrencesAre(patterns, w.bytes, n);
      assert Shift(n, w.start) == m;
    }
  }

  /** A word stands in a window where it stands in the history. */
  lemma WindowSlice(history: seq<byte>, w: C.Window, to: nat, start: nat, word: seq<byte>)
    requires w.start <= to <= |history| && w.bytes == history[w.start..to]
    ensures At(w.bytes, start, word) <==> At(history, w.start + start, word) && w.start + start + |word| <= to
  {
    if w.start + start + |word| <= to {
      SliceOfSlice(history, w.start, to, start, start + |word|);
    }
  }

  /** A scan of a range finds exactly the occurrences that end in it and are still kept. */
  lemma RangeFinds(
    patterns: Patterns, regexWindow: nat, c: C.Content, cells: seq<C.Cell>, max: nat, from: nat, to: nat, m: Match)
    requires NonEmpty(patterns) && C.Refines(c, cells, max) && from < to <= c.next
    ensures m in InRange(patterns, regexWindow, c, from, to)
            <==> Expected(m, patterns, C.Data(cells), c.next - c.stored, from, to)
  {
    hide C.Windows, C.Chain, InWindow, Expected;
    var low := SaturatingSub(from, Lookbehind(patterns, regexWindow));
    var base := c.next - c.stored;
    var history := C.Data(cells);
    C.WindowsAreTheRetainedPart(c, cells, max, low, to);
    if m.pattern < |patterns| {
      NoLiteralIsLonger(patterns, m.pattern);
    }
    if base < to {
      var w := C.Window(Max(base, low), C.Data(cells[Max(base, low)..to]));
      assert w.bytes == history[w.start..to];
      WindowFinds(patterns, history, w, low, base, from, to, m);
      assert InWindows(patterns, [w], from, to) == InWindow(patterns, w, from, to);
    } else {
      NothingBeforeTheBase(patterns, history, base, from, to, m);
    }
  }

  lemma NothingBeforeTheBase(patterns: Patterns, history: seq<byte>, base: nat, from: nat, to: nat, m: Match)
    requires NonEmpty(patterns) && to <= base
    ensures !Expected(m, patterns, history, base, from, to)
  {
  }

  // ---------------------------------------------------------------------
  // The ranges of one update

  /** Ranges of one direction, end to end. */
  predicate EndToEnd(ranges: seq<C.Range>, at: nat, end: nat) {
    if ranges == [] then at == end
    else ranges[0].start == at < ranges[0].end && EndToEnd(ranges[1..], ranges[0].end, end)
  }

  function RangesIn(reported: seq<Reported>, d: Direction): seq<C.Range> {
    if reported == [] then []
    else (if reported[0].direction == d then [reported[0].range] else []) + RangesIn(reported[1..], d)
  }

  /** How often the scans of some ranges find a match. */
  function Found(m: Match, patterns: Patterns, regexWindow: nat, c: C.Content, ranges: seq<C.Range>): nat {
    if ranges == [] then 0
    else (if m in InRange(patterns, regexWindow, c, ranges[0].start, ranges[0].end) then 1 else 0)
         + Found(m, patterns, regexWindow, c, ranges[1..])
  }

  lemma {:induction false} EndToEndIsForward(ranges: seq<C.Range>, at: nat, end: nat)
    requires EndToEnd(ranges, at, end)
    ensures at <= end
  {
    if ranges != [] {
      EndToEndIsForward(ranges[1..], ranges[0].end, end);
    }
  }

  lemma {:induction false} UpdateFinds(
    m: Match, patterns: Patterns, regexWindow: nat, c: C.Content, cells: seq<C.Cell>, max: nat,
    ranges: seq<C.Range>, at: nat, end: nat)
    requires NonEmpty(patterns) && C.Refines(c, cells, max) && EndToEnd(ranges, at, end) && end <= c.next
    ensures Found(m, patterns, regexWindow, c, ranges)
            == if Expected(m, patterns, C.Data(cells), c.next - c.stored, at, end) then 1 else 0
    decreases |ranges|
  {
    if ranges != [] {
      hide InRange, Occurs, C.Refines, C.Data, NonEmpty;
      var r := ranges[0];
      EndToEndIsForward(ranges[1..], r.end, end);
      RangeFinds(patterns, regexWindow, c, cells, max, r.start, r.end, m);
      UpdateFinds(m, patterns, regexWindow, c, cells, max, ranges[1..], r.end, end);
    }
  }

  // ---------------------------------------------------------------------
  // What an observation reports

  lemma {:induction false} RangesInConcat(a: seq<Reported>, b: seq<Reported>, d: Direction)
    ensures RangesIn(a + b, d) == RangesIn(a, d) + RangesIn(b, d)
  {
    if a == [] {
      assert a + b == b;
    } else {
      assert (a + b)[1..] == a[1..] + b;
      RangesInConcat(a[1..], b, d);
    }
  }

  lemma {:induction false} EndToEndConcat(a: seq<C.Range>, b: seq<C.Range>, at: nat, mid: nat, end: nat)
    requires EndToEnd(a, at, mid) && EndToEnd(b, mid, end)
    ensures EndToEnd(a + b, at, end)
  {
    if a == [] {
      assert a + b == b;
    } else {
      assert (a + b)[1..] == a[1..] + b;
      EndToEndConcat(a[1..], b, a[0].end, mid, end);
    }
  }

  lemma {:induction false} ReportIn(d: Direction, ranges: seq<C.Range>, e: Direction)
    ensures RangesIn(Report(d, ranges), e) == if d == e then ranges else []
  {
    if ranges != [] {
      assert Report(d, ranges)[1..] == Report(d, ranges[1..]);
      ReportIn(d, ranges[1..], e);
    }
  }

  lemma {:induction false} TileIsEndToEnd(
    ranges: seq<C.Range>, at: nat, end: nat, origin: nat, sequence: Option<u32>, max: nat)
    requires origin <= at && C.Tile(ranges, at, end, origin, sequence, max)
    ensures EndToEnd(ranges, at, end)
  {
    if ranges != [] {
      TileIsEndToEnd(ranges[1..], ranges[0].end, end, origin, sequence, max);
    }
  }

  /** The ranges reported for one chunk cover what it added, in its own direction only. */
  lemma ChunkReports(r: Record, h: Histories, chunk: Chunk, now: nat, limits: Limits, d: Direction)
    requires limits.segment > 0 && RecordRefines(r, h, limits.segment)
    ensures var (after, u) := Observe(r, chunk, now, limits);
            EndToEnd(RangesIn(u.ranges, d), r.Of(d).next, after.Of(d).next)
  {
    hide C.Refines, C.Append, TrimToLimit, C.Cells, C.RangesOf, C.MergedBy, C.Tile, Report, C.Advance;
    if chunk.bytes != [] {
      var c := r.Of(chunk.direction);
      C.AppendRefines(c, h.Of(chunk.direction), chunk.bytes, chunk.sequence, now, limits.segment);
      var appended := r.With(chunk.direction, C.Append(c, chunk.bytes, chunk.sequence, now, limits.segment));
      TrimToLimitKeeps(appended, Grown(h, chunk), limits.stream, limits.segment);
      C.RangesTile(c.next, chunk.bytes, chunk.sequence, limits.segment);
      var ranges := C.RangesOf(c.next, chunk.bytes, chunk.sequence, limits.segment);
      TileIsEndToEnd(ranges, c.next, c.next + |chunk.bytes|, c.next, chunk.sequence, limits.segment);
      ReportIn(chunk.direction, ranges, d);
    }
  }

  /** The ranges an observation reports cover what it added to each direction. */
  lemma {:induction false} ObservationReports(
    r: Record, h: Histories, chunks: seq<Chunk>, now: nat, limits: Limits, d: Direction)
    requires limits.segment > 0 && RecordRefines(r, h, limits.segment) && r.Stored() <= limits.stream
    ensures var (after, u) := ObserveAll(r, chunks, now, limits);
            EndToEnd(RangesIn(u.ranges, d), r.Of(d).next, after.Of(d).next)
    decreases |chunks|
  {
    if chunks != [] {
      hide Observe, RecordRefines, Record.Of, Record.Stored, Grown, RangesIn, EndToEnd;
      var first := Observe(r, chunks[0], now, limits);
      var rest := ObserveAll(first.0, chunks[1..], now, limits);
      ObserveKeeps(r, h, chunks[0], now, limits);
      ChunkReports(r, h, chunks[0], now, limits, d);
      ObservationReports(first.0, Grown(h, chunks[0]), chunks[1..], now, limits, d);
      RangesInConcat(first.1.ranges, rest.1.ranges, d);
      EndToEndConcat(RangesIn(first.1.ranges, d), RangesIn(rest.1.ranges, d),
                     r.Of(d).next, first.0.Of(d).next, rest.0.Of(d).next);
    } else {
      assert RangesIn(NO_UPDATE.ranges, d) == [];
    }
  }

  // ---------------------------------------------------------------------
  // Every run

  datatype Observation = Observation(chunks: seq<Chunk>, now: nat)

  /** How often scanning after each of some observations finds a match. */
  function FoundInRun(
    m: Match, patterns: Patterns, regexWindow: nat, r: Record, obs: seq<Observation>, limits: Limits, d: Direction): nat
    requires limits.segment > 0
    decreases |obs|
  {
    if obs == [] then 0
    else
      var (after, u) := ObserveAll(r, obs[0].chunks, obs[0].now, limits);
      Found(m, patterns, regexWindow, after.Of(d), RangesIn(u.ranges, d))
      + FoundInRun(m, patterns, regexWindow, after, obs[1..], limits, d)
  }

  /** Where what was kept began when the byte before `end` had just come in. */
  function BaseWhenSeen(r: Record, obs: seq<Observation>, limits: Limits, d: Direction, end: nat): nat
    requires limits.segment > 0
    decreases |obs|
  {
    if obs == [] then 0
    else
      var after := ObserveAll(r, obs[0].chunks, obs[0].now, limits).0;
      if end <= after.Of(d).next then SaturatingSub(after.Of(d).next, after.Of(d).stored)
      else BaseWhenSeen(after, obs[1..], limits, d, end)
  }

  function HistoryAfter(h: Histories, obs: seq<Observation>): Histories
    decreases |obs|
  {
    if obs == [] then h else HistoryAfter(GrownAll(h, obs[0].chunks), obs[1..])
  }

  lemma {:induction false} GrownAllGrows(h: Histories, chunks: seq<Chunk>, d: Direction)
    ensures h.Of(d) <= GrownAll(h, chunks).Of(d)
    decreases |chunks|
  {
    if chunks != [] {
      GrownAllGrows(Grown(h, chunks[0]), chunks[1..], d);
    }
  }

  lemma {:induction false} HistoryGrows(h: Histories, obs: seq<Observation>, d: Direction)
    ensures h.Of(d) <= HistoryAfter(h, obs).Of(d)
    decreases |obs|
  {
    if obs != [] {
      hide GrownAll;
      GrownAllGrows(h, obs[0].chunks, d);
      HistoryGrows(GrownAll(h, obs[0].chunks), obs[1..], d);
    }
  }

  /** An occurrence that has fully come in stays one as more comes in. */
  lemma ExpectedIsStable(
    m: Match, patterns: Patterns, cells: seq<C.Cell>, longer: seq<C.Cell>, base: nat, from: nat, to: nat)
    requires cells <= longer && to <= |cells|
    ensures Expected(m, patterns, C.Data(cells), base, from, to) <==> Expected(m, patterns, C.Data(longer), base, from, to)
  {
    hide C.Data;
    if m.pattern < |patterns| && m.end == m.start + |patterns[m.pattern]| && m.end <= to {
      SameData(cells, longer, m.start, m.end);
    }
  }

  lemma SameData(cells: seq<C.Cell>, longer: seq<C.Cell>, i: nat, j: nat)
    requires cells <= longer && i <= j <= |cells|
    ensures C.Data(cells)[i..j] == C.Data(longer)[i..j]
  {
    assert forall k :: 0 <= k < |cells| ==> C.Data(cells)[k] == C.Data(longer)[k];
  }

  /**
   Over any observations, scanning what each reports finds a match once if it
   is an occurrence in all that the direction has carried since, that has ended
   by now and whose start was still kept when its end came in; and never otherwise.
   */
  lemma {:induction false} EveryOccurrenceOnce(
    m: Match, patterns: Patterns, regexWindow: nat,
    r: Record, h: Histories, obs: seq<Observation>, limits: Limits, d: Direction)
    requires NonEmpty(patterns) && limits.segment > 0
    requires RecordRefines(r, h, limits.segment) && r.Stored() <= limits.stream
    ensures FoundInRun(m, patterns, regexWindow, r, obs, limits, d)
            == if && Occurs(m, patterns, C.Data(HistoryAfter(h, obs).Of(d)))
                  && r.Of(d).next < m.end && BaseWhenSeen(r, obs, limits, d, m.end) <= m.start then 1 else 0
    decreases |obs|
  {
    hide FoundInRun, BaseWhenSeen, HistoryAfter, RecordRefines, Record.Of, Record.Stored, ObserveAll, GrownAll, Histories.Of,
         C.Data, Occurs, NonEmpty, SaturatingSub;
    if obs == [] {
      NothingToFind(m, patterns, regexWindow, r, h, limits, d);
    } else {
      var step := ObserveAll(r, obs[0].chunks, obs[0].now, limits);
      var grown := GrownAll(h, obs[0].chunks);
      ObserveAllKeeps(r, h, obs[0].chunks, obs[0].now, limits);
      EveryOccurrenceOnce(m, patterns, regexWindow, step.0, grown, obs[1..], limits, d);
      OneObservation(m, patterns, regexWindow, r, h, obs, limits, d);
    }
  }

  lemma NothingToFind(
    m: Match, patterns: Patterns, regexWindow: nat, r: Record, h: Histories, limits: Limits, d: Direction)
    requires limits.segment > 0 && RecordRefines(r, h, limits.segment)
    ensures FoundInRun(m, patterns, regexWindow, r, [], limits, d) == 0
    ensures r.Of(d).next < m.end ==> !Occurs(m, patterns, C.Data(HistoryAfter(h, []).Of(d)))
  {
  }

  lemma OneObservation(
    m: Match, patterns: Patterns, regexWindow: nat,
    r: Record, h: Histories, obs: seq<Observation>, limits: Limits, d: Direction)
    requires NonEmpty(patterns) && limits.segment > 0 && obs != []
    requires RecordRefines(r, h, limits.segment) && r.Stored() <= limits.stream
    ensures var after := ObserveAll(r, obs[0].chunks, obs[0].now, limits).0;
            var grown := GrownAll(h, obs[0].chunks);
            var whole := C.Data(HistoryAfter(grown, obs[1..]).Of(d));
            && HistoryAfter(h, obs) == HistoryAfter(grown, obs[1..])
            && r.Of(d).next <= after.Of(d).next
            && BaseWhenSeen(r, obs, limits, d, m.end)
               == (if m.end <= after.Of(d).next then SaturatingSub(after.Of(d).next, after.Of(d).stored)
                   else BaseWhenSeen(after, obs[1..], limits, d, m.end))
            && FoundInRun(m, patterns, regexWindow, r, obs, limits, d)
               == (if Expected(m, patterns, whole, SaturatingSub(after.Of(d).next, after.Of(d).stored),
                               r.Of(d).next, after.Of(d).next) then 1 else 0)
                  + FoundInRun(m, patterns, regexWindow, after, obs[1..], limits, d)
  {
    hide ObserveAll, GrownAll, C.Chain, Expected, Found, C.Data, RangesIn, EndToEnd, NonEmpty;
    var (after, u) := ObserveAll(r, obs[0].chunks, obs[0].now, limits);
    var grown := GrownAll(h, obs[0].chunks);
    ObserveAllKeeps(r, h, obs[0].chunks, obs[0].now, limits);
    ObservationReports(r, h, obs[0].chunks, obs[0].now, limits, d);
    var ranges := RangesIn(u.ranges, d);
    EndToEndIsForward(ranges, r.Of(d).next, after.Of(d).next);
    UpdateFinds(m, patterns, regexWindow, after.Of(d), grown.Of(d), limits.segment, ranges, r.Of(d).next, after.Of(d).next);
    HistoryGrows(grown, obs[1..], d);
    ExpectedIsStable(m, patterns, grown.Of(d), HistoryAfter(grown, obs[1..]).Of(d),
                     after.Of(d).next - after.Of(d).stored, r.Of(d).next, after.Of(d).next);
  }

  // ---------------------------------------------------------------------
  // Without trimming

  function AllBytes(obs: seq<Observation>): nat {
    if obs == [] then 0 else TotalBytes(obs[0].chunks) + AllBytes(obs[1..])
  }

  /** While everything fits, everything is kept from the first byte on. */
  lemma {:induction false} BaseStaysZero(
    r: Record, h: Histories, obs: seq<Observation>, limits: Limits, d: Direction, end: nat)
    requires limits.segment > 0 && RecordRefines(r, h, limits.segment)
    requires r.Stored() == Arrived(r) && Arrived(r) + AllBytes(obs) <= limits.stream
    ensures BaseWhenSeen(r, obs, limits, d, end) == 0
    decreases |obs|
  {
    if obs != [] {
      hide ObserveAll, RecordRefines, GrownAll, TotalBytes, Arrived, Record.Stored;
      var after := ObserveAll(r, obs[0].chunks, obs[0].now, limits).0;
      NothingIsTrimmed(r, h, obs[0].chunks, obs[0].now, limits);
      ObserveAllKeeps(r, h, obs[0].chunks, obs[0].now, limits);
      KeptFromTheStart(after, GrownAll(h, obs[0].chunks), limits.segment, d);
      BaseStaysZero(after, GrownAll(h, obs[0].chunks), obs[1..], limits, d, end);
    }
  }

  lemma KeptFromTheStart(r: Record, h: Histories, max: nat, d: Direction)
    requires RecordRefines(r, h, max) && r.Stored() == Arrived(r)
    ensures r.Of(d).next == r.Of(d).stored
  {
    hide C.Chain;
  }

  /** For a stream that fits its limit, scanning piece by piece is scanning all of it once. */
  lemma WholeStreamScan(
    m: Match, patterns: Patterns, regexWindow: nat, now: nat, obs: seq<Observation>, limits: Limits, d: Direction)
    requires NonEmpty(patterns) && limits.segment > 0 && AllBytes(obs) <= limits.stream
    ensures var whole := C.Data(HistoryAfter(Histories([], []), obs).Of(d));
            FoundInRun(m, patterns, regexWindow, New(now), obs, limits, d)
            == if m in Occurrences(patterns, whole) then 1 else 0
  {
    hide FoundInRun, BaseWhenSeen, HistoryAfter, AllBytes, Occurrences, C.Data;
    var h := Histories([], []);
    BaseStaysZero(New(now), h, obs, limits, d, m.end);
    EveryOccurrenceOnce(m, patterns, regexWindow, New(now), h, obs, limits, d);
    OccurrencesAre(patterns, C.Data(HistoryAfter(h, obs).Of(d)), m);
  }
}
