/** Both directions of a stored stream, trimmed together to one limit. */
module ContentRecords {
  import opened Bytes
  import opened ContentDirection

  datatype Direction = AToB | BToA

  datatype Record = Record(lastSeen: nat, aToB: Content, bToA: Content, truncated: bool) {
    function Of(d: Direction): Content { if d.AToB? then aToB else bToA }

    function With(d: Direction, c: Content): Record { if d.AToB? then this.(aToB := c) else this.(bToA := c) }

    function Stored(): nat { aToB.stored + bToA.stored }
  }

  function New(now: nat): Record { Record(now, EMPTY, EMPTY, false) }

  /** The direction whose first segment was seen first; on a tie that which starts lower, then the first. */
  function OldestDirection(r: Record): Option<Direction> {
    if r.aToB.segments == [] then if r.bToA.segments == [] then None else Some(BToA)
    else if r.bToA.segments == [] then Some(AToB)
    else if Older(r.bToA.segments[0], r.aToB.segments[0]) then Some(BToA)
    else Some(AToB)
  }

  predicate Older(s: Segment, t: Segment) {
    s.observed < t.observed || (s.observed == t.observed && s.start < t.start)
  }

  /** The direction to trim is one with segments, and the other has none that is older, by time and then by place. */
  lemma OldestDirectionIs(r: Record)
    ensures OldestDirection(r) == None <==> r.aToB.segments == [] && r.bToA.segments == []
    ensures OldestDirection(r) != None ==>
              var d := OldestDirection(r).value;
              var other := if d.AToB? then r.bToA.segments else r.aToB.segments;
              && r.Of(d).segments != []
              && (other != [] ==>
                    var mine, theirs := r.Of(d).segments[0], other[0];
                    && mine.observed <= theirs.observed
                    && (mine.observed == theirs.observed ==> mine.start <= theirs.start)
                    && (mine.observed == theirs.observed && mine.start == theirs.start ==> d.AToB?))
  {
  }

  /** The record within its limit, and how many bytes that took. */
  function TrimToLimit(r: Record, limit: nat): (Record, nat)
    decreases |Joined(r.aToB.segments)| + |Joined(r.bToA.segments)|
  {
    if r.Stored() <= limit then (r, 0)
    else
      var oldest := OldestDirection(r);
      if oldest.None? then (r, 0)
      else
        var c := r.Of(oldest.value);
        var excess := r.Stored() - limit;
        var dropped := TrimmedBy(c.segments, excess);
        TrimTakes(c, excess);
        if dropped == 0 then (r.With(oldest.value, Trim(c, excess)), 0)
        else
          var rest := TrimToLimit(r.With(oldest.value, Trim(c, excess)).(truncated := true), limit);
          (rest.0, dropped + rest.1)
  }

  datatype Chunk = Chunk(direction: Direction, sequence: Option<u32>, bytes: seq<byte>)

  datatype Reported = Reported(direction: Direction, range: Range)

  /** What taking in some payload did. */
  datatype Update = Update(
    ranges: seq<Reported>, observed: nat, stored: nat, merged: nat, trimmed: nat, newlyTruncated: bool)

  const NO_UPDATE: Update := Update([], 0, 0, 0, 0, false)

  function Merge(u: Update, v: Update): Update {
    Update(u.ranges + v.ranges, u.observed + v.observed, u.stored + v.stored, u.merged + v.merged,
           u.trimmed + v.trimmed, u.newlyTruncated || v.newlyTruncated)
  }

  function Report(d: Direction, ranges: seq<Range>): (r: seq<Reported>)
    ensures |r| == |ranges|
  {
    seq(|ranges|, k requires 0 <= k < |ranges| => Reported(d, ranges[k]))
  }

  /** The bounds a record is kept to. */
  datatype Limits = Limits(segment: nat, stream: nat)

  function Observe(r: Record, chunk: Chunk, now: nat, limits: Limits): (Record, Update)
    requires limits.segment > 0
  {
    if chunk.bytes == [] then (r, NO_UPDATE)
    else
      var c := r.Of(chunk.direction);
      var appended := r.With(chunk.direction, Append(c, chunk.bytes, chunk.sequence, now, limits.segment));
      var trimmed := TrimToLimit(appended, limits.stream);
      (trimmed.0,
       Update(Report(chunk.direction, RangesOf(c.next, chunk.bytes, chunk.sequence, limits.segment)),
              |chunk.bytes|, |chunk.bytes|,
              MergedBy(c, chunk.bytes, chunk.sequence, now, limits.segment),
              trimmed.1, !r.truncated && trimmed.0.truncated))
  }

  function ObserveAll(r: Record, chunks: seq<Chunk>, now: nat, limits: Limits): (Record, Update)
    requires limits.segment > 0
    decreases |chunks|
  {
    if chunks == [] then (r, NO_UPDATE)
    else
      var first := Observe(r, chunks[0], now, limits);
      var rest := ObserveAll(first.0, chunks[1..], now, limits);
      (rest.0, Merge(first.1, rest.1))
  }

  // ---------------------------------------------------------------------
  // What a record keeps

  /** Everything that went in, direction by direction. */
  datatype Histories = Histories(aToB: seq<Cell>, bToA: seq<Cell>) {
    function Of(d: Direction): seq<Cell> { if d.AToB? then aToB else bToA }
  }

  /** Each direction holds the tail of its history, and the record says whether anything is missing. */
  predicate RecordRefines(r: Record, h: Histories, max: nat) {
    && Refines(r.aToB, h.aToB, max) && Refines(r.bToA, h.bToA, max)
    && (r.truncated <==> r.Stored() < |h.aToB| + |h.bToA|)
  }

  function Grown(h: Histories, chunk: Chunk): Histories {
    if chunk.direction.AToB? then h.(aToB := h.aToB + Cells(chunk.bytes, chunk.sequence))
    else h.(bToA := h.bToA + Cells(chunk.bytes, chunk.sequence))
  }

  function GrownAll(h: Histories, chunks: seq<Chunk>): Histories
    decreases |chunks|
  {
    if chunks == [] then h else GrownAll(Grown(h, chunks[0]), chunks[1..])
  }

  function TotalBytes(chunks: seq<Chunk>): nat {
    if chunks == [] then 0 else |chunks[0].bytes| + TotalBytes(chunks[1..])
  }

  /** In a direction that holds its history's tail, a trim takes what it stops counting as stored. */
  lemma TrimIsCounted(c: Content, history: seq<Cell>, n: nat, max: nat)
    requires Refines(c, history, max)
    ensures TrimmedBy(c.segments, n) == Min(n, c.stored) && Trim(c, n).stored == c.stored - Min(n, c.stored)
    ensures c.segments == [] <==> c.stored == 0
    ensures Refines(Trim(c, n), history, max) && Trim(c, n).next == c.next
    ensures c.stored <= |history|
  {
    hide Chain, Trim, TrimmedBy, Joined, JoinedCells;
    TrimTakes(c, n);
    TrimRefines(c, history, n, max);
    ChainFits(c.segments, c.next - c.stored, history, max);
    JoinedIsTheTail(c.segments, c.next - c.stored, history, max);
    var after := Trim(c, n);
    JoinedIsTheTail(after.segments, after.next - after.stored, history, max);
  }

  /** Trimming drops exactly the excess, and what is left of each direction is still its tail. */
  lemma {:induction false} TrimToLimitKeeps(r: Record, h: Histories, limit: nat, max: nat)
    requires RecordRefines(r, h, max)
    ensures var (after, trimmed) := TrimToLimit(r, limit);
            && RecordRefines(after, h, max)
            && after.Stored() == Min(r.Stored(), limit) && trimmed == r.Stored() - after.Stored()
            && (after.truncated <==> r.truncated || r.Stored() > limit)
            && after.lastSeen == r.lastSeen && after.aToB.next == r.aToB.next && after.bToA.next == r.bToA.next
    decreases r.Stored()
  {
    hide Refines, Trim, TrimmedBy, Older;
    if r.Stored() > limit {
      TrimIsCounted(r.aToB, h.aToB, r.Stored() - limit, max);
      TrimIsCounted(r.bToA, h.bToA, r.Stored() - limit, max);
      var d := OldestDirection(r).value;
      TrimToLimitKeeps(r.With(d, Trim(r.Of(d), r.Stored() - limit)).(truncated := true), h, limit, max);
    }
  }

  /**
   The direction that was seen first pays first: the other one loses bytes only
   when that is used up.
   */
  lemma OldestGoesFirst(r: Record, h: Histories, limit: nat, max: nat, d: Direction)
    requires RecordRefines(r, h, max) && r.Stored() > limit && r.Of(d).segments != []
    requires var other := if d.AToB? then r.bToA else r.aToB;
             other.segments == [] || Older(r.Of(d).segments[0], other.segments[0])
    ensures var after := TrimToLimit(r, limit).0;
            var excess := r.Stored() - limit;
            && after.Of(d).stored == SaturatingSub(r.Of(d).stored, excess)
            && (excess <= r.Of(d).stored ==> after == r.With(d, Trim(r.Of(d), excess)).(truncated := true))
  {
    hide Refines, Trim, TrimmedBy;
    var excess := r.Stored() - limit;
    TrimIsCounted(r.aToB, h.aToB, excess, max);
    TrimIsCounted(r.bToA, h.bToA, excess, max);
    assert OldestDirection(r) == Some(d);
    var next := r.With(d, Trim(r.Of(d), excess)).(truncated := true);
    TrimIsCounted(next.aToB, h.aToB, 0, max);
    TrimIsCounted(next.bToA, h.bToA, 0, max);
    if excess > r.Of(d).stored {
      TrimToLimitKeeps(next, h, limit, max);
      EmptyStaysEmpty(next, d, limit);
    }
  }

  lemma {:induction false} EmptyStaysEmpty(r: Record, d: Direction, limit: nat)
    requires r.Of(d).segments == []
    ensures TrimToLimit(r, limit).0.Of(d) == r.Of(d)
    decreases |Joined(r.aToB.segments)| + |Joined(r.bToA.segments)|
  {
    hide Trim, TrimmedBy;
    var oldest := OldestDirection(r);
    if r.Stored() > limit && oldest.Some? {
      var c := r.Of(oldest.value);
      TrimTakes(c, r.Stored() - limit);
      if TrimmedBy(c.segments, r.Stored() - limit) != 0 {
        EmptyStaysEmpty(r.With(oldest.value, Trim(c, r.Stored() - limit)).(truncated := true), d, limit);
      }
    }
  }

  /** What one chunk does to a record, its counters and its history. */
  lemma ObserveKeeps(r: Record, h: Histories, chunk: Chunk, now: nat, limits: Limits)
    requires limits.segment > 0 && RecordRefines(r, h, limits.segment) && r.Stored() <= limits.stream
    ensures var (after, u) := Observe(r, chunk, now, limits);
            && RecordRefines(after, Grown(h, chunk), limits.segment)
            && after.Stored() <= limits.stream && after.lastSeen == r.lastSeen
            && u.observed == u.stored == |chunk.bytes|
            && r.Stored() + u.stored == after.Stored() + u.trimmed
            && (after.truncated <==> r.truncated || u.trimmed > 0)
            && (u.newlyTruncated <==> !r.truncated && after.truncated)
            && (u.ranges == [] <==> chunk.bytes == [])
  {
    hide Refines, Append, TrimToLimit, Cells, RangesOf, MergedBy;
    if chunk.bytes == [] {
      assert h.Of(chunk.direction) + Cells(chunk.bytes, chunk.sequence) == h.Of(chunk.direction);
    } else {
      var c := r.Of(chunk.direction);
      AppendRefines(c, h.Of(chunk.direction), chunk.bytes, chunk.sequence, now, limits.segment);
      var appended := r.With(chunk.direction, Append(c, chunk.bytes, chunk.sequence, now, limits.segment));
      TrimToLimitKeeps(appended, Grown(h, chunk), limits.stream, limits.segment);
      RangesReported(c.next, chunk.bytes, chunk.sequence, limits.segment);
    }
  }

  lemma RangesReported(start: nat, bytes: seq<byte>, sequence: Option<u32>, max: nat)
    requires max > 0
    ensures RangesOf(start, bytes, sequence, max) == [] <==> bytes == []
  {
  }

  /** The same for a whole observation. */
  lemma {:induction false} ObserveAllKeeps(r: Record, h: Histories, chunks: seq<Chunk>, now: nat, limits: Limits)
    requires limits.segment > 0 && RecordRefines(r, h, limits.segment) && r.Stored() <= limits.stream
    ensures var (after, u) := ObserveAll(r, chunks, now, limits);
            && RecordRefines(after, GrownAll(h, chunks), limits.segment)
            && after.Stored() <= limits.stream && after.lastSeen == r.lastSeen
            && u.observed == u.stored == TotalBytes(chunks)
            && r.Stored() + u.stored == after.Stored() + u.trimmed
            && (after.truncated <==> r.truncated || u.trimmed > 0)
            && (u.newlyTruncated <==> !r.truncated && after.truncated)
            && (u.ranges == [] <==> TotalBytes(chunks) == 0)
    decreases |chunks|
  {
    hide RecordRefines, Observe, Grown;
    if chunks != [] {
      ObserveKeeps(r, h, chunks[0], now, limits);
      ObserveAllKeeps(Observe(r, chunks[0], now, limits).0, Grown(h, chunks[0]), chunks[1..], now, limits);
    }
  }

  /** The bytes that ever came in, in both directions. */
  function Arrived(r: Record): nat { r.aToB.next + r.bToA.next }

  /** While the limit has room for all that comes, nothing is trimmed. */
  lemma {:induction false} NothingIsTrimmed(r: Record, h: Histories, chunks: seq<Chunk>, now: nat, limits: Limits)
    requires limits.segment > 0 && RecordRefines(r, h, limits.segment)
    requires r.Stored() + TotalBytes(chunks) <= limits.stream
    ensures var (after, u) := ObserveAll(r, chunks, now, limits);
            u.trimmed == 0 && Arrived(after) == Arrived(r) + TotalBytes(chunks)
    decreases |chunks|
  {
    if chunks != [] {
      hide RecordRefines, Observe, Grown, Record.Stored, Arrived;
      ObserveKeeps(r, h, chunks[0], now, limits);
      ChunkFits(r, h, chunks[0], now, limits);
      NothingIsTrimmed(Observe(r, chunks[0], now, limits).0, Grown(h, chunks[0]), chunks[1..], now, limits);
    }
  }

  lemma ChunkFits(r: Record, h: Histories, chunk: Chunk, now: nat, limits: Limits)
    requires limits.segment > 0 && RecordRefines(r, h, limits.segment)
    requires r.Stored() + |chunk.bytes| <= limits.stream
    ensures var (after, u) := Observe(r, chunk, now, limits);
            u.trimmed == 0 && Arrived(after) == Arrived(r) + |chunk.bytes|
  {
    hide Refines, Append, TrimToLimit, Cells, RangesOf, MergedBy;
    if chunk.bytes != [] {
      var c := r.Of(chunk.direction);
      AppendRefines(c, h.Of(chunk.direction), chunk.bytes, chunk.sequence, now, limits.segment);
      var appended := r.With(chunk.direction, Append(c, chunk.bytes, chunk.sequence, now, limits.segment));
      TrimToLimitKeeps(appended, Grown(h, chunk), limits.stream, limits.segment);
    }
  }

  /** An observation that reports nothing changed nothing. */
  lemma {:induction false} NothingToObserve(r: Record, chunks: seq<Chunk>, now: nat, limits: Limits)
    requires limits.segment > 0 && TotalBytes(chunks) == 0
    ensures ObserveAll(r, chunks, now, limits) == (r, NO_UPDATE)
    decreases |chunks|
  {
    if chunks != [] {
      NothingToObserve(r, chunks[1..], now, limits);
      assert NO_UPDATE.ranges + NO_UPDATE.ranges == [];
    }
  }
}
