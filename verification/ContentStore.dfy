/** The stored direction and the stored stream as objects that are updated in place. */
module ContentStore {
  import opened Bytes
  import F = ContentDirection
  import R = ContentRecords

  /** An append of `bytes` to `c` that has come as far as `consumed`, and made `now` of `c`. */
  ghost predicate AppendedUpTo(
    c: F.Content, bytes: seq<byte>, sequence: Option<u32>, observed: nat, max: nat,
    consumed: nat, now: F.Content, ranges: seq<F.Range>, merged: nat)
    requires max > 0 && consumed <= |bytes|
  {
    var rest, on := bytes[consumed..], F.Advance(sequence, consumed);
    && F.Append(c, bytes, sequence, observed, max) == F.Append(now, rest, on, observed, max)
    && F.RangesOf(c.next, bytes, sequence, max) == ranges + F.RangesOf(now.next, rest, on, max)
    && F.MergedBy(c, bytes, sequence, observed, max) == merged + F.MergedBy(now, rest, on, observed, max)
  }

  lemma AppendTurn(
    c: F.Content, bytes: seq<byte>, sequence: Option<u32>, observed: nat, max: nat,
    consumed: nat, now: F.Content, ranges: seq<F.Range>, merged: nat)
    requires max > 0 && consumed < |bytes|
    requires AppendedUpTo(c, bytes, sequence, observed, max, consumed, now, ranges, merged)
    ensures var take := Min(|bytes| - consumed, max);
            var slice := bytes[consumed..consumed + take];
            var on := F.Advance(sequence, consumed);
            AppendedUpTo(c, bytes, sequence, observed, max, consumed + take,
                         F.Store(now, on, observed, slice, max),
                         ranges + [F.Range(now.next, now.next + take, on, F.Advance(on, take), take)],
                         merged + if F.Merges(now.segments, on, slice, max) then 1 else 0)
  {
    hide F.Advance, F.AddSlice, F.Merges, F.Append, F.RangesOf, F.MergedBy;
    var take := Min(|bytes| - consumed, max);
    var rest := bytes[consumed..];
    SliceStep(now, rest, F.Advance(sequence, consumed), observed, max);
    assert rest[..take] == bytes[consumed..consumed + take] && rest[take..] == bytes[consumed + take..];
    F.AdvanceTwice(sequence, consumed, take);
  }

  /** One turn of an append. */
  lemma SliceStep(c: F.Content, bytes: seq<byte>, sequence: Option<u32>, observed: nat, max: nat)
    requires max > 0 && bytes != []
    ensures var take := Min(|bytes|, max);
            var after := F.Store(c, sequence, observed, bytes[..take], max);
            var on := F.Advance(sequence, take);
            && F.Append(c, bytes, sequence, observed, max) == F.Append(after, bytes[take..], on, observed, max)
            && F.RangesOf(c.next, bytes, sequence, max)
               == [F.Range(c.next, c.next + take, sequence, on, take)] + F.RangesOf(after.next, bytes[take..], on, max)
            && F.MergedBy(c, bytes, sequence, observed, max)
               == (if F.Merges(c.segments, sequence, bytes[..take], max) then 1 else 0)
                  + F.MergedBy(after, bytes[take..], on, observed, max)
  {
    hide F.Advance, F.AddSlice, F.Merges, F.Append, F.RangesOf, F.MergedBy;
    AppendFirst(c, bytes, sequence, observed, max);
    RangesFirst(c.next, bytes, sequence, max);
    MergedFirst(c, bytes, sequence, observed, max);
  }

  lemma AppendFirst(c: F.Content, bytes: seq<byte>, sequence: Option<u32>, observed: nat, max: nat)
    requires max > 0 && bytes != []
    ensures var take := Min(|bytes|, max);
            F.Append(c, bytes, sequence, observed, max)
            == F.Append(F.Store(c, sequence, observed, bytes[..take], max), bytes[take..],
                        F.Advance(sequence, take), observed, max)
  {
    hide F.Advance, F.AddSlice, F.Merges, F.Store;
  }

  lemma RangesFirst(start: nat, bytes: seq<byte>, sequence: Option<u32>, max: nat)
    requires max > 0 && bytes != []
    ensures var take := Min(|bytes|, max);
            var on := F.Advance(sequence, take);
            F.RangesOf(start, bytes, sequence, max)
            == [F.Range(start, start + take, sequence, on, take)] + F.RangesOf(start + take, bytes[take..], on, max)
  {
    hide F.Advance;
  }

  lemma MergedFirst(c: F.Content, bytes: seq<byte>, sequence: Option<u32>, observed: nat, max: nat)
    requires max > 0 && bytes != []
    ensures var take := Min(|bytes|, max);
            F.MergedBy(c, bytes, sequence, observed, max)
            == (if F.Merges(c.segments, sequence, bytes[..take], max) then 1 else 0)
               + F.MergedBy(F.Store(c, sequence, observed, bytes[..take], max), bytes[take..],
                            F.Advance(sequence, take), observed, max)
  {
    hide F.Advance, F.AddSlice, F.Merges, F.Store;
  }

  lemma AppendEnds(
    c: F.Content, bytes: seq<byte>, sequence: Option<u32>, observed: nat, max: nat,
    now: F.Content, ranges: seq<F.Range>, merged: nat)
    requires max > 0 && AppendedUpTo(c, bytes, sequence, observed, max, |bytes|, now, ranges, merged)
    ensures F.Append(c, bytes, sequence, observed, max) == now
    ensures F.RangesOf(c.next, bytes, sequence, max) == ranges
    ensures F.MergedBy(c, bytes, sequence, observed, max) == merged
  {
    hide F.Advance;
    assert bytes[|bytes|..] == [];
  }

  /** What a merge or else a push, and the counters, make of the fields. */
  lemma SliceIsStored(
    before: F.Content, after: F.Content, sequence: Option<u32>, observed: nat, slice: seq<byte>, max: nat)
    requires after.next == before.next + |slice| && after.stored == before.stored + |slice|
    requires after.segments
             == if F.Merges(before.segments, sequence, slice, max)
                then LastExtended(before.segments, slice)
                else before.segments + [F.Segment(before.next, sequence, observed, slice)]
    ensures after == F.Store(before, sequence, observed, slice, max)
  {
    hide F.Advance;
  }

  function LastExtended(segments: seq<F.Segment>, bytes: seq<byte>): seq<F.Segment> {
    if segments == [] then []
    else
      var last := segments[|segments| - 1];
      segments[|segments| - 1 := last.(bytes := last.bytes + bytes)]
  }

  class DirectionContent {
    var nextOffset: nat
    var storedBytes: nat
    var segments: seq<F.Segment>

    constructor ()
      ensures Value() == F.EMPTY
    {
      nextOffset, storedBytes, segments := 0, 0, [];
    }

    function Value(): F.Content
      reads this
    {
      F.Content(nextOffset, storedBytes, segments)
    }

    method Append(bytes: seq<byte>, sequenceStart: Option<u32>, observed: nat, max: nat)
      returns (ranges: seq<F.Range>, merged: nat)
      requires max > 0
      modifies this
      ensures Value() == F.Append(old(Value()), bytes, sequenceStart, observed, max)
      ensures ranges == F.RangesOf(old(nextOffset), bytes, sequenceStart, max)
      ensures merged == F.MergedBy(old(Value()), bytes, sequenceStart, observed, max)
    {
      ranges, merged := [], 0;
      var consumed: nat := 0;
      hide F.Advance, F.Append, F.RangesOf, F.MergedBy;
      F.AdvanceTwice(sequenceStart, 0, 0);
      assert bytes[0..] == bytes;
      while consumed < |bytes|
        invariant consumed <= |bytes|
        invariant AppendedUpTo(old(Value()), bytes, sequenceStart, observed, max, consumed, Value(), ranges, merged)
      {
        hide F.AddSlice, F.Merges, F.Store, AppendedUpTo;
        var take: nat := Min(|bytes| - consumed, max);
        var slice := bytes[consumed..consumed + take];
        var start := nextOffset;
        var sequence := F.Advance(sequenceStart, consumed);
        AppendTurn(old(Value()), bytes, sequenceStart, observed, max, consumed, Value(), ranges, merged);
        var joined := StoreSlice(slice, sequence, observed, max);
        merged := merged + if joined then 1 else 0;
        ranges := ranges + [F.Range(start, start + take, sequence, F.Advance(sequence, take), take)];
        consumed := consumed + take;
      }
      AppendEnds(old(Value()), bytes, sequenceStart, observed, max, Value(), ranges, merged);
    }

    /** One slice of an append: it joins the last segment or becomes one. */
    method StoreSlice(slice: seq<byte>, sequence: Option<u32>, observed: nat, max: nat) returns (joined: bool)
      modifies this
      ensures Value() == F.Store(old(Value()), sequence, observed, slice, max)
      ensures joined == F.Merges(old(segments), sequence, slice, max)
    {
      hide F.AddSlice, F.Merges, F.Store, LastExtended;
      ghost var before := Value();
      var start := nextOffset;
      nextOffset := start + |slice|;
      joined := TryMergeLast(sequence, slice, max);
      if !joined {
        segments := segments + [F.Segment(start, sequence, observed, slice)];
      }
      storedBytes := storedBytes + |slice|;
      SliceIsStored(before, Value(), sequence, observed, slice, max);
    }

    method TryMergeLast(sequence: Option<u32>, bytes: seq<byte>, max: nat) returns (merged: bool)
      modifies `segments
      ensures merged == F.Merges(old(segments), sequence, bytes, max)
      ensures segments == if merged then LastExtended(old(segments), bytes) else old(segments)
    {
      if segments == [] || sequence.None? {
        return false;
      }
      var last := segments[|segments| - 1];
      var lastEnd := last.SequenceEnd();
      if lastEnd.None? || lastEnd.value != sequence.value {
        return false;
      }
      if |last.bytes| + |bytes| > max {
        return false;
      }
      segments := segments[|segments| - 1 := last.(bytes := last.bytes + bytes)];
      return true;
    }

    method TrimOldest(bytes: nat) returns (trimmed: nat)
      modifies this
      ensures Value() == F.Trim(old(Value()), bytes)
      ensures trimmed == F.TrimmedBy(old(segments), bytes)
    {
      hide F.Advance;
      var remaining: nat := bytes;
      trimmed := 0;
      while remaining != 0 && segments != []
        invariant F.Trim(old(Value()), bytes) == F.Trim(Value(), remaining)
        invariant F.TrimmedBy(old(segments), bytes) == trimmed + F.TrimmedBy(segments, remaining)
        decreases remaining, |segments|
      {
        var first := segments[0];
        var take := Min(remaining, |first.bytes|);
        if take == |first.bytes| {
          segments := segments[1..];
          remaining := remaining - take;
        } else {
          var rest := F.Segment(first.start + take, F.Advance(first.sequence, take), first.observed, first.bytes[take..]);
          segments := [rest] + segments[1..];
          remaining := 0;
        }
        trimmed := trimmed + take;
        storedBytes := SaturatingSub(storedBytes, take);
      }
    }

    method Windows(logicalStart: nat, logicalEnd: nat) returns (windows: seq<F.Window>)
      ensures windows == F.Windows(segments, logicalStart, logicalEnd)
    {
      windows := [];
      if logicalStart >= logicalEnd {
        return;
      }
      var currentStart: nat, currentEnd: nat, currentBytes: seq<byte> := 0, 0, [];
      for i := 0 to |segments|
        invariant F.GatherAll(F.Gathered([], 0, 0, []), segments, logicalStart, logicalEnd)
               == F.GatherAll(F.Gathered(windows, currentStart, currentEnd, currentBytes),
                              segments[i..], logicalStart, logicalEnd)
      {
        var segment := segments[i];
        assert segments[i..][0] == segment && segments[i..][1..] == segments[i + 1..];
        var start := Max(segment.start, logicalStart);
        var end := Min(segment.End(), logicalEnd);
        if start >= end {
          continue;
        }
        var bytes := segment.bytes[start - segment.start..end - segment.start];
        if currentBytes == [] {
          currentStart, currentEnd, currentBytes := start, end, bytes;
        } else if start == currentEnd {
          currentEnd, currentBytes := end, currentBytes + bytes;
        } else {
          windows := windows + [F.Window(currentStart, currentBytes)];
          currentStart, currentEnd, currentBytes := start, end, bytes;
        }
      }
      if currentBytes != [] {
        windows := windows + [F.Window(currentStart, currentBytes)];
      }
    }

    method StoredContent() returns (bytes: seq<byte>)
      ensures bytes == F.Joined(segments)
    {
      bytes := [];
      for i := 0 to |segments|
        invariant F.Joined(segments) == bytes + F.Joined(segments[i..])
      {
        assert segments[i..][0] == segments[i] && segments[i..][1..] == segments[i + 1..];
        bytes := bytes + segments[i].bytes;
      }
    }
  }

  class ContentRecord {
    var lastSeen: nat
    const aToB: DirectionContent
    const bToA: DirectionContent
    var truncated: bool

    constructor (now: nat)
      ensures Separate() && fresh(aToB) && fresh(bToA)
      ensures Value() == R.New(now)
    {
      lastSeen, truncated := now, false;
      aToB := new DirectionContent();
      bToA := new DirectionContent();
    }

    predicate Separate() { aToB != bToA }

    function Value(): R.Record
      reads this, aToB, bToA
    {
      R.Record(lastSeen, aToB.Value(), bToA.Value(), truncated)
    }

    function Directed(d: R.Direction): DirectionContent { if d.AToB? then aToB else bToA }

    method TrimToLimit(limit: nat) returns (trimmed: nat)
      requires Separate()
      modifies `truncated, aToB, bToA
      ensures (Value(), trimmed) == R.TrimToLimit(old(Value()), limit)
    {
      hide F.Trim, F.TrimmedBy, F.Joined;
      trimmed := 0;
      while aToB.storedBytes + bToA.storedBytes > limit
        invariant lastSeen == old(lastSeen)
        invariant R.TrimToLimit(old(Value()), limit)
               == (var on := R.TrimToLimit(Value(), limit); (on.0, trimmed + on.1))
        decreases |F.Joined(aToB.segments)| + |F.Joined(bToA.segments)|
      {
        var excess := aToB.storedBytes + bToA.storedBytes - limit;
        var oldest := OldestDirection();
        if oldest.None? {
          break;
        }
        ghost var before := Value();
        F.TrimTakes(before.Of(oldest.value), excess);
        var dropped := Directed(oldest.value).TrimOldest(excess);
        if dropped == 0 {
          return;
        }
        trimmed := trimmed + dropped;
        truncated := true;
      }
    }

    method OldestDirection() returns (oldest: Option<R.Direction>)
      ensures oldest == R.OldestDirection(Value())
    {
      oldest := None;
      if aToB.segments != [] {
        oldest := Some(R.AToB);
      }
      if bToA.segments != [] && (oldest.None? || R.Older(bToA.segments[0], aToB.segments[0])) {
        oldest := Some(R.BToA);
      }
    }

    method ObservePayload(chunk: R.Chunk, now: nat, limits: R.Limits) returns (update: R.Update)
      requires Separate() && limits.segment > 0
      modifies `truncated, aToB, bToA
      ensures (Value(), update) == R.Observe(old(Value()), chunk, now, limits)
    {
      hide F.Append, F.RangesOf, F.MergedBy, R.TrimToLimit;
      if chunk.bytes == [] {
        return R.NO_UPDATE;
      }
      var ranges, merged := Directed(chunk.direction).Append(chunk.bytes, chunk.sequence, now, limits.segment);
      var wasTruncated := truncated;
      var trimmed := TrimToLimit(limits.stream);
      update := R.Update(R.Report(chunk.direction, ranges), |chunk.bytes|, |chunk.bytes|, merged, trimmed,
                         !wasTruncated && truncated);
    }

    method ObserveChunks(chunks: seq<R.Chunk>, now: nat, limits: R.Limits) returns (update: R.Update)
      requires Separate() && limits.segment > 0
      modifies `truncated, aToB, bToA
      ensures (Value(), update) == R.ObserveAll(old(Value()), chunks, now, limits)
    {
      hide R.Observe, R.Merge;
      update := R.NO_UPDATE;
      assert chunks[0..] == chunks;
      MergeAssociates(R.ObserveAll(Value(), chunks, now, limits).1, R.NO_UPDATE, R.NO_UPDATE);
      for i := 0 to |chunks|
        invariant lastSeen == old(lastSeen)
        invariant R.ObserveAll(old(Value()), chunks, now, limits)
               == (var on := R.ObserveAll(Value(), chunks[i..], now, limits); (on.0, R.Merge(update, on.1)))
      {
        assert chunks[i..][0] == chunks[i] && chunks[i..][1..] == chunks[i + 1..];
        ghost var on := R.ObserveAll(R.Observe(Value(), chunks[i], now, limits).0, chunks[i + 1..], now, limits);
        ghost var before := update;
        var next := ObservePayload(chunks[i], now, limits);
        update := R.Merge(update, next);
        MergeAssociates(before, next, on.1);
      }
      MergeAssociates(update, R.NO_UPDATE, R.NO_UPDATE);
    }

    static lemma MergeAssociates(u: R.Update, v: R.Update, w: R.Update)
      ensures R.Merge(R.Merge(u, v), w) == R.Merge(u, R.Merge(v, w))
      ensures R.Merge(R.NO_UPDATE, u) == u && R.Merge(u, R.NO_UPDATE) == u
    {
    }
  }
}
