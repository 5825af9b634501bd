/** The engine that scans each update and hands out matches up to its caps. */
module PatternEngines {
  import opened Bytes
  import C = ContentDirection
  import opened ContentRecords
  import opened PatternScan

  /** A match, and the stream and direction it was found in. */
  datatype Key = Key(stream: nat, direction: Direction, match_: Match)

  function Keys(stream: nat, direction: Direction, matches: set<Match>): set<Key> {
    set m | m in matches :: Key(stream, direction, m)
  }

  /** What the scans of all reported ranges find. */
  function Wanted(
    patterns: Patterns, regexWindow: nat, stream: nat, r: Record, reported: seq<Reported>): set<Key>
  {
    if reported == [] then {}
    else
      var d, range := reported[0].direction, reported[0].range;
      Keys(stream, d, InRange(patterns, regexWindow, r.Of(d), range.start, range.end))
      + Wanted(patterns, regexWindow, stream, r, reported[1..])
  }

  /** The engine asks for a match just when the scans of its direction's ranges find it. */
  lemma {:induction false} WantedIsFound(
    patterns: Patterns, regexWindow: nat, stream: nat, r: Record, reported: seq<Reported>, key: Key)
    ensures key in Wanted(patterns, regexWindow, stream, r, reported)
            <==> && key.stream == stream
                 && Found(key.match_, patterns, regexWindow, r.Of(key.direction), RangesIn(reported, key.direction)) > 0
  {
    if reported != [] {
      hide InRange, Record.Of;
      WantedIsFound(patterns, regexWindow, stream, r, reported[1..], key);
      var d, range := reported[0].direction, reported[0].range;
      var found := InRange(patterns, regexWindow, r.Of(d), range.start, range.end);
      assert key in Keys(stream, d, found) <==> key.stream == stream && key.direction == d && key.match_ in found;
      if key.direction == d {
        assert RangesIn(reported, d) == [range] + RangesIn(reported[1..], d);
      } else {
        assert RangesIn(reported, key.direction) == RangesIn(reported[1..], key.direction);
      }
    }
  }

  /** Events of one stream. */
  function CountOf(events: seq<Key>, stream: nat): nat {
    if events == [] then 0
    else CountOf(events[..|events| - 1], stream) + if events[|events| - 1].stream == stream then 1 else 0
  }

  lemma CountOfAppend(events: seq<Key>, key: Key, stream: nat)
    ensures CountOf(events + [key], stream) == CountOf(events, stream) + if key.stream == stream then 1 else 0
  {
    assert (events + [key])[..|events|] == events;
  }

  datatype Caps = Caps(perStream: nat, total: nat)

  /** The events handed out after some keys have asked in turn: each gets one unless a cap is reached. */
  function Granted(emitted: seq<Key>, calls: seq<Key>, caps: Caps): seq<Key> {
    if calls == [] then emitted
    else
      var before := Granted(emitted, calls[..|calls| - 1], caps);
      var key := calls[|calls| - 1];
      if |before| < caps.total && CountOf(before, key.stream) < caps.perStream then before + [key] else before
  }

  lemma {:induction false} GrantedOn(emitted: seq<Key>, calls: seq<Key>, more: seq<Key>, caps: Caps)
    ensures Granted(emitted, calls + more, caps) == Granted(Granted(emitted, calls, caps), more, caps)
    decreases |more|
  {
    if more == [] {
      assert calls + more == calls;
    } else {
      hide CountOf;
      assert (calls + more)[..|calls + more| - 1] == calls + more[..|more| - 1];
      GrantedOn(emitted, calls, more[..|more| - 1], caps);
    }
  }

  lemma OneCall(emitted: seq<Key>, key: Key, caps: Caps)
    ensures Granted(emitted, [key], caps)
            == if |emitted| < caps.total && CountOf(emitted, key.stream) < caps.perStream then emitted + [key] else emitted
  {
    hide CountOf;
    assert [key][..0] == [];
    assert Granted(emitted, [], caps) == emitted;
  }

  /** As long as there is room below both caps nobody who asks is refused. */
  lemma {:induction false} AllGrantedBelowCaps(emitted: seq<Key>, calls: seq<Key>, caps: Caps)
    requires |emitted| + |calls| <= caps.total
    requires forall stream: nat :: CountOf(emitted, stream) + |calls| <= caps.perStream
    ensures Granted(emitted, calls, caps) == emitted + calls
    ensures forall stream: nat :: CountOf(emitted + calls, stream) <= CountOf(emitted, stream) + |calls|
    decreases |calls|
  {
    if calls != [] {
      hide CountOf;
      var before := calls[..|calls| - 1];
      var key := calls[|calls| - 1];
      AllGrantedBelowCaps(emitted, before, caps);
      assert emitted + calls == emitted + before + [key];
      forall stream: nat
        ensures CountOf(emitted + calls, stream) <= CountOf(emitted, stream) + |calls|
      {
        CountOfAppend(emitted + before, key, stream);
      }
    } else {
      assert emitted + calls == emitted;
    }
  }

  /** Each new key asked once, and the events are those granted to them in turn. */
  ghost predicate Accounted(
    earlier: seq<Key>, events: seq<Key>, calls: seq<Key>, caps: Caps, before: set<Key>, after: set<Key>)
  {
    && before <= after && multiset(calls) == multiset(after - before)
    && earlier + events == Granted(earlier, calls, caps)
  }

  lemma NothingAccounted(earlier: seq<Key>, caps: Caps, seen: set<Key>)
    ensures Accounted(earlier, [], [], caps, seen, seen)
  {
    assert seen - seen == {};
  }

  lemma AccountedOn(
    earlier: seq<Key>, events: seq<Key>, calls: seq<Key>, caps: Caps, before: set<Key>, middle: set<Key>,
    moreEvents: seq<Key>, moreCalls: seq<Key>, after: set<Key>)
    requires Accounted(earlier, events, calls, caps, before, middle)
    requires Accounted(earlier + events, moreEvents, moreCalls, caps, middle, after)
    ensures Accounted(earlier, events + moreEvents, calls + moreCalls, caps, before, after)
    ensures earlier + (events + moreEvents) == earlier + events + moreEvents
  {
    hide Granted;
    GrantedOn(earlier, calls, moreCalls, caps);
    assert after - before == (middle - before) + (after - middle);
    assert multiset(after - before) == multiset(middle - before) + multiset(after - middle);
  }

  class PatternEngine {
    const patterns: Patterns
    const regexWindow: nat
    const maxMatchesPerStream: nat
    const maxTotalMatches: nat
    var matchesByStream: map<nat, nat>
    var patternMatches: nat
    var droppedMatches: nat
    /** Every event handed out. */
    ghost var emitted: seq<Key>

    constructor (patterns: Patterns, regexWindow: nat, maxMatchesPerStream: nat, maxTotalMatches: nat)
      requires NonEmpty(patterns)
      ensures Valid() && emitted == [] && droppedMatches == 0
      ensures this.patterns == patterns && this.regexWindow == regexWindow
      ensures this.maxMatchesPerStream == maxMatchesPerStream && this.maxTotalMatches == maxTotalMatches
    {
      this.patterns, this.regexWindow := patterns, regexWindow;
      this.maxMatchesPerStream, this.maxTotalMatches := maxMatchesPerStream, maxTotalMatches;
      matchesByStream, patternMatches, droppedMatches, emitted := map[], 0, 0, [];
    }

    function Limits(): Caps { Caps(maxMatchesPerStream, maxTotalMatches) }

    /** The counters count the events handed out, in all and stream by stream, and stay within their caps. */
    ghost predicate Valid()
      reads this
    {
      && NonEmpty(patterns)
      && patternMatches == |emitted| <= maxTotalMatches
      && (forall stream: nat :: CountOf(emitted, stream) == Matched(matchesByStream, stream) <= maxMatchesPerStream)
    }

    static function Matched(matches: map<nat, nat>, stream: nat): nat {
      if stream in matches then matches[stream] else 0
    }

    /**
     Scans the reported ranges of an update. Each match the ranges' scans find
     asks for its event once, gets it unless a cap is reached, and is counted as
     handed out or dropped.
     */
    method ScanUpdate(stream: nat, record: Record, reported: seq<Reported>) returns (events: seq<Key>, ghost calls: seq<Key>)
      requires Valid()
      modifies this
      ensures Valid() && emitted == old(emitted) + events
      ensures Accounted(old(emitted), events, calls, Limits(), {}, Wanted(patterns, regexWindow, stream, record, reported))
      ensures patternMatches + droppedMatches == old(patternMatches + droppedMatches) + |calls|
    {
      hide InWindows, C.Windows, Valid, Accounted, Lookbehind, Record.Of;
      events, calls := [], [];
      var seen: set<Key> := {};
      NothingAccounted(emitted, Limits(), {});
      for i := 0 to |reported|
        invariant Valid() && emitted == old(emitted) + events && Accounted(old(emitted), events, calls, Limits(), {}, seen)
        invariant patternMatches + droppedMatches == old(patternMatches + droppedMatches) + |calls|
        invariant Wanted(patterns, regexWindow, stream, record, reported)
               == seen + Wanted(patterns, regexWindow, stream, record, reported[i..])
      {
        assert reported[i..][0] == reported[i] && reported[i..][1..] == reported[i + 1..];
        var d, range := reported[i].direction, reported[i].range;
        var windowStart := SaturatingSub(range.start, Lookbehind(patterns, regexWindow));
        var windows := C.Windows(record.Of(d).segments, windowStart, range.end);
        ghost var before := seen;
        ghost var moreCalls;
        var more;
        more, seen, moreCalls := ScanWindows(stream, d, windows, range.start, range.end, seen);
        AccountedOn(old(emitted), events, calls, Limits(), {}, before, more, moreCalls, seen);
        events, calls := events + more, calls + moreCalls;
      }
    }

    /** Scans the windows fetched for one range. */
    method ScanWindows(stream: nat, d: Direction, windows: seq<C.Window>, from: nat, to: nat, seen: set<Key>)
      returns (events: seq<Key>, seenAfter: set<Key>, ghost calls: seq<Key>)
      requires Valid()
      modifies this
      ensures Valid() && emitted == old(emitted) + events
      ensures seenAfter == seen + Keys(stream, d, InWindows(patterns, windows, from, to))
      ensures Accounted(old(emitted), events, calls, Limits(), seen, seenAfter)
      ensures patternMatches + droppedMatches == old(patternMatches + droppedMatches) + |calls|
    {
      hide InWindow, InWindows, Valid, Accounted, Keys;
      events, seenAfter, calls := [], seen, [];
      NothingAccounted(emitted, Limits(), seen);
      NoWindows(from, to, stream, d);
      for j := 0 to |windows|
        invariant Valid() && emitted == old(emitted) + events && Accounted(old(emitted), events, calls, Limits(), seen, seenAfter)
        invariant patternMatches + droppedMatches == old(patternMatches + droppedMatches) + |calls|
        invariant seen + Keys(stream, d, InWindows(patterns, windows, from, to))
               == seenAfter + Keys(stream, d, InWindows(patterns, windows[j..], from, to))
      {
        WindowsFirst(windows[j..], from, to, stream, d);
        assert windows[j..][0] == windows[j] && windows[j..][1..] == windows[j + 1..];
        ghost var before := seenAfter;
        ghost var moreCalls;
        var more;
        more, seenAfter, moreCalls := ScanWindow(stream, d, windows[j], from, to, seenAfter);
        AccountedOn(old(emitted), events, calls, Limits(), seen, before, more, moreCalls, seenAfter);
        events, calls := events + more, calls + moreCalls;
      }
    }

    lemma NoWindows(from: nat, to: nat, stream: nat, d: Direction)
      ensures Keys(stream, d, InWindows(patterns, [], from, to)) == {}
    {
    }

    lemma WindowsFirst(windows: seq<C.Window>, from: nat, to: nat, stream: nat, d: Direction)
      ensures windows != [] ==>
                Keys(stream, d, InWindows(patterns, windows, from, to))
                == Keys(stream, d, InWindow(patterns, windows[0], from, to))
                   + Keys(stream, d, InWindows(patterns, windows[1..], from, to))
    {
      hide InWindow;
    }

    /** Scans one window; `seen` are the matches that asked before. */
    method ScanWindow(stream: nat, d: Direction, window: C.Window, from: nat, to: nat, seen: set<Key>)
      returns (events: seq<Key>, seenAfter: set<Key>, ghost calls: seq<Key>)
      requires Valid()
      modifies this
      ensures Valid() && emitted == old(emitted) + events
      ensures seenAfter == seen + Keys(stream, d, InWindow(patterns, window, from, to))
      ensures Accounted(old(emitted), events, calls, Limits(), seen, seenAfter)
      ensures patternMatches + droppedMatches == old(patternMatches + droppedMatches) + |calls|
    {
      hide InWindow, Valid, NewKeys, NewKey, Keys, Occurrences, Accounted;
      var candidates := FindOverlapping(window.bytes);
      events, seenAfter, calls := [], seen, [];
      NothingAccounted(emitted, Limits(), seen);
      NoNewKeys(stream, d, candidates, window.start, from, to);
      for i := 0 to |candidates|
        invariant Valid() && emitted == old(emitted) + events && Accounted(old(emitted), events, calls, Limits(), seen, seenAfter)
        invariant seenAfter == seen + NewKeys(stream, d, candidates[..i], window.start, from, to)
        invariant patternMatches + droppedMatches == old(patternMatches + droppedMatches) + |calls|
      {
        ghost var before := seenAfter;
        ghost var moreCalls;
        var more;
        NewKeysNext(stream, d, candidates, i, window.start, from, to, seen);
        more, seenAfter, moreCalls := EmitMatchIfNew(stream, d, candidates[i], window.start, from, to, seenAfter);
        AccountedOn(old(emitted), events, calls, Limits(), seen, before, more, moreCalls, seenAfter);
        events, calls := events + more, calls + moreCalls;
      }
      AllNewKeys(stream, d, candidates, window, from, to);
    }

    static lemma NoNewKeys(stream: nat, d: Direction, candidates: seq<Match>, shift: nat, from: nat, to: nat)
      ensures NewKeys(stream, d, candidates[..0], shift, from, to) == {}
    {
    }

    /** The keys of those candidates that touch the new bytes. */
    static function NewKeys(stream: nat, d: Direction, candidates: seq<Match>, shift: nat, from: nat, to: nat): set<Key> {
      set m | m in candidates && IsNew(Shift(m, shift), from, to) :: Key(stream, d, Shift(m, shift))
    }

    static function NewKey(stream: nat, d: Direction, m: Match, shift: nat, from: nat, to: nat): set<Key> {
      if IsNew(Shift(m, shift), from, to) then {Key(stream, d, Shift(m, shift))} else {}
    }

    static lemma NewKeysNext(
      stream: nat, d: Direction, candidates: seq<Match>, i: nat, shift: nat, from: nat, to: nat, seen: set<Key>)
      requires i < |candidates|
      ensures seen + NewKeys(stream, d, candidates[..i + 1], shift, from, to)
              == seen + NewKeys(stream, d, candidates[..i], shift, from, to)
                 + NewKey(stream, d, candidates[i], shift, from, to)
    {
      assert candidates[..i + 1] == candidates[..i] + [candidates[i]];
    }

    lemma AllNewKeys(stream: nat, d: Direction, candidates: seq<Match>, window: C.Window, from: nat, to: nat)
      requires multiset(candidates) == multiset(Occurrences(patterns, window.bytes))
      ensures candidates[..|candidates|] == candidates
      ensures NewKeys(stream, d, candidates, window.start, from, to) == Keys(stream, d, InWindow(patterns, window, from, to))
    {
      hide Occurrences;
      assert forall m :: m in candidates <==> m in multiset(candidates);
      assert forall m :: m in candidates <==> m in Occurrences(patterns, window.bytes);
    }

    method EmitMatchIfNew(stream: nat, d: Direction, candidate: Match, shift: nat, from: nat, to: nat, seen: set<Key>)
      returns (events: seq<Key>, seenAfter: set<Key>, ghost calls: seq<Key>)
      requires Valid()
      modifies this
      ensures Valid() && emitted == old(emitted) + events
      ensures seenAfter == seen + NewKey(stream, d, candidate, shift, from, to)
      ensures Accounted(old(emitted), events, calls, Limits(), seen, seenAfter)
      ensures patternMatches + droppedMatches == old(patternMatches + droppedMatches) + |calls|
    {
      hide CountOf, Matched, NonEmpty;
      events, seenAfter, calls := [], seen, [];
      NothingAccounted(emitted, Limits(), seen);
      if candidate.start == candidate.end {
        return;
      }
      var absolute := Shift(candidate, shift);
      if absolute.start >= to || absolute.end <= from {
        return;
      }
      var key := Key(stream, d, absolute);
      if key in seen {
        return;
      }
      seenAfter := seen + {key};
      calls := [key];
      assert seenAfter - seen == {key};
      OneCall(emitted, key, Limits());
      var reserved := ReserveMatch(key);
      if !reserved {
        return;
      }
      events := [key];
    }

    /** Grants an event while neither cap is reached, and counts it or its refusal. */
    method ReserveMatch(key: Key) returns (reserved: bool)
      requires Valid()
      modifies this
      ensures Valid() && emitted == old(emitted) + if reserved then [key] else []
      ensures reserved <==> old(patternMatches) < maxTotalMatches && CountOf(old(emitted), key.stream) < maxMatchesPerStream
      ensures droppedMatches == old(droppedMatches) + if reserved then 0 else 1
    {
      hide CountOf, NonEmpty;
      if patternMatches >= maxTotalMatches {
        droppedMatches := droppedMatches + 1;
        return false;
      }
      var streamMatches := Matched(matchesByStream, key.stream);
      if streamMatches >= maxMatchesPerStream {
        matchesByStream := matchesByStream[key.stream := streamMatches];
        droppedMatches := droppedMatches + 1;
        return false;
      }
      matchesByStream := matchesByStream[key.stream := streamMatches + 1];
      patternMatches := patternMatches + 1;
      forall stream: nat
        ensures CountOf(emitted + [key], stream) == CountOf(emitted, stream) + if key.stream == stream then 1 else 0
      {
        CountOfAppend(emitted, key, stream);
      }
      emitted := emitted + [key];
      return true;
    }

    /** An overlapping search: all occurrences of all patterns, each once, in some order. */
    method FindOverlapping(text: seq<byte>) returns (matches: seq<Match>)
      ensures multiset(matches) == multiset(Occurrences(patterns, text))
    {
      hide Occurrences, At;
      matches := [];
      ghost var found: set<Match> := {};
      for p := 0 to |patterns|
        invariant multiset(matches) == multiset(found)
        invariant forall m :: m in found <==> Occurs(m, patterns, text) && m.pattern < p
      {
        for s := 0 to |text| + 1
          invariant multiset(matches) == multiset(found)
          invariant forall m :: m in found <==>
                      Occurs(m, patterns, text) && (m.pattern < p || (m.pattern == p && m.start < s))
        {
          if At(text, s, patterns[p]) {
            var m := Match(p, s, s + |patterns[p]|);
            matches, found := matches + [m], found + {m};
          }
        }
        OccursInside(p, text);
      }
      forall m
        ensures m in Occurrences(patterns, text) <==> m in found
      {
        OccurrencesAre(patterns, text, m);
      }
      assert found == Occurrences(patterns, text);
    }

    lemma OccursInside(p: nat, text: seq<byte>)
      ensures forall m :: Occurs(m, patterns, text) && m.pattern == p ==> m.start < |text| + 1
    {
    }
  }
}
