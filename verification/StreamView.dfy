/**
 The view of all streams: the stream map, its order of arrival, the indexes kept
 beside it, and pages of the streams that match a query.
 */
module StreamViews {
  import opened Bytes
  import opened OldestFirst
  import Pages = StreamPages
  import Sums = MapSums

  /** A pattern match of a stream; what else it says does not matter here. */
  datatype Match = Match(stream: nat, pattern: nat, text: nat)

  /** A stream's entry: what the last update said of it, and its matches. */
  datatype Entry<D> = Entry(details: D, matches: seq<Match>, matchCount: nat, patterns: set<nat>)

  // ---------------------------------------------------------------------
  // The index of patterns

  function StreamsOf(index: map<nat, set<nat>>, pattern: nat): set<nat> {
    if pattern in index then index[pattern] else {}
  }

  predicate HasPattern<D>(streams: map<nat, Entry<D>>, id: nat, pattern: nat) {
    id in streams && pattern in streams[id].patterns
  }

  /** No pattern is listed without streams. */
  predicate NoEmptySets(index: map<nat, set<nat>>) {
    forall pattern :: pattern in index ==> index[pattern] != {}
  }

  /** The index lists a stream under exactly the patterns it has matched. */
  ghost predicate IndexOk<D>(index: map<nat, set<nat>>, streams: map<nat, Entry<D>>) {
    NoEmptySets(index)
    && forall pattern: nat, id: nat :: id in StreamsOf(index, pattern) <==> HasPattern(streams, id, pattern)
  }

  /** A stream counts as matched if any match of it was seen. */
  predicate MatchedOk<D>(matched: set<nat>, streams: map<nat, Entry<D>>) {
    matched <= streams.Keys && forall id :: id in streams ==> (id in matched <==> streams[id].matchCount > 0)
  }

  // ---------------------------------------------------------------------
  // What an entry keeps of its matches

  function LastOf(ms: seq<Match>, n: nat): seq<Match> {
    if |ms| <= n then ms else ms[|ms| - n..]
  }

  function PatternsOf(ms: seq<Match>): set<nat> {
    set m | m in ms :: m.pattern
  }

  /** The entry counts all the stream's matches, knows their patterns and keeps the latest. */
  predicate EntryOk<D>(entry: Entry<D>, seen: seq<Match>, keep: nat) {
    entry.matchCount == |seen| && entry.patterns == PatternsOf(seen) && entry.matches == LastOf(seen, keep)
  }

  predicate EntriesOk<D>(streams: map<nat, Entry<D>>, seen: map<nat, seq<Match>>, keep: nat) {
    seen.Keys == streams.Keys && forall id :: id in streams ==> EntryOk(streams[id], seen[id], keep)
  }

  function KeptOf<D>(entry: Entry<D>): nat { |entry.matches| }

  /** An entry after one match more. */
  function WithMatch<D>(entry: Entry<D>, m: Match, keep: nat): Entry<D> {
    var counted := entry.(matchCount := entry.matchCount + 1, patterns := entry.patterns + {m.pattern});
    if keep == 0 then counted
    else if |entry.matches| >= keep && entry.matches != [] then counted.(matches := entry.matches[1..] + [m])
    else counted.(matches := entry.matches + [m])
  }

  lemma WithMatchOk<D>(entry: Entry<D>, seen: seq<Match>, keep: nat, m: Match)
    requires EntryOk(entry, seen, keep)
    ensures EntryOk(WithMatch(entry, m, keep), seen + [m], keep)
  {
    assert PatternsOf(seen + [m]) == PatternsOf(seen) + {m.pattern};
    assert LastOf(seen, keep) == entry.matches;
    if keep > 0 && |seen| >= keep {
      assert (seen + [m])[|seen| + 1 - keep..] == seen[|seen| - keep..][1..] + [m];
    }
  }

  datatype Query = Query(
    cursor: nat, limit: nat, includeHidden: bool, onlyFavorites: bool, onlyMatched: bool, pattern: Option<nat>)

  class StreamViewState<D> {
    const enabled: bool
    const maxStreams: nat
    const maxMatchesPerStream: nat
    const maxQueryLimit: nat
    var streams: map<nat, Entry<D>>
    var streamOrder: seq<nat>
    var favorites: set<nat>
    var manuallyHidden: set<nat>
    var matchedStreams: set<nat>
    var patternIndex: map<nat, set<nat>>
    var storedMatches: nat
    var droppedMatches: nat
    var orphanMatches: nat
    var evictedStreams: nat
    /** Every match of each present stream since it was first seen. */
    ghost var seen: map<nat, seq<Match>>

    constructor (enabled: bool, maxStreams: nat, maxMatchesPerStream: nat, maxQueryLimit: nat)
      ensures Valid() && streams == map[] && seen == map[]
      ensures storedMatches == droppedMatches == orphanMatches == evictedStreams == 0
      ensures this.enabled == enabled && this.maxStreams == maxStreams
      ensures this.maxMatchesPerStream == maxMatchesPerStream && this.maxQueryLimit == maxQueryLimit
    {
      this.enabled, this.maxStreams := enabled, maxStreams;
      this.maxMatchesPerStream, this.maxQueryLimit := maxMatchesPerStream, maxQueryLimit;
      streams, streamOrder, favorites, manuallyHidden, matchedStreams, patternIndex := map[], [], {}, {}, {}, map[];
      storedMatches, droppedMatches, orphanMatches, evictedStreams, seen := 0, 0, 0, 0, map[];
    }

    /** The order, the indexes and the counters all say what the stream map says. */
    ghost predicate Valid()
      reads this
    {
      && Distinct(streamOrder) && Listed(streamOrder) == streams.Keys && |streams| <= maxStreams
      && favorites <= streams.Keys && manuallyHidden <= streams.Keys
      && MatchedOk(matchedStreams, streams)
      && IndexOk(patternIndex, streams)
      && EntriesOk(streams, seen, maxMatchesPerStream)
      && storedMatches == Sums.Total(streams, KeptOf)
    }

    /** A new or changed stream. What was known of its matches stays; a new one may cost the oldest stream its place. */
    method UpsertStream(id: nat, details: D)
      requires Valid()
      modifies `streams, `streamOrder, `favorites, `manuallyHidden, `matchedStreams, `patternIndex, `storedMatches,
               `evictedStreams, `seen
      ensures Valid()
      ensures id in old(streams) ==>
                streams == old(streams)[id := old(streams)[id].(details := details)]
                && streamOrder == old(streamOrder) && favorites == old(favorites) && manuallyHidden == old(manuallyHidden)
                && seen == old(seen)
      ensures id !in old(streams) && maxStreams > 0 ==>
                var full := |old(streams)| == maxStreams;
                && streamOrder == (if full then old(streamOrder)[1..] else old(streamOrder)) + [id]
                && streams == (if full then old(streams) - {old(streamOrder)[0]} else old(streams))[
                                id := Entry(details, [], 0, {})]
                && seen == (if full then old(seen) - {old(streamOrder)[0]} else old(seen))[id := []]
      ensures id !in old(streams) && maxStreams == 0 ==> streams == old(streams) && seen == old(seen)
      ensures favorites == old(favorites) * streams.Keys && manuallyHidden == old(manuallyHidden) * streams.Keys
    {
      hide *;
      SomeStreamIsListed();
      if id in streams {
        Redetail(id, details);
        assert streams.Keys == old(streams).Keys;
        return;
      }
      if |streams| >= maxStreams {
        EvictOldest();
      }
      if |streams| >= maxStreams {
        return;
      }
      StillWithin(old(favorites), streams, id, Entry(details, [], 0, {}));
      StillWithin(old(manuallyHidden), streams, id, Entry(details, [], 0, {}));
      Insert(id, details);
    }

    static lemma StillWithin(marked: set<nat>, streams: map<nat, Entry<D>>, id: nat, entry: Entry<D>)
      requires id !in marked
      ensures marked * streams[id := entry].Keys == marked * streams.Keys
    {
    }

    lemma SomeStreamIsListed()
      requires Valid()
      ensures (|streams| > 0 ==> streamOrder != []) && |streams| <= maxStreams
      ensures streamOrder != [] ==> |streams| > 0
      ensures favorites <= streams.Keys && manuallyHidden <= streams.Keys
    {
      hide MatchedOk, IndexOk, EntriesOk, Sums.Total, Distinct;
      if streamOrder == [] {
        assert streams.Keys == {};
      } else {
        assert streamOrder[0] in Listed(streamOrder);
      }
    }

    method Redetail(id: nat, details: D)
      requires Valid() && id in streams
      modifies `streams
      ensures Valid() && streams == old(streams)[id := old(streams)[id].(details := details)]
    {
      hide MatchedOk, IndexOk, EntriesOk, Sums.Total, Distinct, Listed;
      var entry := streams[id].(details := details);
      RedetailKeeps(id, details);
      Sums.TotalWith(streams, KeptOf, id, entry);
      Sums.SameSize(streams, id, entry);
      streams := streams[id := entry];
    }

    lemma RedetailKeeps(id: nat, details: D)
      requires MatchedOk(matchedStreams, streams) && IndexOk(patternIndex, streams)
      requires EntriesOk(streams, seen, maxMatchesPerStream) && id in streams
      ensures var after := streams[id := streams[id].(details := details)];
              && after.Keys == streams.Keys && MatchedOk(matchedStreams, after) && IndexOk(patternIndex, after)
              && EntriesOk(after, seen, maxMatchesPerStream)
    {
      var after := streams[id := streams[id].(details := details)];
      assert forall other, pattern :: HasPattern(after, other, pattern) <==> HasPattern(streams, other, pattern);
    }

    method Insert(id: nat, details: D)
      requires Valid() && id !in streams && |streams| < maxStreams
      modifies `streams, `streamOrder, `seen
      ensures Valid() && streams == old(streams)[id := Entry(details, [], 0, {})]
      ensures streamOrder == old(streamOrder) + [id] && seen == old(seen)[id := []]
    {
      hide MatchedOk, IndexOk, EntriesOk, Sums.Total, Distinct, Listed;
      var entry := Entry(details, [], 0, {});
      ListedAppend(streamOrder, id);
      InsertKeeps(id, entry);
      Sums.TotalWith(streams, KeptOf, id, entry);
      Sums.SameSize(streams, id, entry);
      streamOrder := streamOrder + [id];
      streams := streams[id := entry];
      seen := seen[id := []];
    }

    lemma InsertKeeps(id: nat, entry: Entry<D>)
      requires MatchedOk(matchedStreams, streams) && IndexOk(patternIndex, streams)
      requires EntriesOk(streams, seen, maxMatchesPerStream) && id !in streams
      requires entry.matches == [] && entry.matchCount == 0 && entry.patterns == {}
      ensures var after := streams[id := entry];
              && MatchedOk(matchedStreams, after) && IndexOk(patternIndex, after)
              && EntriesOk(after, seen[id := []], maxMatchesPerStream)
    {
      var after := streams[id := entry];
      assert forall other, pattern :: HasPattern(after, other, pattern) <==> HasPattern(streams, other, pattern);
      assert PatternsOf([]) == {};
    }

    /** A match is counted, indexed and kept among the latest, or it is an orphan. */
    method ObserveMatch(m: Match)
      requires Valid()
      modifies `streams, `matchedStreams, `patternIndex, `storedMatches, `droppedMatches, `orphanMatches, `seen
      ensures Valid()
      ensures m.stream !in old(streams) ==>
                streams == old(streams) && seen == old(seen) && orphanMatches == old(orphanMatches) + 1
      ensures m.stream in old(streams) ==>
                && streams == old(streams)[m.stream := WithMatch(old(streams)[m.stream], m, maxMatchesPerStream)]
                && m.stream in old(seen) && seen == old(seen)[m.stream := old(seen)[m.stream] + [m]]
                && orphanMatches == old(orphanMatches)
                && storedMatches + droppedMatches == old(storedMatches + droppedMatches) + 1
    {
      hide MatchedOk, IndexOk, EntriesOk, Sums.Total, Distinct, Listed, WithMatch, StreamsOf;
      if m.stream !in streams {
        orphanMatches := orphanMatches + 1;
        return;
      }
      var before := streams[m.stream];
      var entry := WithMatch(before, m, maxMatchesPerStream);
      MatchKeeps(m);
      KeptWithMatch(before, m);
      Sums.TotalWithout(streams, KeptOf, m.stream);
      Sums.TotalWith(streams, KeptOf, m.stream, entry);
      Sums.SameSize(streams, m.stream, entry);
      streams := streams[m.stream := entry];
      matchedStreams := matchedStreams + {m.stream};
      patternIndex := patternIndex[m.pattern := StreamsOf(patternIndex, m.pattern) + {m.stream}];
      seen := seen[m.stream := seen[m.stream] + [m]];
      CountMatch(|before.matches|);
    }

    /** Counts a match as stored, and as dropped what it or its absence costs. */
    method CountMatch(kept: nat)
      requires kept <= storedMatches
      modifies `storedMatches, `droppedMatches
      ensures storedMatches == old(storedMatches) + if maxMatchesPerStream == 0 || kept >= maxMatchesPerStream then 0 else 1
      ensures storedMatches + droppedMatches == old(storedMatches + droppedMatches) + 1
    {
      if maxMatchesPerStream == 0 {
        droppedMatches := droppedMatches + 1;
        return;
      }
      if kept >= maxMatchesPerStream {
        storedMatches := SaturatingSub(storedMatches, 1);
        droppedMatches := droppedMatches + 1;
      }
      storedMatches := storedMatches + 1;
    }

    lemma KeptWithMatch(entry: Entry<D>, m: Match)
      ensures KeptOf(WithMatch(entry, m, maxMatchesPerStream))
              == KeptOf(entry) + (if maxMatchesPerStream == 0 || |entry.matches| >= maxMatchesPerStream then 0 else 1)
    {
    }

    lemma MatchKeeps(m: Match)
      requires MatchedOk(matchedStreams, streams) && IndexOk(patternIndex, streams)
      requires EntriesOk(streams, seen, maxMatchesPerStream) && m.stream in streams
      ensures m.stream in seen
      ensures var after := streams[m.stream := WithMatch(streams[m.stream], m, maxMatchesPerStream)];
              && after.Keys == streams.Keys
              && MatchedOk(matchedStreams + {m.stream}, after)
              && IndexOk(patternIndex[m.pattern := StreamsOf(patternIndex, m.pattern) + {m.stream}], after)
              && EntriesOk(after, seen[m.stream := seen[m.stream] + [m]], maxMatchesPerStream)
    {
      hide EntryOk;
      WithMatchOk(streams[m.stream], seen[m.stream], maxMatchesPerStream, m);
      var after := streams[m.stream := WithMatch(streams[m.stream], m, maxMatchesPerStream)];
      var index := patternIndex[m.pattern := StreamsOf(patternIndex, m.pattern) + {m.stream}];
      assert m.stream in index[m.pattern];
      forall pattern: nat, id: nat
        ensures id in StreamsOf(index, pattern) <==> HasPattern(after, id, pattern)
      {
        assert id in StreamsOf(patternIndex, pattern) <==> HasPattern(streams, id, pattern);
      }
    }

    method EvictOldest()
      requires Valid()
      modifies `streams, `streamOrder, `favorites, `manuallyHidden, `matchedStreams, `patternIndex, `storedMatches,
               `evictedStreams, `seen
      ensures Valid()
      ensures if old(streamOrder) == [] then streams == old(streams) && streamOrder == old(streamOrder) && seen == old(seen)
              else streams == old(streams) - {old(streamOrder)[0]} && streamOrder == old(streamOrder)[1..]
                   && seen == old(seen) - {old(streamOrder)[0]}
                   && |streams| == |old(streams)| - 1 && evictedStreams == old(evictedStreams) + 1
      ensures favorites == old(favorites) * streams.Keys && manuallyHidden == old(manuallyHidden) * streams.Keys
    {
      hide MatchedOk, IndexOk, EntriesOk, Sums.Total, Distinct, Listed;
      if streamOrder != [] {
        var id := streamOrder[0];
        ListedFirst(streamOrder);
        streamOrder := streamOrder[1..];
        RemoveStream(id);
      }
    }

    /** Takes a stream out of the map and of every index; the caller has taken it out of the order. */
    method RemoveStream(id: nat)
      requires Distinct(streamOrder) && Listed(streamOrder) == streams.Keys - {id} && |streams| <= maxStreams
      requires favorites <= streams.Keys && manuallyHidden <= streams.Keys && id in streams
      requires MatchedOk(matchedStreams, streams) && IndexOk(patternIndex, streams)
      requires EntriesOk(streams, seen, maxMatchesPerStream) && storedMatches == Sums.Total(streams, KeptOf)
      modifies `streams, `streamOrder, `favorites, `manuallyHidden, `matchedStreams, `patternIndex, `storedMatches,
               `evictedStreams, `seen
      ensures Valid() && streams == old(streams) - {id} && streamOrder == old(streamOrder) && seen == old(seen) - {id}
      ensures |streams| == |old(streams)| - 1 && evictedStreams == old(evictedStreams) + 1
      ensures favorites == old(favorites) - {id} && manuallyHidden == old(manuallyHidden) - {id}
    {
      hide MatchedOk, IndexOk, EntriesOk, Sums.Total, Distinct, Listed;
      var entry := streams[id];
      RemoveKeeps(id);
      Sums.TotalWithout(streams, KeptOf, id);
      Sums.OneFewer(streams, id);
      ghost var all := streams;
      streams := streams - {id};
      seen := seen - {id};
      storedMatches := SaturatingSub(storedMatches, |entry.matches|);
      evictedStreams := evictedStreams + 1;
      favorites, manuallyHidden, matchedStreams := favorites - {id}, manuallyHidden - {id}, matchedStreams - {id};
      Unindex(id, entry.patterns, all);
    }

    /** Takes a stream out of the sets of its patterns, and empty sets out of the index. */
    method Unindex(id: nat, patterns: set<nat>, ghost all: map<nat, Entry<D>>)
      requires IndexOk(patternIndex, all) && id in all && patterns == all[id].patterns
      modifies `patternIndex
      ensures IndexOk(patternIndex, all - {id})
    {
      var left := patterns;
      while left != {}
        invariant left <= patterns && NoEmptySets(patternIndex)
        invariant forall pattern: nat, other: nat :: other in StreamsOf(patternIndex, pattern) <==>
                    HasPattern(all, other, pattern) && (other == id ==> pattern in left)
        decreases |left|
      {
        var pattern :| pattern in left;
        left := left - {pattern};
        if pattern in patternIndex {
          var without := patternIndex[pattern] - {id};
          patternIndex := if without == {} then patternIndex - {pattern} else patternIndex[pattern := without];
        }
      }
    }

    lemma RemoveKeeps(id: nat)
      requires MatchedOk(matchedStreams, streams) && EntriesOk(streams, seen, maxMatchesPerStream) && id in streams
      ensures MatchedOk(matchedStreams - {id}, streams - {id})
      ensures EntriesOk(streams - {id}, seen - {id}, maxMatchesPerStream)
    {
      hide EntryOk;
    }

    /** Marks or unmarks a stream that exists. */
    method SetFavorite(id: nat, favorite: bool) returns (known: bool)
      requires Valid()
      modifies `favorites
      ensures Valid() && (known <==> id in streams)
      ensures favorites == if !known then old(favorites) else if favorite then old(favorites) + {id} else old(favorites) - {id}
    {
      hide MatchedOk, IndexOk, EntriesOk, Sums.Total, Distinct, Listed;
      if id !in streams {
        return false;
      }
      favorites := if favorite then favorites + {id} else favorites - {id};
      return true;
    }

    method SetHidden(id: nat, hidden: bool) returns (known: bool)
      requires Valid()
      modifies `manuallyHidden
      ensures Valid() && (known <==> id in streams)
      ensures manuallyHidden == if !known then old(manuallyHidden)
                                else if hidden then old(manuallyHidden) + {id} else old(manuallyHidden) - {id}
    {
      hide MatchedOk, IndexOk, EntriesOk, Sums.Total, Distinct, Listed;
      if id !in streams {
        return false;
      }
      manuallyHidden := if hidden then manuallyHidden + {id} else manuallyHidden - {id};
      return true;
    }

    /** The streams a query is for: those the hide rules, flags and fields let through. */
    function ChosenBy(q: Query, hides: Entry<D> -> bool, fits: D -> bool): set<nat>
      reads this
    {
      set id | id in streams && Fits(q, streams[id], id in favorites, id in manuallyHidden || hides(streams[id]), fits)
    }

    static predicate Fits(q: Query, entry: Entry<D>, favorite: bool, hidden: bool, fits: D -> bool) {
      && (hidden ==> q.includeHidden) && (q.onlyFavorites ==> favorite) && (q.onlyMatched ==> entry.matchCount > 0)
      && fits(entry.details) && (q.pattern.Some? ==> q.pattern.value in entry.patterns)
    }

    method QueryPage(q: Query, hides: Entry<D> -> bool, fits: D -> bool) returns (page: Pages.Page)
      requires Valid()
      ensures if enabled then page == Pages.Scan(streamOrder, ChosenBy(q, hides, fits), Min(q.cursor, |streamOrder|),
                                                 Pages.RowLimit(q.limit, maxQueryLimit))
              else page == Pages.Page([], None, 0)
    {
      if !enabled {
        return Pages.Page([], None, 0);
      }
      page := Pages.Query(streamOrder, ChosenBy(q, hides, fits), q.cursor, q.limit, maxQueryLimit);
    }

    /** What a query asks for, said of every match the stream ever had. */
    ghost predicate Wanted(q: Query, hides: Entry<D> -> bool, fits: D -> bool, id: nat)
      reads this
    {
      && id in streams && id in seen
      && (id in manuallyHidden || hides(streams[id]) ==> q.includeHidden)
      && (q.onlyFavorites ==> id in favorites)
      && (q.onlyMatched ==> seen[id] != [])
      && (q.pattern.Some? ==> exists m :: m in seen[id] && m.pattern == q.pattern.value)
      && fits(streams[id].details)
    }

    lemma WantedAreChosen(q: Query, hides: Entry<D> -> bool, fits: D -> bool, id: nat)
      requires EntriesOk(streams, seen, maxMatchesPerStream)
      ensures id in ChosenBy(q, hides, fits) <==> Wanted(q, hides, fits, id)
    {
      if id in streams {
        assert EntryOk(streams[id], seen[id], maxMatchesPerStream);
      }
    }

    /** Following a query's cursors on an unchanged view lists each stream it asks for once, and no other. */
    lemma PagesListOnce(q: Query, hides: Entry<D> -> bool, fits: D -> bool, id: nat)
      requires Valid()
      ensures multiset(Pages.Follow(streamOrder, ChosenBy(q, hides, fits), 0, Pages.RowLimit(q.limit, maxQueryLimit)))[id]
              == if Wanted(q, hides, fits, id) then 1 else 0
    {
      WantedAreChosen(q, hides, fits, id);
      hide MatchedOk, IndexOk, EntriesOk, Sums.Total, Pages.Follow, Pages.Chosen, Wanted;
      var chosen := ChosenBy(q, hides, fits);
      Pages.CursorsListAll(streamOrder, chosen, 0, Pages.RowLimit(q.limit, maxQueryLimit));
      assert streamOrder[0..] == streamOrder;
      Pages.ChosenAre(streamOrder, chosen, id);
      OnceInDistinct(streamOrder, id);
    }
  }
}
