/** Bounded tables that forget their oldest entry first, as the program keeps several. */
module OldestFirst {
  import opened Bytes

  // ---------------------------------------------------------------------
  // Orders without repetition

  predicate Distinct<K(==)>(keys: seq<K>) {
    forall i, j :: 0 <= i < j < |keys| ==> keys[i] != keys[j]
  }

  function Listed<K(==)>(keys: seq<K>): set<K> { set k | k in keys }

  lemma {:induction false} ListedCounts<K>(keys: seq<K>)
    requires Distinct(keys)
    ensures |Listed(keys)| == |keys|
  {
    if keys != [] {
      ListedCounts(keys[1..]);
      assert Listed(keys) == {keys[0]} + Listed(keys[1..]);
      assert keys[0] !in keys[1..];
    } else {
      assert Listed(keys) == {};
    }
  }

  lemma ListedFirst<K>(keys: seq<K>)
    requires Distinct(keys) && keys != []
    ensures Distinct(keys[1..]) && Listed(keys[1..]) == Listed(keys) - {keys[0]} && keys[0] in Listed(keys)
  {
    assert keys == [keys[0]] + keys[1..];
  }

  lemma ListedAppend<K>(keys: seq<K>, key: K)
    requires Distinct(keys) && key !in Listed(keys)
    ensures Distinct(keys + [key]) && Listed(keys + [key]) == Listed(keys) + {key}
  {
    assert forall i :: 0 <= i < |keys| ==> keys[i] in Listed(keys);
  }

  lemma {:induction false} OnceInDistinct<K>(keys: seq<K>, key: K)
    requires Distinct(keys)
    ensures multiset(keys)[key] == if key in Listed(keys) then 1 else 0
  {
    if keys != [] {
      ListedFirst(keys);
      OnceInDistinct(keys[1..], key);
      assert keys == [keys[0]] + keys[1..];
      assert multiset(keys) == multiset([keys[0]]) + multiset(keys[1..]);
    }
  }

  // ---------------------------------------------------------------------
  // Tables

  datatype Table<K, V> = Table(entries: map<K, V>, order: seq<K>, max: nat, evictions: nat)

  /** An empty table, with room for one entry at least. */
  function NewTable<K, V>(max: nat): (t: Table<K, V>)
    ensures |t.entries| == |t.order| == t.evictions == 0 && t.max == if max == 0 then 1 else max
  {
    Table(map[], [], Max(max, 1), 0)
  }

  /** The queue and the map hold the same keys, each once, and no more than allowed. */
  predicate Valid<K(==), V>(t: Table<K, V>) {
    && t.max > 0 && |t.order| <= t.max && Distinct(t.order)
    && t.entries.Keys == Listed(t.order)
  }

  /** The table with its oldest entry gone. */
  function EvictFirst<K(==), V>(t: Table<K, V>): Table<K, V>
    requires t.order != []
  {
    var key := t.order[0];
    t.(order := t.order[1..], entries := t.entries - {key},
       evictions := t.evictions + if key in t.entries then 1 else 0)
  }

  function EvictUntilRoom<K(==), V>(t: Table<K, V>): Table<K, V>
    decreases |t.order|
  {
    if |t.entries| < t.max || t.order == [] then t else EvictUntilRoom(EvictFirst(t))
  }

  /** A new entry, if there can be room for it. */
  function Install<K(==), V>(t: Table<K, V>, key: K, value: V): Table<K, V> {
    var room := EvictUntilRoom(t);
    if |room.entries| >= room.max then room
    else room.(entries := room.entries[key := value], order := room.order + [key])
  }

  function Update<K(==), V>(t: Table<K, V>, key: K, value: V): Table<K, V> {
    t.(entries := t.entries[key := value])
  }

  lemma SizeOf<K, V>(t: Table<K, V>)
    requires Valid(t)
    ensures |t.entries| == |t.order| <= t.max
  {
    ListedCounts(t.order);
    assert |t.entries| == |t.entries.Keys|;
  }

  lemma EvictFirstKeeps<K, V>(t: Table<K, V>)
    requires Valid(t) && t.order != []
    ensures Valid(EvictFirst(t)) && t.order[0] in t.entries
    ensures |EvictFirst(t).entries| == |t.entries| - 1 && EvictFirst(t).evictions == t.evictions + 1
  {
    hide Distinct, Listed;
    ListedFirst(t.order);
    var after := EvictFirst(t);
    assert after.entries.Keys == Listed(after.order);
    SizeOf(t);
    SizeOf(after);
  }

  /** A new key costs the oldest one its place when the table is full, and is always installed. */
  lemma InstallNew<K, V>(t: Table<K, V>, key: K, value: V)
    requires Valid(t) && key !in t.entries
    ensures var after := Install(t, key, value);
            var full := |t.order| == t.max;
            && Valid(after) && key in after.entries
            && after.order == (if full then t.order[1..] else t.order) + [key]
            && after.entries == (if full then t.entries - {t.order[0]} else t.entries)[key := value]
            && after.evictions == t.evictions + (if full then 1 else 0)
            && after.max == t.max
  {
    hide Distinct, Listed;
    SizeOf(t);
    if |t.order| == t.max {
      EvictFirstKeeps(t);
      var once := EvictFirst(t);
      assert EvictUntilRoom(t) == EvictUntilRoom(once) == once;
      AppendKeeps(once, key, value);
    } else {
      AppendKeeps(t, key, value);
    }
  }

  lemma AppendKeeps<K, V>(t: Table<K, V>, key: K, value: V)
    requires Valid(t) && key !in t.entries && |t.order| < t.max
    ensures Valid(t.(entries := t.entries[key := value], order := t.order + [key]))
  {
    hide Distinct, Listed;
    ListedAppend(t.order, key);
  }

  lemma UpdateKeeps<K, V>(t: Table<K, V>, key: K, value: V)
    requires Valid(t) && key in t.entries
    ensures Valid(Update(t, key, value))
  {
    assert t.entries[key := value].Keys == t.entries.Keys;
  }

  // ---------------------------------------------------------------------
  // The queue, from the order of uses alone

  lemma QueueHolds<K, V>(t: Table<K, V>, key: K)
    requires Valid(t)
    ensures key in t.entries <==> key in t.order
    ensures |t.order| <= t.max && t.max > 0 && Distinct(t.order) && t.entries.Keys == Listed(t.order)
  {
    assert key in t.entries <==> key in Listed(t.order);
  }

  /** The queue after a use of a key, or of none: a new key is put at the back, at the cost of the front when it is full. */
  function NextQueue<K(==)>(queue: seq<K>, max: nat, use: Option<K>): seq<K> {
    if use.None? || use.value in queue then queue
    else (if |queue| < max || queue == [] then queue else queue[1..]) + [use.value]
  }

  function QueueAfter<K(==)>(queue: seq<K>, max: nat, uses: seq<Option<K>>): seq<K>
    decreases |uses|
  {
    if uses == [] then queue else QueueAfter(NextQueue(queue, max, uses[0]), max, uses[1..])
  }

  /**
   Some use of the key that is not its first finds it dropped from the queue;
   `seen` says whether it was used before.
   */
  predicate ComesBack<K(==)>(queue: seq<K>, max: nat, uses: seq<Option<K>>, key: K, seen: bool)
    decreases |uses|
  {
    uses != []
    && (|| (uses[0] == Some(key) && seen && key !in queue)
        || ComesBack(NextQueue(queue, max, uses[0]), max, uses[1..], key, seen || uses[0] == Some(key)))
  }

  /** A key that was used and dropped, and does not come back, is not used any more. */
  lemma {:induction false} DroppedForGood<K>(queue: seq<K>, max: nat, uses: seq<Option<K>>, key: K)
    requires key !in queue && !ComesBack(queue, max, uses, key, true)
    ensures forall i :: 0 <= i < |uses| ==> uses[i] != Some(key)
    ensures key !in QueueAfter(queue, max, uses)
    decreases |uses|
  {
    if uses != [] {
      DroppedForGood(NextQueue(queue, max, uses[0]), max, uses[1..], key);
      assert forall i :: 0 < i < |uses| ==> uses[i] == uses[1..][i - 1];
    }
  }

  function UsedIn<K(==)>(uses: seq<Option<K>>): set<K> {
    set use | use in uses && use.Some? :: use.value
  }

  lemma NextIsListed<K>(queue: seq<K>, max: nat, use: Option<K>)
    requires Distinct(queue) && max > 0
    ensures Distinct(NextQueue(queue, max, use))
    ensures |Listed(queue) + UsedIn([use])| <= max ==>
              queue <= NextQueue(queue, max, use) && Listed(NextQueue(queue, max, use)) == Listed(queue) + UsedIn([use])
  {
    ListedCounts(queue);
    assert UsedIn([use]) == if use.Some? then {use.value} else {} by {
      assert use in [use];
    }
    if use.Some? && use.value !in queue {
      ListedAppend(queue, use.value);
    }
  }

  /** With room for all keys there are none is dropped, so none comes back. */
  lemma {:induction false} FewKeysStay<K>(queue: seq<K>, max: nat, uses: seq<Option<K>>, key: K, seen: bool)
    requires Distinct(queue) && max > 0 && |Listed(queue) + UsedIn(uses)| <= max && (seen ==> key in queue)
    ensures queue <= QueueAfter(queue, max, uses) && !ComesBack(queue, max, uses, key, seen)
    decreases |uses|
  {
    if uses != [] {
      hide Distinct, Listed, UsedIn, NextQueue;
      var next := NextQueue(queue, max, uses[0]);
      UsedFirst(uses);
      SubsetIsSmaller(Listed(queue) + UsedIn([uses[0]]), Listed(queue) + UsedIn(uses));
      NextIsListed(queue, max, uses[0]);
      SubsetIsSmaller(Listed(next) + UsedIn(uses[1..]), Listed(queue) + UsedIn(uses));
      UsedIsNext(queue, max, uses[0]);
      FewKeysStay(next, max, uses[1..], key, seen || uses[0] == Some(key));
    }
  }

  lemma UsedFirst<K>(uses: seq<Option<K>>)
    requires uses != []
    ensures UsedIn(uses) == UsedIn([uses[0]]) + UsedIn(uses[1..])
  {
    assert uses == [uses[0]] + uses[1..];
  }

  lemma UsedIsNext<K>(queue: seq<K>, max: nat, use: Option<K>)
    ensures use.Some? ==> use.value in NextQueue(queue, max, use)
  {
  }
}
