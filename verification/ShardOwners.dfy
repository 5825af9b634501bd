/** Which shard owns each flow: a bounded table that forgets the oldest entry first. */
module ShardOwners {
  import opened Bytes
  import opened OldestFirst

  /** A flow's canonical key; its protocol is a part of it. */
  datatype Key = Key(id: nat, udp: bool)

  datatype Owner = Owner(shard: nat, packets: nat, bytes: nat, striped: bool)

  type Table = OldestFirst.Table<Key, Owner>

  function Remember(t: Table, key: Key, shard: nat): Table {
    if key in t.entries then Update(t, key, t.entries[key].(shard := shard))
    else Install(t, key, Owner(shard, 0, 0, false))
  }

  function Observe(t: Table, key: Key, bytes: nat): Table {
    if key in t.entries then
      var o := t.entries[key];
      Update(t, key, o.(packets := o.packets + 1, bytes := o.bytes + bytes))
    else t
  }

  function MarkStriped(t: Table, key: Key): Table {
    if key in t.entries then Update(t, key, t.entries[key].(striped := true)) else t
  }

  // ---------------------------------------------------------------------

  /** A new owner is installed with nothing counted, at the cost of the oldest entry when the table is full. */
  lemma RememberNew(t: Table, key: Key, shard: nat)
    requires Valid(t) && key !in t.entries
    ensures var after := Remember(t, key, shard);
            var full := |t.order| == t.max;
            && Valid(after) && key in after.entries
            && after.order == (if full then t.order[1..] else t.order) + [key]
            && after.entries == (if full then t.entries - {t.order[0]} else t.entries)[key := Owner(shard, 0, 0, false)]
            && after.evictions == t.evictions + (if full then 1 else 0)
            && after.max == t.max
  {
    hide Valid, Install;
    InstallNew(t, key, Owner(shard, 0, 0, false));
  }

  /** So the owner that was just remembered can always be looked up. */
  lemma EveryStepKeeps(t: Table, key: Key, n: nat)
    requires Valid(t)
    ensures Valid(Remember(t, key, n)) && key in Remember(t, key, n).entries
    ensures Valid(Observe(t, key, n)) && Valid(MarkStriped(t, key))
  {
    hide Valid, Install;
    if key in t.entries {
      UpdateKeeps(t, key, t.entries[key].(shard := n));
      UpdateKeeps(t, key, t.entries[key].(packets := t.entries[key].packets + 1, bytes := t.entries[key].bytes + n));
      UpdateKeeps(t, key, t.entries[key].(striped := true));
    } else {
      RememberNew(t, key, n);
    }
  }

  class FlowOwnerTable {
    var owners: map<Key, Owner>
    var order: seq<Key>
    const maxOwners: nat
    var evictions: nat

    constructor (maxOwners: nat)
      ensures Value() == NewTable(maxOwners)
    {
      owners, order, evictions := map[], [], 0;
      this.maxOwners := Max(maxOwners, 1);
    }

    function Value(): Table
      reads this
    {
      OldestFirst.Table(owners, order, maxOwners, evictions)
    }

    method OwnerOf(key: Key) returns (owner: Option<Owner>)
      ensures owner == if key in owners then Some(owners[key]) else None
    {
      owner := if key in owners then Some(owners[key]) else None;
    }

    method RememberOwner(key: Key, shard: nat)
      modifies this
      ensures Value() == Remember(old(Value()), key, shard)
    {
      hide EvictFirst;
      if key in owners {
        owners := owners[key := owners[key].(shard := shard)];
        return;
      }
      while |owners| >= maxOwners && order != []
        invariant EvictUntilRoom(Value()) == EvictUntilRoom(old(Value()))
        decreases |order|
      {
        EvictOldest();
      }
      if |owners| >= maxOwners {
        return;
      }
      owners := owners[key := Owner(shard, 0, 0, false)];
      order := order + [key];
    }

    method EvictOldest()
      requires order != []
      modifies this
      ensures Value() == EvictFirst(old(Value())) && |order| == |old(order)| - 1
    {
      var evicted := order[0];
      order := order[1..];
      if evicted in owners {
        evictions := evictions + 1;
      }
      owners := owners - {evicted};
    }

    method ObservePacket(key: Key, bytes: nat)
      modifies this
      ensures Value() == Observe(old(Value()), key, bytes)
    {
      if key !in owners {
        return;
      }
      var owner := owners[key];
      owners := owners[key := owner.(packets := owner.packets + 1, bytes := owner.bytes + bytes)];
    }

    method Stripe(key: Key)
      modifies this
      ensures Value() == MarkStriped(old(Value()), key)
    {
      if key in owners {
        owners := owners[key := owners[key].(striped := true)];
      }
    }
  }
}
