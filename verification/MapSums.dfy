/** Sums over the values of a map. */
module MapSums {

  ghost function Total<K(!new), V>(m: map<K, V>, weight: V -> nat): nat
    decreases |m|
  {
    if m == map[] then 0
    else
      var key :| key in m;
      weight(m[key]) + Total(m - {key}, weight)
  }

  /** Any key can be counted first. */
  lemma {:induction false} TotalWithout<K(!new), V>(m: map<K, V>, weight: V -> nat, key: K)
    requires key in m
    ensures Total(m, weight) == weight(m[key]) + Total(m - {key}, weight)
    decreases |m|
  {
    var first :| first in m && Total(m, weight) == weight(m[first]) + Total(m - {first}, weight);
    if first != key {
      TotalWithout(m - {first}, weight, key);
      TotalWithout(m - {key}, weight, first);
      assert m - {first} - {key} == m - {key} - {first};
    }
  }

  lemma TotalWith<K(!new), V>(m: map<K, V>, weight: V -> nat, key: K, value: V)
    ensures Total(m[key := value], weight)
            == Total(m, weight) + weight(value) - if key in m then weight(m[key]) else 0
  {
    TotalWithout(m[key := value], weight, key);
    if key in m {
      TotalWithout(m, weight, key);
      assert m[key := value] - {key} == m - {key};
    } else {
      assert m[key := value] - {key} == m;
    }
  }

  lemma OneFewer<K(!new), V>(m: map<K, V>, key: K)
    requires key in m
    ensures |m - {key}| == |m| - 1
  {
    assert (m - {key}).Keys == m.Keys - {key};
  }

  lemma SameSize<K(!new), V>(m: map<K, V>, key: K, value: V)
    ensures |m[key := value]| == |m| + if key in m then 0 else 1
  {
    assert m[key := value].Keys == m.Keys + {key};
  }
}
