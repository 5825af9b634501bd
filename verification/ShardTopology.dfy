/** How many shards there are, and which one a number stands for. */
module ShardTopology {
  import opened Bytes

  /** Bitwise and. */
  function And(a: nat, b: nat): (r: nat)
    decreases b
  {
    if b == 0 then 0 else (a % 2) * (b % 2) + 2 * And(a / 2, b / 2)
  }

  predicate IsPowerOfTwo(n: nat) {
    n == 1 || (n > 1 && n % 2 == 0 && IsPowerOfTwo(n / 2))
  }

  datatype Topology = Topology(count: nat, mask: Option<nat>) {
    function ShardFor(number: nat): nat
      requires count > 0
    {
      if mask.Some? then And(number, mask.value) else number % count
    }
  }

  function NewTopology(count: nat): Topology {
    var atLeastOne := Max(count, 1);
    Topology(atLeastOne, if IsPowerOfTwo(atLeastOne) then Some(atLeastOne - 1) else None)
  }

  /** Masking with a power of two less one is the remainder by it. */
  lemma {:induction false} MaskIsModulo(a: nat, n: nat)
    requires IsPowerOfTwo(n)
    ensures And(a, n - 1) == a % n
    decreases n
  {
    if n > 1 {
      var half := n / 2;
      assert (n - 1) % 2 == 1 && (n - 1) / 2 == half - 1;
      MaskIsModulo(a / 2, half);
      DoubledRemainder(a, half);
    }
  }

  lemma DoubledRemainder(a: nat, half: nat)
    requires half > 0
    ensures a % (2 * half) == a % 2 + 2 * ((a / 2) % half)
  {
    var q := (a / 2) / half;
    var r := a % 2 + 2 * ((a / 2) % half);
    assert a == 2 * (a / 2) + a % 2;
    assert a / 2 == half * q + (a / 2) % half;
    assert a == q * (2 * half) + r by {
      assert 2 * (half * q) == q * (2 * half);
    }
    RemainderIs(a, 2 * half, q, r);
  }

  lemma RemainderIs(a: nat, n: nat, q: nat, r: nat)
    requires a == q * n + r && r < n
    ensures a % n == r
  {
    var q', r' := a / n, a % n;
    assert a == q' * n + r';
    if q' < q {
      MoreTimes(q', q, n);
    } else if q' > q {
      MoreTimes(q, q', n);
    }
  }

  lemma MoreTimes(a: nat, b: nat, n: nat)
    requires a < b
    ensures a * n + n <= b * n
  {
    assert b * n == a * n + n + (b - a - 1) * n;
  }

  /** However it is computed, the shard is the remainder by the count, so it exists. */
  lemma ShardIsTheRemainder(count: nat, number: nat)
    ensures var t := NewTopology(count);
            && t.count == (if count == 0 then 1 else count)
            && t.ShardFor(number) == number % t.count < t.count
  {
    var t := NewTopology(count);
    if t.mask.Some? {
      MaskIsModulo(number, t.count);
    }
  }
}
