/**
 * The per-key counters of the detector (`write_operations` and `source_ips`,
 * both `defaultdict(int)`): a missing key reads as 0, `d[k] += 1` inserts a
 * missing key at the end, and iteration visits keys in first-insertion order.
 */
module Counters {

  datatype Counter<K(==,!new)> = Counter(keys: seq<K>, counts: map<K, nat>) {

    /** Keys are listed once each, and exactly the keys that have a count. */
    ghost predicate Valid() {
      && Distinct(keys)
      && forall k :: k in counts <==> k in keys
    }

    /** `d[k]` on a defaultdict(int): a key never counted reads as 0. */
    function Get(k: K): nat {
      Lookup(counts, k)
    }

    /** `d[k] += 1`. */
    function Increment(k: K): (c: Counter<K>)
      ensures c.Get(k) == Get(k) + 1
      ensures forall k' :: k' != k ==> c.Get(k') == Get(k')
      ensures Valid() ==> c.Valid()
      ensures Valid() ==> c.keys == if k in keys then keys else keys + [k]
    {
      if k in counts then
        Counter(keys, counts[k := counts[k] + 1])
      else
        Counter(keys + [k], counts[k := 1])
    }

    /** `sum(d.values())`. */
    function Total(): nat {
      SumCounts(keys, counts)
    }
  }

  /** A fresh `defaultdict(int)`. */
  function Empty<K(==,!new)>(): (c: Counter<K>)
    ensures c.Valid() && c.Total() == 0
    ensures forall k :: c.Get(k) == 0
  {
    Counter([], map[])
  }

  ghost predicate Distinct<K>(s: seq<K>) {
    forall i, j :: 0 <= i < j < |s| ==> s[i] != s[j]
  }

  function Lookup<K>(counts: map<K, nat>, k: K): nat {
    if k in counts then counts[k] else 0
  }

  /** The sum of the counts of `keys`, taken from the last key backwards. */
  function SumCounts<K>(keys: seq<K>, counts: map<K, nat>): nat {
    if |keys| == 0 then 0
    else SumCounts(keys[..|keys| - 1], counts) + Lookup(counts, keys[|keys| - 1])
  }

  /** Changing the count of a key that is not listed leaves the sum alone. */
  lemma {:induction false} SumIgnoresUnlisted<K>(keys: seq<K>, counts: map<K, nat>, k: K, v: nat)
    requires k !in keys
    ensures SumCounts(keys, counts[k := v]) == SumCounts(keys, counts)
  {
    if |keys| > 0 {
      SumIgnoresUnlisted(keys[..|keys| - 1], counts, k, v);
    }
  }

  /** Adding one to the count of a key listed exactly once adds one to the sum. */
  lemma {:induction false} SumBump<K>(keys: seq<K>, counts: map<K, nat>, k: K)
    requires Distinct(keys) && k in keys
    ensures SumCounts(keys, counts[k := Lookup(counts, k) + 1]) == SumCounts(keys, counts) + 1
  {
    var n := |keys| - 1;
    var prefix := keys[..n];
    if keys[n] == k {
      assert k !in prefix by {
        forall i | 0 <= i < n ensures prefix[i] != k {
          assert keys[i] != keys[n];
        }
      }
      SumIgnoresUnlisted(prefix, counts, k, Lookup(counts, k) + 1);
    } else {
      assert k in prefix by {
        var i :| 0 <= i < |keys| && keys[i] == k;
        assert i < n;
        assert prefix[i] == k;
      }
      SumBump(prefix, counts, k);
    }
  }

  /** Every increment adds exactly one to the total of a valid counter. */
  lemma TotalIncrement<K(!new)>(c: Counter<K>, k: K)
    requires c.Valid()
    ensures c.Increment(k).Total() == c.Total() + 1
  {
    if k in c.counts {
      SumBump(c.keys, c.counts, k);
    } else {
      var keys' := c.keys + [k];
      var counts' := c.counts[k := 1];
      assert keys'[..|keys'| - 1] == c.keys;
      SumIgnoresUnlisted(c.keys, c.counts, k, 1);
    }
  }
}
