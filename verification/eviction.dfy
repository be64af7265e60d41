/** Oldest-first eviction from a table whose keys carry a time; ties fall either way. */
module Eviction {
  import opened Collections

  predicate IsOldest<K>(times: map<K, int>, k: K) {
    k in times && forall other | other in times :: times[k] <= times[other]
  }

  /** `gone` holds `n` of the keys, and none of them is later than a key that stays. */
  ghost predicate OldestGone<K>(times: map<K, int>, gone: set<K>, n: nat) {
    && gone <= times.Keys && |gone| == n
    && forall g, k | g in gone && k in times && k !in gone :: times[g] <= times[k]
  }

  lemma OldestKey<K(!new), V>(table: map<K, V>, times: map<K, int>) returns (k: K)
    requires table.Keys == times.Keys && Size(table) > 0
    ensures IsOldest(times, k)
  {
    k := Oldest(times);
  }

  lemma NothingGone<K>(times: map<K, int>)
    ensures OldestGone(times, {}, 0)
  {
  }

  lemma OneMoreGone<K>(times: map<K, int>, gone: set<K>, n: nat, oldest: K)
    requires OldestGone(times, gone, n) && IsOldest(times - gone, oldest)
    ensures oldest in times - gone && OldestGone(times, gone + {oldest}, n + 1)
  {
    forall k | k in times && k !in gone ensures times[oldest] <= times[k] {
      assert k in times - gone;
    }
  }

  lemma RemoveOneMore<K, V>(table: map<K, V>, gone: set<K>, k: K)
    requires k in table - gone
    ensures table - gone - {k} == table - (gone + {k})
    ensures Size(table - (gone + {k})) == Size(table - gone) - 1
  {
    assert (table - gone - {k}).Keys == (table - gone).Keys - {k};
  }

  lemma SizeAfter<K, V>(table: map<K, V>, gone: set<K>)
    requires gone <= table.Keys
    ensures Size(table - gone) == |table| - |gone|
  {
    assert (table - gone).Keys == table.Keys - gone;
    assert |table.Keys - gone| == |table.Keys| - |gone|;
  }
}
