/** Saturating counters, and sums of counters grouped by a key. */
module Counters {
  import opened Collections

  const U64_MAX: nat := 0xFFFF_FFFF_FFFF_FFFF
  const U32_MAX: nat := 0xFFFF_FFFF

  type u64 = n: nat | n <= U64_MAX
  type u32 = n: nat | n <= U32_MAX

  function SatAdd(a: u64, b: nat): u64 {
    if a + b <= U64_MAX then a + b else U64_MAX
  }

  function CountOf<K>(counts: map<K, u64>, k: K): u64 {
    if k in counts then counts[k] else 0
  }

  function Bumped<K>(counts: map<K, u64>, k: K, weight: u64): map<K, u64> {
    counts[k := SatAdd(CountOf(counts, k), weight)]
  }

  function InGroup<K, G(==)>(counts: map<K, u64>, key: K -> G, g: G): map<K, u64> {
    map k | k in counts && key(k) == g :: counts[k]
  }

  function GroupsOf<K, G>(keys: set<K>, key: K -> G): set<G> {
    set k | k in keys :: key(k)
  }

  ghost function GroupTotal<K, G>(counts: map<K, u64>, key: K -> G, g: G): u64 {
    SatAdd(0, Total(InGroup(counts, key, g)))
  }

  /** For each group that occurs, the sum of its counters, capped at the largest u64. */
  ghost function GroupTotals<K, G>(counts: map<K, u64>, key: K -> G): map<G, u64> {
    map g | g in GroupsOf(counts.Keys, key) :: GroupTotal(counts, key, g)
  }

  lemma BumpedGroup<K, G>(counts: map<K, u64>, key: K -> G, k: K, weight: u64)
    ensures GroupTotal(Bumped(counts, k, weight), key, key(k)) == SatAdd(GroupTotal(counts, key, key(k)), weight)
  {
    var after := Bumped(counts, k, weight);
    var mine := InGroup(counts, key, key(k));
    assert InGroup(after, key, key(k)) == mine[k := after[k]];
    TotalInsert(mine, k, after[k]);
    if k in counts {
      TotalRemove(mine, k);
    } else {
      assert mine - {k} == mine;
    }
  }

  lemma OtherGroup<K, G>(counts: map<K, u64>, key: K -> G, k: K, weight: u64, g: G)
    requires g != key(k)
    ensures GroupTotal(Bumped(counts, k, weight), key, g) == GroupTotal(counts, key, g)
  {
    assert InGroup(Bumped(counts, k, weight), key, g) == InGroup(counts, key, g);
  }

  lemma EmptyGroup<K, G>(counts: map<K, u64>, key: K -> G, g: G)
    requires g !in GroupsOf(counts.Keys, key)
    ensures GroupTotal(counts, key, g) == 0
  {
    assert InGroup(counts, key, g) == map[];
  }

  /** Adding to a counter and to its group's total, each saturating on its own, keeps the
      totals equal to the regrouped counters. */
  lemma BumpKeepsTotals<K, G>(counts: map<K, u64>, key: K -> G, k: K, weight: u64)
    ensures GroupTotals(Bumped(counts, k, weight), key) == Bumped(GroupTotals(counts, key), key(k), weight)
  {
    hide GroupTotal;
    var after := Bumped(counts, k, weight);
    var totals, before := GroupTotals(after, key), GroupTotals(counts, key);
    assert after.Keys == counts.Keys + {k};
    assert GroupsOf(after.Keys, key) == GroupsOf(counts.Keys, key) + {key(k)};
    BumpedGroup(counts, key, k, weight);
    if key(k) !in before {
      EmptyGroup(counts, key, key(k));
    }
    forall g | g in totals && g != key(k) ensures totals[g] == GroupTotal(counts, key, g) {
      OtherGroup(counts, key, k, weight, g);
    }
  }

  /** Dropping every counter of one group drops exactly its total. */
  lemma DropGroup<K, G>(counts: map<K, u64>, key: K -> G, g: G)
    requires g in GroupsOf(counts.Keys, key)
    ensures GroupTotals(counts - InGroup(counts, key, g).Keys, key) == GroupTotals(counts, key) - {g}
  {
    var kept := counts - InGroup(counts, key, g).Keys;
    forall other | other in GroupsOf(counts.Keys, key) && other != g
      ensures other in GroupsOf(kept.Keys, key) && InGroup(kept, key, other) == InGroup(counts, key, other)
    {
      var k :| k in counts && key(k) == other;
      assert k in kept;
    }
    assert GroupsOf(kept.Keys, key) == GroupsOf(counts.Keys, key) - {g};
  }

  lemma FewerKeysFewerGroups<K, G>(fewer: map<K, u64>, counts: map<K, u64>, key: K -> G)
    requires fewer.Keys <= counts.Keys
    ensures GroupTotals(fewer, key).Keys <= GroupTotals(counts, key).Keys
    ensures |GroupTotals(fewer, key)| <= |GroupTotals(counts, key)|
  {
    SubsetSize(GroupTotals(fewer, key).Keys, GroupTotals(counts, key).Keys);
  }
}
