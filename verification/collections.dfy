/** Finite-map sums, counting and least elements. */
module Collections {
  /** The sum of all values of a map, in any order of its keys. */
  ghost function Total<K>(m: map<K, nat>): nat
    decreases |m|
  {
    if m == map[] then 0 else
      var k :| k in m;
      assert |m - {k}| < |m| by { assert (m - {k}).Keys == m.Keys - {k}; }
      m[k] + Total(m - {k})
  }

  lemma {:induction false} TotalRemove<K>(m: map<K, nat>, k: K)
    requires k in m
    ensures Total(m) == m[k] + Total(m - {k})
    decreases |m|
  {
    var j :| j in m && Total(m) == m[j] + Total(m - {j});
    if j != k {
      assert (m - {j}).Keys == m.Keys - {j};
      TotalRemove(m - {j}, k);
      assert (m - {k}).Keys == m.Keys - {k};
      TotalRemove(m - {k}, j);
      assert m - {j} - {k} == m - {k} - {j};
    }
  }

  lemma TotalInsert<K>(m: map<K, nat>, k: K, v: nat)
    ensures Total(m[k := v]) == v + Total(m - {k})
  {
    TotalRemove(m[k := v], k);
    assert m[k := v] - {k} == m - {k};
  }

  lemma {:induction false} SubsetSize<T>(a: set<T>, b: set<T>)
    requires a <= b
    ensures |a| <= |b|
    ensures a != b ==> |a| < |b|
  {
    assert b == a + (b - a);
  }

  /** The number of entries, as a function that a proof can hide. */
  function Size<K, V>(m: map<K, V>): nat {
    |m|
  }

  ghost predicate TotalPreorder<T(!new)>(le: (T, T) -> bool) {
    && (forall a, b :: le(a, b) || le(b, a))
    && (forall a, b, c :: le(a, b) && le(b, c) ==> le(a, c))
  }

  /** Every non-empty finite set has a least element in a total preorder. */
  lemma {:induction false} Least<T(!new)>(s: set<T>, le: (T, T) -> bool) returns (least: T)
    requires s != {} && TotalPreorder(le)
    ensures least in s && forall x | x in s :: le(least, x)
    decreases |s|
  {
    var x :| x in s;
    least := x;
    if s == {x} {
      assert le(x, x);
    } else {
      var y := Least(s - {x}, le);
      least := if le(x, y) then x else y;
      forall z | z in s ensures le(least, z) {
        assert z == x || z in s - {x};
        assert z == x ==> le(x, z);
      }
    }
  }

  lemma Oldest<K(!new)>(m: map<K, int>) returns (k: K)
    requires m != map[]
    ensures k in m && forall j | j in m :: m[k] <= m[j]
  {
    var at := (k: K) => if k in m then m[k] else 0;
    k := Least(m.Keys, (a: K, b: K) => at(a) <= at(b));
    assert forall j | j in m :: at(k) <= at(j);
  }

  lemma OneMoreKey<K, V>(table: map<K, V>, k: K, v: V)
    ensures |table[k := v]| <= |table| + 1
  {
    assert table[k := v].Keys == table.Keys + {k};
    assert |table[k := v].Keys| == |table[k := v]| && |table.Keys| == |table|;
  }

  /** The elements of `q`, without repetition, are those of `s`. */
  ghost predicate Lists<T(!new)>(q: seq<T>, s: set<T>) {
    && (forall x :: x in q <==> x in s)
    && (forall i, j | 0 <= i < j < |q| :: q[i] != q[j])
  }

  method Listed<T(==, !new)>(s: set<T>) returns (q: seq<T>)
    ensures Lists(q, s)
  {
    q := [];
    var todo := s;
    while todo != {}
      invariant todo <= s && Lists(q, s - todo)
    {
      var x :| x in todo;
      q := q + [x];
      todo := todo - {x};
    }
    assert s - todo == s;
  }
}
