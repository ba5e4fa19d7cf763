/** Maps of counters, and the sum of the counters whose key satisfies a predicate. */
module Tally {

  function Get<K>(m: map<K, nat>, k: K): nat {
    if k in m then m[k] else 0
  }

  ghost function TotalWhere<K(!new)>(m: map<K, nat>, p: K -> bool): nat {
    if m == map[] then 0
    else
      var k :| k in m;
      (if p(k) then m[k] else 0) + TotalWhere(m - {k}, p)
  }

  ghost function Total<K(!new)>(m: map<K, nat>): nat {
    TotalWhere(m, _ => true)
  }

  lemma {:induction false} TotalRemove<K(!new)>(m: map<K, nat>, p: K -> bool, k: K)
    requires k in m
    ensures TotalWhere(m, p) == (if p(k) then m[k] else 0) + TotalWhere(m - {k}, p)
  {
    var c :| c in m && TotalWhere(m, p) == (if p(c) then m[c] else 0) + TotalWhere(m - {c}, p);
    if c != k {
      TotalRemove(m - {c}, p, k);
      TotalRemove(m - {k}, p, c);
      assert m - {c} - {k} == m - {k} - {c};
    }
  }

  /** Overwriting one counter changes every sum that includes its key by the difference, and no other. */
  lemma TotalUpdate<K(!new)>(m: map<K, nat>, p: K -> bool, k: K, v: nat)
    ensures TotalWhere(m[k := v], p) == TotalWhere(m, p) + if p(k) then v - Get(m, k) else 0
  {
    TotalRemove(m[k := v], p, k);
    if k in m {
      TotalRemove(m, p, k);
      assert m[k := v] - {k} == m - {k};
    } else {
      assert m[k := v] - {k} == m;
    }
  }

  /** Two maps that differ at most at `k` have totals that differ by the counters there. */
  lemma TotalChange<K(!new)>(m: map<K, nat>, m': map<K, nat>, k: K)
    requires m'.Keys == m.Keys + {k} && forall j | j in m && j != k :: m'[j] == m[j]
    ensures Total(m') == Total(m) + m'[k] - Get(m, k)
  {
    assert m' == m[k := m'[k]];
    TotalUpdate(m, _ => true, k, m'[k]);
  }
}
