/** The sum of the values of a finite map, whatever order they are added in. */
module Totals {

  ghost function Total<K(!new)>(m: map<K, int>): int {
    if m == map[] then 0
    else
      var k :| k in m;
      m[k] + Total(m - {k})
  }

  lemma {:induction false} TotalRemove<K(!new)>(m: map<K, int>, k: K)
    requires k in m
    ensures Total(m) == m[k] + Total(m - {k})
    decreases |m|
  {
    var c :| c in m && Total(m) == m[c] + Total(m - {c});
    if c != k {
      TotalRemove(m - {c}, k);
      TotalRemove(m - {k}, c);
      assert m - {c} - {k} == m - {k} - {c};
    }
  }

  lemma TotalAdd<K(!new)>(m: map<K, int>, k: K, v: int)
    requires k !in m
    ensures Total(m[k := v]) == Total(m) + v
  {
    TotalRemove(m[k := v], k);
    assert m[k := v] - {k} == m;
  }

  lemma {:induction false} TotalMonotone<K(!new)>(part: map<K, int>, whole: map<K, int>)
    requires part.Keys <= whole.Keys
    requires forall k :: k in part ==> part[k] == whole[k]
    requires forall k :: k in whole ==> whole[k] >= 0
    ensures 0 <= Total(part) <= Total(whole)
    decreases |whole|
  {
    if whole != map[] {
      var k :| k in whole;
      TotalRemove(whole, k);
      if k in part { TotalRemove(part, k); }
      TotalMonotone(part - {k}, whole - {k});
      if k !in part { assert part - {k} == part; }
    } else {
      assert part == map[];
    }
  }
}
