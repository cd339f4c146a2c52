/** The sum of the values of a `splitBetween` mapping, used to state that the shares
    of an event add up to its amount. */
module RealMaps {

  /** Sum of all values of `m` (the order in which keys are taken does not matter,
      see MapSumRemove). */
  ghost function MapSum(m: map<string, real>): real
    decreases |m|
  {
    if m == map[] then 0.0
    else
      var k :| k in m;
      m[k] + MapSum(m - {k})
  }

  /** Any key can be taken out first. */
  lemma MapSumRemove(m: map<string, real>, k: string)
    requires k in m
    ensures MapSum(m) == m[k] + MapSum(m - {k})
    decreases |m|
  {
    var j :| j in m && MapSum(m) == m[j] + MapSum(m - {j});
    if j != k {
      var mj, mk := m - {j}, m - {k};
      MapSumRemove(mj, k);
      MapSumRemove(mk, j);
      assert mj - {k} == mk - {j};
    }
  }

  /** Adding a fresh key adds its value to the sum. */
  lemma MapSumAddKey(m: map<string, real>, k: string, v: real)
    requires k !in m
    ensures MapSum(m[k := v]) == v + MapSum(m)
  {
    MapSumRemove(m[k := v], k);
    assert m[k := v] - {k} == m;
  }

  /** A mapping whose every value is `c` sums to `c` times its size. */
  lemma {:induction false} MapSumConstant(m: map<string, real>, c: real)
    requires forall k :: k in m ==> m[k] == c
    ensures MapSum(m) == (|m| as real) * c
    decreases |m|
  {
    if m != map[] {
      var k :| k in m;
      MapSumRemove(m, k);
      MapSumConstant(m - {k}, c);
      assert |m - {k}| == |m| - 1;
    }
  }
}
