/** Sums over the values of a map, whatever order they are added in. */
module Sums {
  import opened CcipTypes
  import opened Sorting

  ghost function Total(m: map<ChainSelector, nat>): nat {
    if m == map[] then 0
    else
      var k := Least(m.Keys);
      m[k] + Total(m - {k})
  }

  /** Any value may be added last. */
  lemma {:induction false} TotalRemove(m: map<ChainSelector, nat>, k: ChainSelector)
    requires k in m
    ensures Total(m) == m[k] + Total(m - {k})
    decreases |m|
  {
    assert m.Keys != {};
    var l := Least(m.Keys);
    if k != l {
      TotalRemove(m - {l}, k);
      assert l in (m - {k}).Keys;
      assert Least((m - {k}).Keys) == l;
      assert m - {l} - {k} == m - {k} - {l};
    }
  }

  /** Adding one more key to what has been summed up so far. */
  lemma TotalStep(m: map<ChainSelector, nat>, rest: set<ChainSelector>, k: ChainSelector)
    requires k in rest && k in m
    ensures Total(m - (rest - {k})) == m[k] + Total(m - rest)
  {
    TotalRemove(m - (rest - {k}), k);
    assert m - (rest - {k}) - {k} == m - rest;
  }

  lemma TotalEnds(m: map<ChainSelector, nat>)
    ensures Total(m - m.Keys) == 0
    ensures Total(m - {}) == Total(m)
  {
    assert m - m.Keys == map[];
    assert m - {} == m;
  }

  /** Values that are nowhere larger have no larger total, and the same total only if they are equal. */
  lemma {:induction false} TotalMonotone(a: map<ChainSelector, nat>, b: map<ChainSelector, nat>)
    requires a.Keys == b.Keys
    requires forall k :: k in a ==> a[k] <= b[k]
    ensures Total(a) <= Total(b)
    ensures Total(a) == Total(b) ==> a == b
    decreases |a|
  {
    if a != map[] {
      var k := Least(a.Keys);
      TotalMonotone(a - {k}, b - {k});
      assert b != map[] by { assert k in b; }
      if Total(a) == Total(b) {
        assert a - {k} == b - {k};
        forall j | j in a
          ensures a[j] == b[j]
        {
          if j != k {
            assert (a - {k})[j] == (b - {k})[j];
          }
        }
      }
    } else {
      assert b == map[];
    }
  }

  /** Of two sets one inside the other, equal size means equality. */
  lemma SameSizeSubset<T>(a: set<T>, b: set<T>)
    requires a <= b && |a| == |b|
    ensures a == b
  {
    if x :| x in b && x !in a {
      SubsetSize(a, b - {x});
    }
  }
}
