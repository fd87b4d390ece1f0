/** Maps of maps, by chain and by a key on that chain. */
module NestedMaps {
  import opened CcipTypes

  /** The value at a place, if there is one. */
  function At<K(==), V>(m: map<ChainSelector, map<K, V>>, p: (ChainSelector, K)): Option<V> {
    if p.0 in m && p.1 in m[p.0] then Some(m[p.0][p.1]) else None
  }

  /** m[p.0][p.1] = v, creating m[p.0] if needed. */
  function With<K(==), V>(m: map<ChainSelector, map<K, V>>, p: (ChainSelector, K), v: V): map<ChainSelector,
                  map<K, V>> {
    var at: map<K, V> := if p.0 in m then m[p.0] else map[];
    m[p.0 := at[p.1 := v]]
  }

  lemma WithAt<K(!new), V>(m: map<ChainSelector, map<K, V>>, p: (ChainSelector, K), v: V)
    ensures forall q :: At(With(m, p, v), q) == if q == p then Some(v) else At(m, q)
  {
  }
}
