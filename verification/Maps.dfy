/** Finite maps built from functions, one entry at a time. */
module Maps {

  /** The map with every value replaced by its image. */
  ghost function Mapped<K, V, W>(m: map<K, V>, f: V -> W): (r: map<K, W>)
    ensures r.Keys == m.Keys
    ensures forall k | k in m :: r[k] == f(m[k])
    decreases |m.Keys|
  {
    if m.Keys == {} then map[] else
      var k :| k in m.Keys;
      Mapped(m - {k}, f)[k := f(m[k])]
  }

  /** A table, filled in one pass. */
  method Fill<K(==), V>(keys: set<K>, f: K -> V) returns (m: map<K, V>)
    ensures m.Keys == keys
    ensures forall k | k in keys :: m[k] == f(k)
  {
    m := map[];
    var rest := keys;
    while rest != {}
      invariant rest <= keys && m.Keys == keys - rest
      invariant forall k | k in m :: m[k] == f(k)
      decreases |rest|
    {
      var k :| k in rest;
      m := m[k := f(k)];
      rest := rest - {k};
    }
  }
}
