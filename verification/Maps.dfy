/** Maps built one update at a time.

    Dafny 4.11 encodes a map comprehension with values outside its keys as well, and an equality
    between two such maps equates those too, which can prove anything.  For this reason no map
    comprehension is used in these modules. */
module Maps {
  /** Every key at v. */
  ghost function Filled<K, V>(keys: set<K>, v: V): (m: map<K, V>)
    ensures m.Keys == keys && forall k :: k in keys ==> m[k] == v
  {
    if keys == {} then map[]
    else
      var k :| k in keys;
      Filled(keys - {k}, v)[k := v]
  }

  /** Apply f to the values at the keys in w. */
  ghost function Update<K, V>(m: map<K, V>, w: set<K>, f: V -> V): (r: map<K, V>)
    ensures r.Keys == m.Keys && forall k :: k in m ==> r[k] == if k in w then f(m[k]) else m[k]
  {
    if w == {} then m
    else
      var k :| k in w;
      var rest := Update(m, w - {k}, f);
      if k in m then rest[k := f(m[k])] else rest
  }
}
