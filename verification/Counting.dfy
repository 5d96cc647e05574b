/** Counting the threads that are at a given place. */
module Counting {
  import opened Maps

  function One(b: bool): nat {
    if b then 1 else 0
  }

  /** The keys whose value satisfies p. */
  function Where<K, V>(m: map<K, V>, p: V -> bool): set<K> {
    set k | k in m && p(m[k])
  }

  /** Moving one key changes the set by that key alone. */
  lemma {:induction false} WhereMove<K, V>(m: map<K, V>, k: K, v: V, p: V -> bool)
    requires k in m
    ensures Where(m[k := v], p) == Where(m, p) - {k} + (if p(v) then {k} else {})
    ensures |Where(m[k := v], p)| == |Where(m, p)| + One(p(v)) - One(p(m[k]))
  {
    assert Where(m[k := v], p) == Where(m, p) - {k} + (if p(v) then {k} else {});
    if p(m[k]) {
      assert Where(m, p) == (Where(m, p) - {k}) + {k};
    } else {
      assert Where(m, p) - {k} == Where(m, p);
    }
  }

  /** Two maps that differ only at w, where p gives way to q. */
  lemma {:induction false} WhereShift<K, V>(m: map<K, V>, m': map<K, V>, w: set<K>, p: V -> bool, q: V -> bool)
    requires m'.Keys == m.Keys && w <= Where(m, p)
    requires forall k :: k in m && k !in w ==> m'[k] == m[k]
    requires forall k :: k in w ==> !p(m'[k]) && q(m'[k]) && !q(m[k])
    ensures |w| <= |Where(m, p)| && |Where(m', p)| == |Where(m, p)| - |w|
    ensures |Where(m', q)| == |Where(m, q)| + |w|
  {
    assert Where(m', p) == Where(m, p) - w;
    assert Where(m, p) == (Where(m, p) - w) + w;
    assert Where(m', q) == Where(m, q) + w;
    assert Where(m, q) !! w;
  }

  /** When f takes the updated values from p to q and touches no other, the set moves with them. */
  lemma {:induction false} WhereUpdate<K, V>(m: map<K, V>, w: set<K>, f: V -> V, p: V -> bool, q: V -> bool)
    requires w <= Where(m, p)
    requires forall k :: k in w ==> !p(f(m[k])) && q(f(m[k])) && !q(m[k])
    ensures |w| <= |Where(m, p)| && |Where(Update(m, w, f), p)| == |Where(m, p)| - |w|
    ensures |Where(Update(m, w, f), q)| == |Where(m, q)| + |w|
  {
    WhereShift(m, Update(m, w, f), w, p, q);
  }

  lemma {:induction false} WhereUntouched<K, V>(m: map<K, V>, w: set<K>, f: V -> V, p: V -> bool)
    requires forall k :: k in w && k in m ==> p(f(m[k])) == p(m[k])
    ensures Where(Update(m, w, f), p) == Where(m, p)
  {
  }
}
