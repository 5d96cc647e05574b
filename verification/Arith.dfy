/** Integer facts about division with remainder, shared by the ring buffers, the hash table and the
    block pool. */
module Arith {
  lemma {:induction false} MulStep(m: nat, a: int, b: int)
    requires a + 1 <= b
    ensures m * b >= m * a + m
  {
    assert m * b == m * a + m + m * (b - a - 1);
  }

  /** The quotient and the remainder of a division are unique. */
  lemma {:induction false} DivModUnique(n: int, m: nat, q: int, r: nat)
    requires r < m && n == m * q + r
    ensures n / m == q && n % m == r
  {
    var q' := n / m;
    if q < q' {
      MulStep(m, q, q');
    } else if q' < q {
      MulStep(m, q', q);
    }
  }

  /** A quotient is the largest factor that fits. */
  lemma {:induction false} QuotientIsLargest(m: int, d: nat, k: int)
    requires d > 0
    ensures d * k <= m <==> k <= m / d
  {
    var q := m / d;
    if k <= q {
      if k < q { MulStep(d, k, q); }
    } else {
      MulStep(d, q, k);
    }
  }

  /** Two positions less than a lap apart share a slot only if they are the same position. */
  lemma {:induction false} SameSlot(a: nat, b: nat, slots: nat)
    requires 0 < slots && a <= b < a + slots && a % slots == b % slots
    ensures a == b
  {
    var q, r := a / slots, b / slots;
    if q < r {
      MulStep(slots, q, r);
    } else if r < q {
      MulStep(slots, r, q);
    }
  }

  /** Advancing a slot index by k modulo the ring size follows the position. */
  lemma {:induction false} AddSlot(n: nat, k: nat, slots: nat)
    requires 0 < slots
    ensures (n % slots + k) % slots == (n + k) % slots
  {
    var q, r := n / slots, n % slots;
    var q', r' := (r + k) / slots, (r + k) % slots;
    assert n + k == slots * (q + q') + r';
    DivModUnique(n + k, slots, q + q', r');
  }

  /** The next position lands on slot k exactly when it is a whole lap ahead of k. */
  lemma {:induction false} OneLapOn(n: nat, k: nat, slots: nat)
    requires 0 < slots && k <= n < k + slots
    ensures (n + 1) % slots == k % slots <==> n + 1 == k + slots
  {
    if n + 1 == k + slots {
      DivModUnique(n + 1, slots, k / slots + 1, k % slots);
    } else if (n + 1) % slots == k % slots {
      SameSlot(k, n + 1, slots);
    }
  }
}
