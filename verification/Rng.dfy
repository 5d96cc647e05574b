/** `rng_range_u32` of src/math/rng.c: rejection sampling on 32-bit draws.  The generator is an
    arbitrary stream of draws; the loop ends because draws of at least 2^31 keep coming. */
module Rng {
  import opened Arith

  const U32: nat := 0x1_0000_0000
  const HALF: nat := 0x8000_0000

  type Draw = n: nat | n < U32

  /** `(0u - bound) % bound`: the draws below it are discarded. */
  function Threshold(bound: nat): nat
    requires 0 < bound < U32
  {
    (U32 - bound) % bound
  }

  predicate Accepted(v: Draw, bound: nat)
    requires 0 < bound < U32
  {
    v >= Threshold(bound)
  }

  /** The threshold is what 2^32 leaves over, and less than half of the draws. */
  lemma {:induction false} ThresholdIsRemainder(bound: nat)
    requires 0 < bound < U32
    ensures Threshold(bound) == U32 % bound && Threshold(bound) < HALF
  {
    var q, t := (U32 - bound) / bound, (U32 - bound) % bound;
    assert U32 == bound * (q + 1) + t;
    DivModUnique(U32, bound, q + 1, t);
    assert bound * (q + 1) >= bound by { MulStep(bound, 0, q + 1); }
  }

  /** The test discards exactly the draws below what 2^32 leaves over. */
  lemma {:induction false} AcceptedIff(v: Draw, bound: nat)
    requires 0 < bound < U32
    ensures Accepted(v, bound) <==> v >= 0x1_0000_0000 % bound
  {
    ThresholdIsRemainder(bound);
  }

  // ----- counting residues ---------------------------------------------------------------------

  /** How many v below n have remainder r. */
  function CountBelow(n: nat, bound: nat, r: nat): nat
    requires bound > 0
  {
    if n == 0 then 0 else CountBelow(n - 1, bound, r) + (if (n - 1) % bound == r then 1 else 0)
  }

  lemma {:induction false} NextQuotient(n: nat, bound: nat)
    requires n > 0 && bound > 0
    ensures var q, s := (n - 1) / bound, (n - 1) % bound;
            if s + 1 < bound then n / bound == q && n % bound == s + 1 else n / bound == q + 1 && n % bound == 0
  {
    var q, s := (n - 1) / bound, (n - 1) % bound;
    if s + 1 < bound {
      DivModUnique(n, bound, q, s + 1);
    } else {
      assert bound * (q + 1) == bound * q + bound;
      DivModUnique(n, bound, q + 1, 0);
    }
  }

  /** In closed form: n / bound of them, and one more if the last, partial round reaches r. */
  lemma {:induction false} CountClosedForm(n: nat, bound: nat, r: nat)
    requires r < bound
    ensures CountBelow(n, bound, r) == n / bound + (if r < n % bound then 1 else 0)
  {
    if n == 0 {
      DivModUnique(0, bound, 0, 0);
    } else {
      CountClosedForm(n - 1, bound, r);
      NextQuotient(n, bound);
    }
  }

  /** The accepted draws that reduce to r. */
  function AcceptedWith(bound: nat, r: nat): set<int>
    requires 0 < bound < U32
  {
    set v | 0 <= v < U32 && Accepted(v, bound) && v % bound == r
  }

  lemma {:induction false} CountIsCardinality(lo: nat, n: nat, bound: nat, r: nat)
    requires bound > 0 && lo <= n
    ensures |set v | lo <= v < n && v % bound == r| == CountBelow(n, bound, r) - CountBelow(lo, bound, r)
  {
    if lo < n {
      CountIsCardinality(lo, n - 1, bound, r);
      var below := set v | lo <= v < n - 1 && v % bound == r;
      var last := n - 1;
      if last % bound == r {
        assert (set v | lo <= v < n && v % bound == r) == below + {last};
      } else {
        assert (set v | lo <= v < n && v % bound == r) == below;
      }
    }
  }

  /** Every result below `bound` comes from equally many accepted draws. */
  lemma {:induction false} AcceptedDrawsAreUniform(bound: nat, r: nat)
    requires 0 < bound < U32 && r < bound
    ensures |AcceptedWith(bound, r)| == 0x1_0000_0000 / bound
  {
    ThresholdIsRemainder(bound);
    var t := Threshold(bound);
    assert AcceptedWith(bound, r) == set v | t <= v < U32 && v % bound == r;
    CountIsCardinality(t, U32, bound, r);
    CountClosedForm(U32, bound, r);
    CountClosedForm(t, bound, r);
    DivModUnique(t, bound, 0, t);
  }

  // ----- the loop ------------------------------------------------------------------------------

  class Generator {
    const stream: nat -> Draw
    var pos: nat

    ghost predicate HighFrom(k: nat) {
      exists m: nat :: k <= m && stream(m) >= HALF
    }

    /** Draws in the upper half never run out. */
    ghost predicate Lively()
    {
      forall k: nat :: HighFrom(k)
    }

    constructor (stream: nat -> Draw)
      ensures this.stream == stream && pos == 0
    {
      this.stream := stream;
      pos := 0;
    }

    method NextU32() returns (v: Draw)
      modifies this
      ensures v == stream(old(pos)) && pos == old(pos) + 1
    {
      v := stream(pos);
      pos := pos + 1;
    }

    /** `rng_range_u32`: the first accepted draw, reduced; a zero bound gives zero without drawing. */
    method RangeU32(bound: nat) returns (r: nat)
      requires bound < U32 && Lively()
      modifies this
      ensures bound == 0 ==> r == 0 && pos == old(pos)
      ensures bound > 0 ==>
        && old(pos) < pos && Accepted(stream(pos - 1), bound) && r == stream(pos - 1) % bound < bound
        && forall k: nat :: old(pos) <= k < pos - 1 ==> !Accepted(stream(k), bound)
      ensures bound > 0 ==>
        && stream(pos - 1) >= 0x1_0000_0000 % bound
        && forall k: nat :: old(pos) <= k < pos - 1 ==> stream(k) < 0x1_0000_0000 % bound
    {
      if bound == 0 {
        return 0;
      }
      var threshold := (U32 - bound) % bound;
      ThresholdIsRemainder(bound);
      assert HighFrom(pos);
      ghost var m: nat :| pos <= m && stream(m) >= HALF;
      while true
        invariant old(pos) <= pos <= m
        invariant forall k: nat :: old(pos) <= k < pos ==> !Accepted(stream(k), bound)
        decreases m - pos
      {
        var v := NextU32();
        if v >= threshold {
          return v % bound;
        }
      }
    }
  }
}
