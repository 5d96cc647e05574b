/** `dataset_shuffle` of src/ml/dataset.c: the Fisher-Yates shuffle of the rows of a dataset. */
module Shuffle {
  import opened Rng
  import opened Matrix

  datatype Outcome = Shuffled | BadArgument | NoMemory

  function Swap<T>(s: seq<T>, i: nat, j: nat): (r: seq<T>)
    requires i < |s| && j < |s|
  {
    s[i := s[j]][j := s[i]]
  }

  /** The draws of one shuffle of n rows in the order they are made: the t-th is made when i == n - 1 - t. */
  predicate InRange(draws: seq<nat>, n: nat) {
    |draws| < n && forall t :: 0 <= t < |draws| ==> draws[t] <= n - 1 - t
  }

  /** The rows after the swaps of the given draws. */
  function After<T>(s: seq<T>, draws: seq<nat>): (r: seq<T>)
    requires InRange(draws, |s|)
    ensures |r| == |s|
  {
    if draws == [] then s
    else
      var last := |draws| - 1;
      Swap(After(s, draws[..last]), |s| - |draws|, draws[last])
  }

  // ----- one permutation -----------------------------------------------------------------------

  predicate Hits(p: seq<nat>, v: nat) {
    exists k :: 0 <= k < |p| && p[k] == v
  }

  /** Each of 0..|p| occurs, and nothing occurs twice. */
  predicate IsOrdering(p: seq<nat>) {
    && (forall k :: 0 <= k < |p| ==> p[k] < |p|)
    && (forall k, l :: 0 <= k < l < |p| ==> p[k] != p[l])
    && (forall v :: 0 <= v < |p| ==> Hits(p, v))
  }

  lemma {:induction false} IdentityIsOrdering(p: seq<nat>)
    requires forall k :: 0 <= k < |p| ==> p[k] == k
    ensures IsOrdering(p)
  {
    forall v | 0 <= v < |p|
      ensures Hits(p, v)
    {
      assert p[v] == v;
    }
  }

  function Identity(n: nat): (p: seq<nat>)
    ensures |p| == n && IsOrdering(p) && forall k :: 0 <= k < n ==> p[k] == k
  {
    var p: seq<nat> := seq(n, (k: nat) => k);
    IdentityIsOrdering(p);
    p
  }

  predicate Indexes(order: seq<nat>, n: nat) {
    forall k :: 0 <= k < |order| ==> order[k] < n
  }

  /** The elements of s in the given order. */
  function Pick<T>(s: seq<T>, order: seq<nat>): seq<T>
    requires Indexes(order, |s|)
  {
    seq(|order|, k requires 0 <= k < |order| => s[order[k]])
  }

  /** The order that a full list of draws puts n rows in. */
  function OrderOf(draws: seq<nat>, n: nat): seq<nat>
    requires InRange(draws, n)
  {
    After(Identity(n), draws)
  }

  lemma {:induction false} SwapKeepsOrdering(p: seq<nat>, i: nat, j: nat)
    requires IsOrdering(p) && i < |p| && j < |p|
    ensures IsOrdering(Swap(p, i, j))
  {
    var q := Swap(p, i, j);
    forall v | 0 <= v < |q|
      ensures Hits(q, v)
    {
      assert Hits(p, v);
      var k :| 0 <= k < |p| && p[k] == v;
      assert q[if k == i then j else if k == j then i else k] == v;
    }
  }

  lemma {:induction false} AfterIsOrdering(p: seq<nat>, draws: seq<nat>)
    requires IsOrdering(p) && InRange(draws, |p|)
    ensures IsOrdering(After(p, draws))
  {
    if draws != [] {
      var last := |draws| - 1;
      AfterIsOrdering(p, draws[..last]);
      SwapKeepsOrdering(After(p, draws[..last]), |p| - |draws|, draws[last]);
    }
  }

  lemma {:induction false} AfterPicks<T>(s: seq<T>, order: seq<nat>, draws: seq<nat>)
    requires Indexes(order, |s|) && InRange(draws, |order|)
    ensures Indexes(After(order, draws), |s|)
    ensures After(Pick(s, order), draws) == Pick(s, After(order, draws))
  {
    if draws != [] {
      AfterPicks(s, order, draws[..|draws| - 1]);
    }
  }

  /** Whatever is shuffled, the draws alone decide the order, and it is a permutation. */
  lemma {:induction false} OnePermutation<T>(s: seq<T>, draws: seq<nat>)
    requires InRange(draws, |s|)
    ensures IsOrdering(OrderOf(draws, |s|))
    ensures After(s, draws) == Pick(s, OrderOf(draws, |s|))
  {
    AfterIsOrdering(Identity(|s|), draws);
    AfterPicks(s, Identity(|s|), draws);
    assert Pick(s, Identity(|s|)) == s;
  }

  // ----- every ordering from exactly one list of draws -----------------------------------------

  /** The t-th draw settles position n - 1 - t for good. */
  lemma {:induction false} Settles<T>(s: seq<T>, draws: seq<nat>, t: nat)
    requires InRange(draws, |s|) && t < |draws|
    ensures After(s, draws)[|s| - 1 - t] == After(s, draws[..t])[draws[t]]
  {
    var last := |draws| - 1;
    if t < last {
      Settles(s, draws[..last], t);
      assert draws[..last][..t] == draws[..t];
    }
  }

  lemma {:induction false} SameDraw(p: seq<nat>, d: seq<nat>, e: seq<nat>, t: nat)
    requires IsOrdering(p) && InRange(d, |p|) && InRange(e, |p|) && t < |d| && t < |e|
    requires d[..t] == e[..t] && After(p, d) == After(p, e)
    ensures d[t] == e[t]
  {
    Settles(p, d, t);
    Settles(p, e, t);
    AfterIsOrdering(p, d[..t]);
  }

  lemma {:induction false} SameStart(p: seq<nat>, d: seq<nat>, e: seq<nat>, t: nat)
    requires IsOrdering(p) && InRange(d, |p|) && InRange(e, |p|) && |d| == |e| && t <= |d|
    requires After(p, d) == After(p, e)
    ensures d[..t] == e[..t]
  {
    if t > 0 {
      SameStart(p, d, e, t - 1);
      SameDraw(p, d, e, t - 1);
      assert d[..t] == d[..t - 1] + [d[t - 1]];
      assert e[..t] == e[..t - 1] + [e[t - 1]];
    }
  }

  /** Distinct draws give distinct orders. */
  lemma {:induction false} DrawsAreDetermined(n: nat, d: seq<nat>, e: seq<nat>)
    requires InRange(d, n) && InRange(e, n) && |d| == |e|
    ensures OrderOf(d, n) == OrderOf(e, n) <==> d == e
  {
    if OrderOf(d, n) == OrderOf(e, n) {
      SameStart(Identity(n), d, e, |d|);
      assert d[..|d|] == d && e[..|e|] == e;
    }
  }

  /** Two orderings that agree from position m on hold the same values below it. */
  lemma {:induction false} FindBelow(p: seq<nat>, q: seq<nat>, m: nat) returns (j: nat)
    requires IsOrdering(p) && IsOrdering(q) && |p| == |q| && m < |p|
    requires forall k :: m < k < |p| ==> p[k] == q[k]
    ensures j <= m && q[j] == p[m]
  {
    assert Hits(q, p[m]);
    j :| 0 <= j < |q| && q[j] == p[m];
  }

  /** The first t draws that lead from p0 towards p. */
  lemma {:induction false} DrawsTowards(p0: seq<nat>, p: seq<nat>, t: nat) returns (draws: seq<nat>)
    requires IsOrdering(p0) && IsOrdering(p) && |p0| == |p| && t < |p|
    ensures InRange(draws, |p|) && |draws| == t
    ensures forall k :: |p| - t <= k < |p| ==> After(p0, draws)[k] == p[k]
  {
    if t == 0 {
      draws := [];
    } else {
      var before := DrawsTowards(p0, p, t - 1);
      AfterIsOrdering(p0, before);
      var m := |p| - t;
      var j := FindBelow(p, After(p0, before), m);
      draws := before + [j];
      assert draws[..t - 1] == before;
    }
  }

  lemma {:induction false} SomeDrawsGive(p: seq<nat>) returns (draws: seq<nat>)
    requires IsOrdering(p) && |p| > 0
    ensures InRange(draws, |p|) && |draws| == |p| - 1 && OrderOf(draws, |p|) == p
  {
    draws := DrawsTowards(Identity(|p|), p, |p| - 1);
    AfterIsOrdering(Identity(|p|), draws);
    var j := FindBelow(p, OrderOf(draws, |p|), 0);
  }

  // ----- which draws the code can make ---------------------------------------------------------

  /** `(uint32_t)(i + 1)`. */
  function Bound(i: nat): nat {
    (i + 1) % U32
  }

  /** A result that `rng_range_u32` can give for the bound; zero for the bound zero. */
  predicate Drawable(j: nat, bound: nat) {
    if bound == 0 then j == 0 else j < bound
  }

  /** The draws that the loop can make, in order, while shuffling n rows. */
  predicate Possible(draws: seq<nat>, n: nat) {
    |draws| < n && forall t :: 0 <= t < |draws| ==> Drawable(draws[t], Bound(n - 1 - t))
  }

  lemma {:induction false} BoundFits(i: nat)
    ensures Bound(i) <= i + 1
    ensures Bound(i) == i + 1 <==> i + 1 < U32
  {
    var q := (i + 1) / U32;
    assert i + 1 == q * U32 + Bound(i);
  }

  /** So `InRange` takes nothing away from the draws the code can make. */
  lemma {:induction false} PossibleIsInRange(draws: seq<nat>, n: nat)
    requires Possible(draws, n)
    ensures InRange(draws, n)
  {
    forall t | 0 <= t < |draws|
      ensures draws[t] <= n - 1 - t
    {
      BoundFits(n - 1 - t);
    }
  }

  lemma {:induction false} InRangeIsPossible(draws: seq<nat>, n: nat)
    requires InRange(draws, n) && n < U32
    ensures Possible(draws, n)
  {
    forall t | 0 <= t < |draws|
      ensures Drawable(draws[t], Bound(n - 1 - t))
    {
      BoundFits(n - 1 - t);
    }
  }

  /** Some shuffle puts the rows in the order p. */
  ghost predicate Reachable(p: seq<nat>) {
    exists draws :: Possible(draws, |p|) && |draws| == |p| - 1 && InRange(draws, |p|) && OrderOf(draws, |p|) == p
  }

  /** Leaving every row in place takes the draw j == i every time. */
  lemma {:induction false} StayDraws(n: nat, t: nat) returns (draws: seq<nat>)
    requires t < n
    ensures InRange(draws, n) && |draws| == t && forall u :: 0 <= u < t ==> draws[u] == n - 1 - u
    ensures OrderOf(draws, n) == Identity(n)
  {
    if t == 0 {
      draws := [];
    } else {
      var before := StayDraws(n, t - 1);
      draws := before + [n - t];
      assert draws[..t - 1] == before;
    }
  }

  lemma {:induction false} FirstDrawFallsShort(draws: seq<nat>, n: nat)
    requires n >= U32 && Possible(draws, n) && draws != []
    ensures draws[0] < n - 1
  {
    BoundFits(n - 1);
    assert Drawable(draws[0], Bound(n - 1 - 0));
  }

  /** With 2^32 rows or more the first draws fall short, and the rows cannot all stay in place. */
  lemma {:induction false} StayingIsUnreachable(n: nat)
    requires n >= U32
    ensures !Reachable(Identity(n))
  {
    if Reachable(Identity(n)) {
      var draws :| Possible(draws, n) && |draws| == n - 1 && InRange(draws, n) && OrderOf(draws, n) == Identity(n);
      var stay := StayDraws(n, n - 1);
      FirstDrawFallsShort(draws, n);
      DrawsAreDetermined(n, draws, stay);
      assert false;
    }
  }

  /** Every ordering of n rows can come out exactly when n fits in 32 bits; by `DrawsAreDetermined`
      each then comes from one list of draws, and by `Rng.AcceptedDrawsAreUniform` draws are unbiased. */
  lemma {:induction false} EveryOrderingIffRowsFit(n: nat)
    requires n > 0
    ensures (forall p :: IsOrdering(p) && |p| == n ==> Reachable(p)) <==> n < 0x1_0000_0000
  {
    if n < U32 {
      forall p | IsOrdering(p) && |p| == n
        ensures Reachable(p)
      {
        var draws := SomeDrawsGive(p);
        InRangeIsPossible(draws, n);
      }
    } else {
      StayingIsUnreachable(n);
    }
  }

  // ----- every ordering equally often ----------------------------------------------------------

  /** The draws that a list of accepted 32-bit words reduces to. */
  function Reduced(words: seq<int>, n: nat): (draws: seq<nat>)
    requires |words| < n && n < U32
    ensures |draws| == |words| && InRange(draws, n)
  {
    seq(|words|, t requires 0 <= t < |words| => words[t] % (n - t))
  }

  /** A 32-bit word that the sampler accepts, for the t-th draw of n rows. */
  predicate AcceptedWord(word: int, n: nat, t: nat)
    requires t < n && n < U32
  {
    0 <= word < U32 && Accepted(word, n - t)
  }

  /** Accepted words that put n rows in the order p. */
  ghost predicate Shuffles(words: seq<int>, p: seq<nat>)
    requires 0 < |p| < U32
  {
    && |words| == |p| - 1
    && (forall t :: 0 <= t < |words| ==> AcceptedWord(words[t], |p|, t))
    && OrderOf(Reduced(words, |p|), |p|) == p
  }

  ghost function Extended<T>(heads: set<seq<T>>, lasts: set<T>): set<seq<T>> {
    set head, last | head in heads && last in lasts :: head + [last]
  }

  /** The lists of accepted words that reduce to the given draws. */
  ghost function WordsFor(draws: seq<nat>, n: nat): set<seq<int>>
    requires InRange(draws, n) && n < U32
  {
    if draws == [] then {[]}
    else
      var t := |draws| - 1;
      Extended(WordsFor(draws[..t], n), AcceptedWith(n - t, draws[t]))
  }

  /** The product of 2^32 / (i + 1) over the i of the first k turns, from i == n - 1 down. */
  function Ways(n: nat, k: nat): nat
    requires k < n
  {
    if k == 0 then 1
    else
      var accepted: nat := U32 / (n - (k - 1));
      Ways(n, k - 1) * accepted
  }

  ghost function Behind<T>(head: seq<T>, lasts: set<T>): set<seq<T>> {
    set last | last in lasts :: head + [last]
  }

  lemma {:induction false} BehindCount<T>(head: seq<T>, lasts: set<T>)
    ensures |Behind(head, lasts)| == |lasts|
  {
    if lasts == {} {
      assert Behind(head, lasts) == {};
    } else {
      var last :| last in lasts;
      var rest := lasts - {last};
      BehindCount(head, rest);
      forall x | x in rest
        ensures head + [x] != head + [last]
      {
        assert (head + [x])[|head|] == x && (head + [last])[|head|] == last;
      }
      assert Behind(head, lasts) == Behind(head, rest) + {head + [last]};
    }
  }

  lemma {:induction false} OneMoreTimes(a: nat, b: nat)
    ensures (a + 1) * b == a * b + b
  {
  }

  lemma {:induction false} ExtendedSplit<T>(heads: set<seq<T>>, head: seq<T>, lasts: set<T>)
    requires head in heads
    ensures |Extended(heads, lasts)| == |Extended(heads - {head}, lasts)| + |lasts|
  {
    var rest, own := Extended(heads - {head}, lasts), Behind(head, lasts);
    BehindCount(head, lasts);
    forall words | words in Extended(heads, lasts)
      ensures words in rest || words in own
    {
      var h, x :| h in heads && x in lasts && words == h + [x];
      assert h == head || h in heads - {head};
    }
    assert Extended(heads, lasts) == rest + own;
    forall words | words in rest
      ensures words !in own
    {
      var h, x :| h in heads - {head} && x in lasts && words == h + [x];
      assert words[..|words| - 1] == h;
      assert forall y :: (head + [y])[..|head + [y]| - 1] == head;
    }
  }

  lemma {:induction false} ExtendedCount<T>(heads: set<seq<T>>, lasts: set<T>)
    ensures |Extended(heads, lasts)| == |heads| * |lasts|
  {
    if head :| head in heads {
      ExtendedCount(heads - {head}, lasts);
      ExtendedSplit(heads, head, lasts);
      OneMoreTimes(|heads - {head}|, |lasts|);
    } else {
      assert Extended(heads, lasts) == {};
    }
  }

  lemma {:induction false} WordsCount(draws: seq<nat>, n: nat)
    requires InRange(draws, n) && n < U32
    ensures |WordsFor(draws, n)| == Ways(n, |draws|)
  {
    if draws != [] {
      var t := |draws| - 1;
      WordsCount(draws[..t], n);
      AcceptedDrawsAreUniform(n - t, draws[t]);
      ExtendedCount(WordsFor(draws[..t], n), AcceptedWith(n - t, draws[t]));
    }
  }

  lemma {:induction false} WordsMembers(draws: seq<nat>, n: nat, words: seq<int>)
    requires InRange(draws, n) && n < U32
    ensures words in WordsFor(draws, n) <==>
            && |words| == |draws|
            && forall t :: 0 <= t < |words| ==> AcceptedWord(words[t], n, t) && words[t] % (n - t) == draws[t]
  {
    if draws != [] {
      var t := |draws| - 1;
      if words != [] {
        WordsMembers(draws[..t], n, words[..|words| - 1]);
        assert words == words[..|words| - 1] + [words[|words| - 1]];
      }
    }
  }

  /** The shuffle is uniform: while the row count fits in 32 bits, every ordering of the rows comes
      from the same number of lists of accepted 32-bit words. */
  lemma {:induction false} ShuffleIsUniform(p: seq<nat>) returns (ways: set<seq<int>>)
    requires IsOrdering(p) && 0 < |p| < U32
    ensures forall words :: words in ways <==> Shuffles(words, p)
    ensures |ways| == Ways(|p|, |p| - 1)
  {
    var n := |p|;
    var draws := SomeDrawsGive(p);
    ways := WordsFor(draws, n);
    WordsCount(draws, n);
    forall words
      ensures words in ways <==> Shuffles(words, p)
    {
      WordsMembers(draws, n, words);
      if |words| == |p| - 1 {
        DrawsAreDetermined(n, Reduced(words, n), draws);
      }
    }
  }

  // ----- the generator decides the draws -------------------------------------------------------

  /** The bounded draw j takes the stream from position `from` to position `to`. */
  ghost predicate Takes(stream: nat -> Draw, from: nat, to: nat, bound: nat, j: nat)
    requires bound < U32
  {
    if bound == 0 then j == 0 && to == from
    else
      && from < to && Accepted(stream(to - 1), bound) && j == stream(to - 1) % bound
      && forall k: nat :: from <= k < to - 1 ==> !Accepted(stream(k), bound)
  }

  ghost predicate TakesAll(stream: nat -> Draw, from: nat, to: nat, draws: seq<nat>, n: nat)
    requires |draws| <= n
    decreases |draws|
  {
    if draws == [] then from == to
    else
      var last := |draws| - 1;
      exists mid: nat :: TakesAll(stream, from, mid, draws[..last], n) &&
        Takes(stream, mid, to, Bound(n - 1 - last), draws[last])
  }

  lemma {:induction false} TakesOnce(stream: nat -> Draw, from: nat, to1: nat, to2: nat, bound: nat, j1: nat, j2: nat)
    requires bound < U32 && Takes(stream, from, to1, bound, j1) && Takes(stream, from, to2, bound, j2)
    ensures to1 == to2 && j1 == j2
  {
    if bound > 0 {
      var v1, v2 := stream(to1 - 1), stream(to2 - 1);
      assert Accepted(v1, bound) && Accepted(v2, bound);
    }
  }

  /** Equal generators make equal draws: "same seed, same permutation". */
  lemma {:induction false} SameSeedSameDraws(
    stream: nat -> Draw, from: nat, to1: nat, to2: nat, d: seq<nat>, e: seq<nat>, n: nat)
    requires |d| == |e| <= n && TakesAll(stream, from, to1, d, n) && TakesAll(stream, from, to2, e, n)
    ensures d == e && to1 == to2
  {
    if d != [] {
      var last := |d| - 1;
      var mid1: nat :| TakesAll(stream, from, mid1, d[..last], n) &&
        Takes(stream, mid1, to1, Bound(n - 1 - last), d[last]);
      var mid2: nat :| TakesAll(stream, from, mid2, e[..last], n) &&
        Takes(stream, mid2, to2, Bound(n - 1 - last), e[last]);
      SameSeedSameDraws(stream, from, mid1, mid2, d[..last], e[..last], n);
      TakesOnce(stream, mid1, to1, to2, Bound(n - 1 - last), d[last], e[last]);
      assert d == d[..last] + [d[last]] && e == e[..last] + [e[last]];
    }
  }

  /** The draws made so far, and what they took from the stream. */
  ghost predicate Made(stream: nat -> Draw, from: nat, to: nat, draws: seq<nat>, n: nat) {
    Possible(draws, n) && TakesAll(stream, from, to, draws, n)
  }

  lemma {:induction false} OneMore(stream: nat -> Draw, from: nat, mid: nat, to: nat, draws: seq<nat>, j: nat, n: nat)
    requires |draws| < n - 1 && Made(stream, from, mid, draws, n)
    requires Takes(stream, mid, to, Bound(n - 1 - |draws|), j)
    ensures Made(stream, from, to, draws + [j], n)
  {
    assert (draws + [j])[..|draws|] == draws;
  }

  // ----- the shuffle in place ------------------------------------------------------------------

  /** Rows i and j change places through the buffer. */
  method SwapRows<T>(a: array2<T>, i: nat, j: nat, tmp: array<T>)
    requires i < a.Length0 && j < a.Length0 && a.Length1 <= tmp.Length
    modifies a, tmp
    ensures Rows(a) == Swap(old(Rows(a)), i, j)
  {
    ghost var before := Rows(a);
    var cols := a.Length1;
    forall c | 0 <= c < cols { tmp[c] := a[i, c]; }
    forall c | 0 <= c < cols { a[i, c] := a[j, c]; }
    forall c | 0 <= c < cols { a[j, c] := tmp[c]; }
    SameCells(Rows(a), Swap(before, i, j), a.Length0, cols);
  }

  /** The swaps of the draws lead from s0 to s. */
  ghost predicate Leads<T>(s0: seq<T>, s: seq<T>, draws: seq<nat>) {
    InRange(draws, |s0|) && s == After(s0, draws)
  }

  lemma {:induction false} LeadsOn<T>(s0: seq<T>, s: seq<T>, draws: seq<nat>, i: nat, j: nat)
    requires Leads(s0, s, draws) && i == |s| - 1 - |draws| && j <= i && i > 0
    ensures Leads(s0, Swap(s, i, j), draws + [j])
  {
    var longer := draws + [j];
    assert longer[|draws|] == j && longer[..|draws|] == draws;
  }

  /** Swapping twice undoes it, which is what happens when the labels are the features themselves. */
  lemma {:induction false} SwapTwice<T>(s: seq<T>, i: nat, j: nat)
    requires i < |s| && j < |s|
    ensures Swap(Swap(s, i, j), i, j) == s
  {
  }

  /** One turn of the loop. */
  method Turn<T>(x: array2<T>, y: array2?<T>, rng: Generator, tmp: array<T>, i: nat) returns (j: nat)
    requires i < x.Length0 && x.Length1 <= tmp.Length
    requires y != null ==> y.Length0 == x.Length0 && y.Length1 <= tmp.Length
    requires rng.Lively()
    modifies x, y, rng, tmp
    ensures Takes(rng.stream, old(rng.pos), rng.pos, Bound(i), j) && j <= i
    ensures Rows(x) == if y == x then old(Rows(x)) else Swap(old(Rows(x)), i, j)
    ensures y != null && y != x ==> Rows(y) == Swap(old(Rows(y)), i, j)
  {
    BoundFits(i);
    j := rng.RangeU32((i + 1) % U32);
    if j == i {
      return;
    }
    SwapTwice(Rows(x), i, j);
    SwapRows(x, i, j, tmp);
    if y != null {
      SwapRows(y, i, j, tmp);
    }
  }

  /** The descending loop. */
  method SwapDown<T>(x: array2<T>, y: array2?<T>, rng: Generator, tmp: array<T>) returns (ghost draws: seq<nat>)
    requires x.Length0 > 0 && x.Length1 <= tmp.Length
    requires y != null ==> y.Length0 == x.Length0 && y.Length1 <= tmp.Length
    requires rng.Lively()
    modifies x, y, rng, tmp
    ensures |draws| == x.Length0 - 1 && Made(rng.stream, old(rng.pos), rng.pos, draws, x.Length0)
    ensures if y == x then Rows(x) == old(Rows(x)) else Leads(old(Rows(x)), Rows(x), draws)
    ensures y != null && y != x ==> Leads(old(Rows(y)), Rows(y), draws)
  {
    ghost var x0 := Rows(x);
    ghost var y0 := if y == null then [] else Rows(y);
    draws := [];
    var n := x.Length0;
    var i := n - 1;
    while i > 0
      invariant 0 <= i < n && |draws| == n - 1 - i
      invariant Made(rng.stream, old(rng.pos), rng.pos, draws, n)
      invariant if y == x then Rows(x) == x0 else Leads(x0, Rows(x), draws)
      invariant y != null && y != x ==> Leads(y0, Rows(y), draws)
    {
      ghost var from, x1 := rng.pos, Rows(x);
      ghost var y1 := if y == null then [] else Rows(y);
      var j := Turn(x, y, rng, tmp, i);
      OneMore(rng.stream, old(rng.pos), from, rng.pos, draws, j, n);
      if y != x {
        LeadsOn(x0, x1, draws, i, j);
        if y != null {
          LeadsOn(y0, y1, draws, i, j);
        }
      }
      draws := draws + [j];
      i := i - 1;
    }
  }

  /** `dataset_shuffle`: features and labels go through the same swaps, whose draws are the next
      ones of the generator.  A matrix passed as both is swapped twice and stays as it was. */
  method ShuffleRows<T(0)>(x: array2<T>, y: array2?<T>, rng: Generator, allocates: bool)
    returns (err: Outcome, ghost draws: seq<nat>)
    requires x.Length0 > 0 && rng.Lively()
    modifies x, y, rng
    ensures err == BadArgument <==> y != null && y.Length0 != x.Length0
    ensures err == NoMemory <==> !(y != null && y.Length0 != x.Length0) && !allocates
    ensures err != Shuffled ==>
      Rows(x) == old(Rows(x)) && (y != null ==> Rows(y) == old(Rows(y))) && rng.pos == old(rng.pos)
    ensures err == Shuffled ==>
      && |draws| == x.Length0 - 1 && Made(rng.stream, old(rng.pos), rng.pos, draws, x.Length0)
      && (if y == x then Rows(x) == old(Rows(x)) else Leads(old(Rows(x)), Rows(x), draws))
      && (y != null && y != x ==> Leads(old(Rows(y)), Rows(y), draws))
  {
    draws := [];
    if y != null && y.Length0 != x.Length0 {
      return BadArgument, draws;
    }
    var maxCols := x.Length1;
    if y != null && y.Length1 > maxCols {
      maxCols := y.Length1;
    }
    if !allocates {
      return NoMemory, draws;
    }
    var tmp := new T[maxCols];
    draws := SwapDown(x, y, rng, tmp);
    return Shuffled, draws;
  }
}
