/** The dense layer of src/ml/nn.c over the reals, with an arbitrary activation and derivative:
    `dense_backward` computes the adjoint of the linearised forward pass. */
module Dense {
  import opened Matrix

  // ----- finite sums ---------------------------------------------------------------------------

  function Sum(n: nat, f: nat -> real): real {
    if n == 0 then 0.0 else Sum(n - 1, f) + f(n - 1)
  }

  lemma {:induction false} SumEqual(n: nat, f: nat -> real, g: nat -> real)
    requires forall i: nat :: i < n ==> f(i) == g(i)
    ensures Sum(n, f) == Sum(n, g)
  {
    if n > 0 {
      SumEqual(n - 1, f, g);
    }
  }

  lemma {:induction false} SumPlus(n: nat, f: nat -> real, g: nat -> real, h: nat -> real)
    requires forall i: nat :: i < n ==> h(i) == f(i) + g(i)
    ensures Sum(n, h) == Sum(n, f) + Sum(n, g)
  {
    if n > 0 {
      SumPlus(n - 1, f, g, h);
    }
  }

  lemma {:induction false} SumTimes(n: nat, c: real, f: nat -> real, h: nat -> real)
    requires forall i: nat :: i < n ==> h(i) == c * f(i)
    ensures Sum(n, h) == c * Sum(n, f)
  {
    if n > 0 {
      SumTimes(n - 1, c, f, h);
      assert c * (Sum(n - 1, f) + f(n - 1)) == c * Sum(n - 1, f) + c * f(n - 1);
    }
  }

  lemma {:induction false} SumZero(n: nat, f: nat -> real)
    requires forall i: nat :: i < n ==> f(i) == 0.0
    ensures Sum(n, f) == 0.0
  {
    if n > 0 {
      SumZero(n - 1, f);
    }
  }

  /** A table of numbers, and its rows and columns. */
  type Table = (nat, nat) -> real

  function RowOf(f: Table, i: nat): nat -> real {
    (j: nat) => f(i, j)
  }

  function ColOf(f: Table, j: nat): nat -> real {
    (i: nat) => f(i, j)
  }

  function RowSums(f: Table, n: nat): nat -> real {
    (i: nat) => Sum(n, RowOf(f, i))
  }

  function ColSumsOf(f: Table, m: nat): nat -> real {
    (j: nat) => Sum(m, ColOf(f, j))
  }

  function Total(f: Table, m: nat, n: nat): real {
    Sum(m, RowSums(f, n))
  }

  /** Summing by rows or by columns gives the same total. */
  lemma {:induction false} SumSwap(f: Table, m: nat, n: nat)
    ensures Total(f, m, n) == Sum(n, ColSumsOf(f, m))
  {
    if m == 0 {
      SumZero(n, ColSumsOf(f, 0));
    } else {
      SumSwap(f, m - 1, n);
      SumPlus(n, ColSumsOf(f, m - 1), RowOf(f, m - 1), ColSumsOf(f, m));
    }
  }

  lemma {:induction false} TotalPlus(f: Table, g: Table, h: Table, m: nat, n: nat)
    requires forall i: nat, j: nat :: i < m && j < n ==> h(i, j) == f(i, j) + g(i, j)
    ensures Total(h, m, n) == Total(f, m, n) + Total(g, m, n)
  {
    forall i: nat | i < m
      ensures RowSums(h, n)(i) == RowSums(f, n)(i) + RowSums(g, n)(i)
    {
      SumPlus(n, RowOf(f, i), RowOf(g, i), RowOf(h, i));
    }
    SumPlus(m, RowSums(f, n), RowSums(g, n), RowSums(h, n));
  }

  // ----- the exchange behind both adjoints -----------------------------------------------------

  function Times(u: nat -> real, v: nat -> real): nat -> real {
    (i: nat) => u(i) * v(i)
  }

  /** j -> sum over k of v(k) * t(k, j) */
  function Combine(v: nat -> real, t: Table, p: nat): nat -> real {
    (j: nat) => Sum(p, Times(v, ColOf(t, j)))
  }

  /** k -> sum over j of u(j) * t(k, j) */
  function Contract(u: nat -> real, t: Table, n: nat): nat -> real {
    (k: nat) => Sum(n, Times(u, RowOf(t, k)))
  }

  /** Pairing u with v combined through t is pairing v with u contracted through t. */
  lemma {:induction false} Exchange(u: nat -> real, v: nat -> real, t: Table, n: nat, p: nat)
    ensures Sum(n, Times(u, Combine(v, t, p))) == Sum(p, Times(v, Contract(u, t, n)))
  {
    var f: Table := (k: nat, j: nat) => u(j) * (v(k) * t(k, j));
    forall j: nat | j < n
      ensures Times(u, Combine(v, t, p))(j) == ColSumsOf(f, p)(j)
    {
      SumTimes(p, u(j), Times(v, ColOf(t, j)), ColOf(f, j));
    }
    SumEqual(n, Times(u, Combine(v, t, p)), ColSumsOf(f, p));
    SumSwap(f, p, n);
    forall k: nat | k < p
      ensures RowSums(f, n)(k) == Times(v, Contract(u, t, n))(k)
    {
      SumTimes(n, v(k), Times(u, RowOf(t, k)), RowOf(f, k));
    }
    SumEqual(p, RowSums(f, n), Times(v, Contract(u, t, n)));
  }

  // ----- inner products of matrices ------------------------------------------------------------

  function At(m: Mat<real>, i: nat, j: nat): real {
    if i < |m| && j < |m[i]| then m[i][j] else 0.0
  }

  function Entries(m: Mat<real>): Table {
    (i: nat, j: nat) => At(m, i, j)
  }

  function Pointwise(a: Mat<real>, b: Mat<real>): Table {
    (i: nat, j: nat) => At(a, i, j) * At(b, i, j)
  }

  function Inner(a: Mat<real>, b: Mat<real>, n: nat, m: nat): real {
    Total(Pointwise(a, b), n, m)
  }

  function RealOps(): Ops<real> {
    Ops(0.0, (x: real, y: real) => x + y, (x: real, y: real) => x * y)
  }

  function Flip(t: Table): Table {
    (i: nat, j: nat) => t(j, i)
  }

  lemma {:induction false} DotIsSum(a: Mat<real>, b: Mat<real>, i: nat, j: nat, k: nat)
    requires i < |a| && k <= |a[i]| && k <= |b| && forall r :: 0 <= r < k ==> j < |b[r]|
    ensures Dot(RealOps(), a, b, i, j, k) == Sum(k, Times(RowOf(Entries(a), i), ColOf(Entries(b), j)))
  {
    if k > 0 {
      DotIsSum(a, b, i, j, k - 1);
    }
  }

  lemma {:induction false} DotByTerms(a: Mat<real>, b: Mat<real>, i: nat, j: nat, k: nat)
    requires i < |a| && k <= |a[i]| && k <= |b| && forall r :: 0 <= r < k ==> j < |b[r]|
    ensures Dot(RealOps(), a, b, i, j, k) == Sum(k, (m: nat) => At(a, i, m) * At(b, m, j))
  {
    DotIsSum(a, b, i, j, k);
    SumEqual(k, Times(RowOf(Entries(a), i), ColOf(Entries(b), j)), (m: nat) => At(a, i, m) * At(b, m, j));
  }

  lemma {:induction false} ColumnSumIsSum(a: Mat<real>, j: nat, k: nat)
    requires k <= |a| && forall r :: 0 <= r < k ==> j < |a[r]|
    ensures ColumnSum(RealOps(), a, j, k) == Sum(k, ColOf(Entries(a), j))
  {
    if k > 0 {
      ColumnSumIsSum(a, j, k - 1);
    }
  }

  lemma {:induction false} ProductEntry(a: Mat<real>, b: Mat<real>, n: nat, p: nat, q: nat, i: nat, j: nat)
    requires Shaped(a, n, p) && Shaped(b, p, q) && i < n && j < q
    ensures At(Product(RealOps(), a, b, n, p, q), i, j) == Sum(p, Times(RowOf(Entries(a), i), ColOf(Entries(b), j)))
  {
    DotIsSum(a, b, i, j, p);
  }

  lemma {:induction false} TransposedEntries(a: Mat<real>, n: nat, m: nat, i: nat, j: nat)
    requires Shaped(a, n, m) && i < n && j < m
    ensures At(Transposed(a, n, m), j, i) == At(a, i, j)
  {
  }

  lemma {:induction false} RowTimesTransposed(c: Mat<real>, b: Mat<real>, p: nat, q: nat, i: nat, k: nat)
    requires Shaped(b, p, q) && k < p
    ensures Sum(q, Times(RowOf(Entries(c), i), ColOf(Entries(Transposed(b, p, q)), k))) ==
            Sum(q, Times(RowOf(Entries(c), i), RowOf(Entries(b), k)))
  {
    var f := Times(RowOf(Entries(c), i), ColOf(Entries(Transposed(b, p, q)), k));
    var g := Times(RowOf(Entries(c), i), RowOf(Entries(b), k));
    forall j: nat | j < q
      ensures f(j) == g(j)
    {
      TransposedEntries(b, p, q, k, j);
    }
    SumEqual(q, f, g);
  }

  lemma {:induction false} AdjointLeftRow1(c: Mat<real>, a: Mat<real>, b: Mat<real>, n: nat, p: nat, q: nat, i: nat)
    requires Shaped(c, n, q) && Shaped(a, n, p) && Shaped(b, p, q) && i < n
    ensures Sum(q, RowOf(Pointwise(c, Product(RealOps(), a, b, n, p, q)), i)) ==
            Sum(q, Times(RowOf(Entries(c), i), Combine(RowOf(Entries(a), i), Entries(b), p)))
  {
    var f := RowOf(Pointwise(c, Product(RealOps(), a, b, n, p, q)), i);
    var g := Times(RowOf(Entries(c), i), Combine(RowOf(Entries(a), i), Entries(b), p));
    forall j: nat | j < q
      ensures f(j) == g(j)
    {
      ProductEntry(a, b, n, p, q, i, j);
    }
    SumEqual(q, f, g);
  }

  lemma {:induction false} AdjointLeftRow2(c: Mat<real>, a: Mat<real>, b: Mat<real>, n: nat, p: nat, q: nat, i: nat)
    requires Shaped(c, n, q) && Shaped(a, n, p) && Shaped(b, p, q) && i < n
    ensures Sum(p, RowOf(Pointwise(Product(RealOps(), c, Transposed(b, p, q), n, q, p), a), i)) ==
            Sum(p, Times(RowOf(Entries(a), i), Contract(RowOf(Entries(c), i), Entries(b), q)))
  {
    var f := RowOf(Pointwise(Product(RealOps(), c, Transposed(b, p, q), n, q, p), a), i);
    var g := Times(RowOf(Entries(a), i), Contract(RowOf(Entries(c), i), Entries(b), q));
    forall k: nat | k < p
      ensures f(k) == g(k)
    {
      ProductEntry(c, Transposed(b, p, q), n, q, p, i, k);
      RowTimesTransposed(c, b, p, q, i, k);
    }
    SumEqual(p, f, g);
  }

  /** One row: <c_i, (a b)_i> = <(c b^T)_i, a_i>. */
  lemma {:induction false} AdjointLeftRow(c: Mat<real>, a: Mat<real>, b: Mat<real>, n: nat, p: nat, q: nat, i: nat)
    requires Shaped(c, n, q) && Shaped(a, n, p) && Shaped(b, p, q) && i < n
    ensures Sum(q, RowOf(Pointwise(c, Product(RealOps(), a, b, n, p, q)), i)) ==
            Sum(p, RowOf(Pointwise(Product(RealOps(), c, Transposed(b, p, q), n, q, p), a), i))
  {
    var u, v, t := RowOf(Entries(c), i), RowOf(Entries(a), i), Entries(b);
    AdjointLeftRow1(c, a, b, n, p, q, i);
    Exchange(u, v, t, q, p);
    AdjointLeftRow2(c, a, b, n, p, q, i);
  }

  /** <c, a b> = <c b^T, a>. */
  lemma {:induction false} AdjointLeft(c: Mat<real>, a: Mat<real>, b: Mat<real>, n: nat, p: nat, q: nat)
    requires Shaped(c, n, q) && Shaped(a, n, p) && Shaped(b, p, q)
    ensures Inner(c, Product(RealOps(), a, b, n, p, q), n, q) ==
            Inner(Product(RealOps(), c, Transposed(b, p, q), n, q, p), a, n, p)
  {
    var f := Pointwise(c, Product(RealOps(), a, b, n, p, q));
    var g := Pointwise(Product(RealOps(), c, Transposed(b, p, q), n, q, p), a);
    forall i: nat | i < n
      ensures RowSums(f, q)(i) == RowSums(g, p)(i)
    {
      AdjointLeftRow(c, a, b, n, p, q, i);
    }
    SumEqual(n, RowSums(f, q), RowSums(g, p));
  }

  lemma {:induction false} TimesCommutes(n: nat, u: nat -> real, v: nat -> real)
    ensures Sum(n, Times(u, v)) == Sum(n, Times(v, u))
  {
    SumEqual(n, Times(u, v), Times(v, u));
  }

  lemma {:induction false} TransposedTimesColumn(a: Mat<real>, u: nat -> real, n: nat, p: nat, k: nat)
    requires Shaped(a, n, p) && k < p
    ensures Sum(n, Times(RowOf(Entries(Transposed(a, n, p)), k), u)) == Sum(n, Times(u, RowOf(Flip(Entries(a)), k)))
  {
    var f, g := Times(RowOf(Entries(Transposed(a, n, p)), k), u), Times(u, RowOf(Flip(Entries(a)), k));
    forall i: nat | i < n
      ensures f(i) == g(i)
    {
      TransposedEntries(a, n, p, i, k);
    }
    SumEqual(n, f, g);
  }

  lemma {:induction false} AdjointRightColumn1(c: Mat<real>, a: Mat<real>, b: Mat<real>, n: nat, p: nat, q: nat, j: nat)
    requires Shaped(c, n, q) && Shaped(a, n, p) && Shaped(b, p, q) && j < q
    ensures Sum(n, ColOf(Pointwise(c, Product(RealOps(), a, b, n, p, q)), j)) ==
            Sum(n, Times(ColOf(Entries(c), j), Combine(ColOf(Entries(b), j), Flip(Entries(a)), p)))
  {
    var v, t := ColOf(Entries(b), j), Flip(Entries(a));
    var f := ColOf(Pointwise(c, Product(RealOps(), a, b, n, p, q)), j);
    var g := Times(ColOf(Entries(c), j), Combine(v, t, p));
    forall i: nat | i < n
      ensures f(i) == g(i)
    {
      ProductEntry(a, b, n, p, q, i, j);
      TimesCommutes(p, RowOf(Entries(a), i), v);
      SumEqual(p, Times(v, RowOf(Entries(a), i)), Times(v, ColOf(t, i)));
    }
    SumEqual(n, f, g);
  }

  lemma {:induction false} AdjointRightColumn2(c: Mat<real>, a: Mat<real>, b: Mat<real>, n: nat, p: nat, q: nat, j: nat)
    requires Shaped(c, n, q) && Shaped(a, n, p) && Shaped(b, p, q) && j < q
    ensures Sum(p, ColOf(Pointwise(Product(RealOps(), Transposed(a, n, p), c, p, n, q), b), j)) ==
            Sum(p, Times(ColOf(Entries(b), j), Contract(ColOf(Entries(c), j), Flip(Entries(a)), n)))
  {
    var f := ColOf(Pointwise(Product(RealOps(), Transposed(a, n, p), c, p, n, q), b), j);
    var g := Times(ColOf(Entries(b), j), Contract(ColOf(Entries(c), j), Flip(Entries(a)), n));
    forall k: nat | k < p
      ensures f(k) == g(k)
    {
      ProductEntry(Transposed(a, n, p), c, p, n, q, k, j);
      TransposedTimesColumn(a, ColOf(Entries(c), j), n, p, k);
    }
    SumEqual(p, f, g);
  }

  /** One column: <c^j, (a b)^j> = <(a^T c)^j, b^j>. */
  lemma {:induction false} AdjointRightColumn(c: Mat<real>, a: Mat<real>, b: Mat<real>, n: nat, p: nat, q: nat, j: nat)
    requires Shaped(c, n, q) && Shaped(a, n, p) && Shaped(b, p, q) && j < q
    ensures Sum(n, ColOf(Pointwise(c, Product(RealOps(), a, b, n, p, q)), j)) ==
            Sum(p, ColOf(Pointwise(Product(RealOps(), Transposed(a, n, p), c, p, n, q), b), j))
  {
    AdjointRightColumn1(c, a, b, n, p, q, j);
    Exchange(ColOf(Entries(c), j), ColOf(Entries(b), j), Flip(Entries(a)), n, p);
    AdjointRightColumn2(c, a, b, n, p, q, j);
  }

  /** <c, a b> = <a^T c, b>. */
  lemma {:induction false} AdjointRight(c: Mat<real>, a: Mat<real>, b: Mat<real>, n: nat, p: nat, q: nat)
    requires Shaped(c, n, q) && Shaped(a, n, p) && Shaped(b, p, q)
    ensures Inner(c, Product(RealOps(), a, b, n, p, q), n, q) ==
            Inner(Product(RealOps(), Transposed(a, n, p), c, p, n, q), b, p, q)
  {
    var f := Pointwise(c, Product(RealOps(), a, b, n, p, q));
    var g := Pointwise(Product(RealOps(), Transposed(a, n, p), c, p, n, q), b);
    SumSwap(f, n, q);
    SumSwap(g, p, q);
    forall j: nat | j < q
      ensures ColSumsOf(f, n)(j) == ColSumsOf(g, p)(j)
    {
      AdjointRightColumn(c, a, b, n, p, q, j);
    }
    SumEqual(q, ColSumsOf(f, n), ColSumsOf(g, p));
  }

  /** The same row in every row. */
  function Broadcast(row: Mat<real>, n: nat, q: nat): (m: Mat<real>)
    requires Shaped(row, 1, q)
    ensures Shaped(m, n, q)
  {
    seq(n, i => row[0])
  }

  lemma {:induction false} BroadcastColumn(c: Mat<real>, d: Mat<real>, n: nat, q: nat, j: nat)
    requires Shaped(c, n, q) && Shaped(d, 1, q) && j < q
    ensures Sum(n, ColOf(Pointwise(c, Broadcast(d, n, q)), j)) == d[0][j] * Sum(n, ColOf(Entries(c), j))
  {
    var f := Pointwise(c, Broadcast(d, n, q));
    forall i: nat | i < n
      ensures ColOf(f, j)(i) == d[0][j] * ColOf(Entries(c), j)(i)
    {
    }
    SumTimes(n, d[0][j], ColOf(Entries(c), j), ColOf(f, j));
  }

  lemma {:induction false} SumOne(f: nat -> real)
    ensures Sum(1, f) == f(0)
  {
    assert Sum(0, f) == 0.0;
  }

  lemma {:induction false} AdjointBiasColumn(c: Mat<real>, d: Mat<real>, n: nat, q: nat, j: nat)
    requires Shaped(c, n, q) && Shaped(d, 1, q) && j < q
    ensures Sum(n, ColOf(Pointwise(c, Broadcast(d, n, q)), j)) ==
            Sum(1, ColOf(Pointwise(ColumnSums(RealOps(), c, n, q), d), j))
  {
    BroadcastColumn(c, d, n, q, j);
    ColumnSumIsSum(c, j, n);
    SumOne(ColOf(Pointwise(ColumnSums(RealOps(), c, n, q), d), j));
  }

  /** <c, 1 d> = <column sums of c, d>. */
  lemma {:induction false} AdjointBias(c: Mat<real>, d: Mat<real>, n: nat, q: nat)
    requires Shaped(c, n, q) && Shaped(d, 1, q)
    ensures Inner(c, Broadcast(d, n, q), n, q) == Inner(ColumnSums(RealOps(), c, n, q), d, 1, q)
  {
    var f, g := Pointwise(c, Broadcast(d, n, q)), Pointwise(ColumnSums(RealOps(), c, n, q), d);
    SumSwap(f, n, q);
    SumSwap(g, 1, q);
    forall j: nat | j < q
      ensures ColSumsOf(f, n)(j) == ColSumsOf(g, 1)(j)
    {
      AdjointBiasColumn(c, d, n, q, j);
    }
    SumEqual(q, ColSumsOf(f, n), ColSumsOf(g, 1));
  }

  // ----- the layer as functions ----------------------------------------------------------------

  /** z = x W + b. */
  function Preactivation(x: Mat<real>, w: Mat<real>, b: Mat<real>, n: nat, p: nat, q: nat): (z: Mat<real>)
    requires Shaped(x, n, p) && Shaped(w, p, q) && Shaped(b, 1, q)
    ensures Shaped(z, n, q)
  {
    RowAdded(RealOps(), Product(RealOps(), x, w, n, p, q), b, n, q)
  }

  function Plus(a: Mat<real>, b: Mat<real>, n: nat, m: nat): (r: Mat<real>)
    requires Shaped(a, n, m) && Shaped(b, n, m)
    ensures Shaped(r, n, m)
  {
    Zipped(RealOps().add, a, b, n, m)
  }

  /** The first-order change of z when x, W and b change by dx, dW and db. */
  function Linearised(x: Mat<real>, w: Mat<real>, ex: Mat<real>, ew: Mat<real>, eb: Mat<real>, n: nat, p: nat, q: nat)
    : (l: Mat<real>)
    requires Shaped(x, n, p) && Shaped(w, p, q) && Shaped(ex, n, p) && Shaped(ew, p, q) && Shaped(eb, 1, q)
    ensures Shaped(l, n, q)
  {
    Plus(Plus(Product(RealOps(), ex, w, n, p, q), Product(RealOps(), x, ew, n, p, q), n, q), Broadcast(eb, n, q), n, q)
  }

  /** dz = act'(z) * dout, elementwise. */
  function Upstream(grad: real -> real, z: Mat<real>, dout: Mat<real>, n: nat, q: nat): (dz: Mat<real>)
    requires Shaped(z, n, q) && Shaped(dout, n, q)
    ensures Shaped(dz, n, q)
  {
    Zipped(RealOps().mul, Mapped(grad, z, n, q), dout, n, q)
  }

  /** The layer cell by cell: z = x W + b, its linearised change, and dout times act'(z). */
  lemma {:induction false} LayerEntries(
    grad: real -> real, x: Mat<real>, w: Mat<real>, b: Mat<real>, z: Mat<real>, dout: Mat<real>,
    ex: Mat<real>, ew: Mat<real>, eb: Mat<real>, n: nat, p: nat, q: nat, i: nat, j: nat)
    requires Shaped(x, n, p) && Shaped(w, p, q) && Shaped(b, 1, q) && Shaped(z, n, q) && Shaped(dout, n, q)
    requires Shaped(ex, n, p) && Shaped(ew, p, q) && Shaped(eb, 1, q) && i < n && j < q
    ensures Preactivation(x, w, b, n, p, q)[i][j] == Sum(p, (k: nat) => At(x, i, k) * At(w, k, j)) + b[0][j]
    ensures Linearised(x, w, ex, ew, eb, n, p, q)[i][j] ==
            Sum(p, (k: nat) => At(ex, i, k) * At(w, k, j)) + Sum(p, (k: nat) => At(x, i, k) * At(ew, k, j)) + eb[0][j]
    ensures Upstream(grad, z, dout, n, q)[i][j] == grad(z[i][j]) * dout[i][j]
  {
    DotByTerms(x, w, i, j, p);
    DotByTerms(ex, w, i, j, p);
    DotByTerms(x, ew, i, j, p);
  }

  lemma {:induction false} InnerPlus(c: Mat<real>, a: Mat<real>, b: Mat<real>, n: nat, m: nat)
    requires Shaped(c, n, m) && Shaped(a, n, m) && Shaped(b, n, m)
    ensures Inner(c, Plus(a, b, n, m), n, m) == Inner(c, a, n, m) + Inner(c, b, n, m)
  {
    TotalPlus(Pointwise(c, a), Pointwise(c, b), Pointwise(c, Plus(a, b, n, m)), n, m);
  }

  /** The gradients that `dense_backward` computes pair with any perturbation of input, weights and
      bias exactly as the upstream gradient pairs with the linearised change of the layer. */
  lemma {:induction false} BackwardIsAdjoint(
    grad: real -> real, x: Mat<real>, w: Mat<real>, z: Mat<real>, dout: Mat<real>,
    ex: Mat<real>, ew: Mat<real>, eb: Mat<real>, n: nat, p: nat, q: nat)
    requires Shaped(x, n, p) && Shaped(w, p, q) && Shaped(z, n, q) && Shaped(dout, n, q)
    requires Shaped(ex, n, p) && Shaped(ew, p, q) && Shaped(eb, 1, q)
    ensures var dz := Upstream(grad, z, dout, n, q);
            var dx := Product(RealOps(), dz, Transposed(w, p, q), n, q, p);
            var dw := Product(RealOps(), Transposed(x, n, p), dz, p, n, q);
            var db := ColumnSums(RealOps(), dz, n, q);
            Inner(dz, Linearised(x, w, ex, ew, eb, n, p, q), n, q) ==
            Inner(dx, ex, n, p) + Inner(dw, ew, p, q) + Inner(db, eb, 1, q)
  {
    var dz := Upstream(grad, z, dout, n, q);
    var xw, we := Product(RealOps(), ex, w, n, p, q), Product(RealOps(), x, ew, n, p, q);
    InnerPlus(dz, Plus(xw, we, n, q), Broadcast(eb, n, q), n, q);
    InnerPlus(dz, xw, we, n, q);
    AdjointLeft(dz, ex, w, n, p, q);
    AdjointRight(dz, x, ew, n, p, q);
    AdjointBias(dz, eb, n, q);
  }

  lemma {:induction false} Distributes(a: real, b: real, c: real)
    ensures (a + b) * c == a * c + b * c && c * (a + b) == c * a + c * b
  {
  }

  lemma {:induction false} DotPlusLeft(
    a: Mat<real>, b: Mat<real>, c: Mat<real>, n: nat, p: nat, q: nat, i: nat, j: nat, k: nat)
    requires Shaped(a, n, p) && Shaped(b, n, p) && Shaped(c, p, q) && i < n && j < q && k <= p
    ensures Dot(RealOps(), Plus(a, b, n, p), c, i, j, k) ==
      Dot(RealOps(), a, c, i, j, k) + Dot(RealOps(), b, c, i, j, k)
  {
    if k > 0 {
      DotPlusLeft(a, b, c, n, p, q, i, j, k - 1);
      assert Plus(a, b, n, p)[i][k - 1] == a[i][k - 1] + b[i][k - 1];
      Distributes(a[i][k - 1], b[i][k - 1], c[k - 1][j]);
    }
  }

  lemma {:induction false} DotPlusRight(
    a: Mat<real>, c: Mat<real>, d: Mat<real>, n: nat, p: nat, q: nat, i: nat, j: nat, k: nat)
    requires Shaped(a, n, p) && Shaped(c, p, q) && Shaped(d, p, q) && i < n && j < q && k <= p
    ensures Dot(RealOps(), a, Plus(c, d, p, q), i, j, k) ==
      Dot(RealOps(), a, c, i, j, k) + Dot(RealOps(), a, d, i, j, k)
  {
    if k > 0 {
      DotPlusRight(a, c, d, n, p, q, i, j, k - 1);
      assert Plus(c, d, p, q)[k - 1][j] == c[k - 1][j] + d[k - 1][j];
      Distributes(c[k - 1][j], d[k - 1][j], a[i][k - 1]);
    }
  }

  lemma {:induction false} DotExpands(x: Mat<real>, ex: Mat<real>, w: Mat<real>, ew: Mat<real>,
                                      n: nat, p: nat, q: nat, i: nat, j: nat, k: nat)
    requires Shaped(x, n, p) && Shaped(ex, n, p) && Shaped(w, p, q) && Shaped(ew, p, q) && i < n && j < q && k <= p
    ensures Dot(RealOps(), Plus(x, ex, n, p), Plus(w, ew, p, q), i, j, k) ==
            Dot(RealOps(), x, w, i, j, k) + Dot(RealOps(), ex, w, i, j, k)
            + Dot(RealOps(), x, ew, i, j, k) + Dot(RealOps(), ex, ew, i, j, k)
  {
    DotPlusLeft(x, ex, Plus(w, ew, p, q), n, p, q, i, j, k);
    DotPlusRight(x, w, ew, n, p, q, i, j, k);
    DotPlusRight(ex, w, ew, n, p, q, i, j, k);
  }

  /** `Linearised` is the linear part of the change: what remains is the product of the changes. */
  lemma {:induction false} LinearisedIsFirstOrder(
    x: Mat<real>, w: Mat<real>, b: Mat<real>, ex: Mat<real>, ew: Mat<real>, eb: Mat<real>,
    n: nat, p: nat, q: nat, i: nat, j: nat)
    requires Shaped(x, n, p) && Shaped(w, p, q) && Shaped(b, 1, q)
    requires Shaped(ex, n, p) && Shaped(ew, p, q) && Shaped(eb, 1, q) && i < n && j < q
    ensures Preactivation(Plus(x, ex, n, p), Plus(w, ew, p, q), Plus(b, eb, 1, q), n, p, q)[i][j] ==
            Preactivation(x, w, b, n, p, q)[i][j] + Linearised(x, w, ex, ew, eb, n, p, q)[i][j]
            + Product(RealOps(), ex, ew, n, p, q)[i][j]
  {
    DotExpands(x, ex, w, ew, n, p, q, i, j, p);
  }

  // ----- the layer -----------------------------------------------------------------------------

  datatype Status = Fine | NoMemory | Invalid

  /** `dense_forward` once the caches have the right shape. */
  method ForwardInto(x: array2<real>, w: array2<real>, b: array2<real>, act: real -> real,
                     xc: array2<real>, zc: array2<real>, out: array2<real>)
    requires x.Length1 == w.Length0 && b.Length0 == 1 && b.Length1 == w.Length1
    requires xc.Length0 == zc.Length0 == out.Length0 == x.Length0
    requires xc.Length1 == x.Length1 && zc.Length1 == out.Length1 == w.Length1
    requires xc != zc && {xc, zc, out} !! {w, b} && {xc, zc} !! {x, out}
    modifies xc, zc, out
    ensures Rows(xc) == old(Rows(x))
    ensures Rows(zc) == Preactivation(old(Rows(x)), old(Rows(w)), old(Rows(b)), x.Length0, x.Length1, w.Length1)
    ensures Rows(out) == Mapped(act, Rows(zc), x.Length0, w.Length1)
  {
    var _ := Map(x, (v: real) => v, xc);
    SameCells(Rows(xc), Rows(x), x.Length0, x.Length1);
    var _ := Mul(RealOps(), x, w, zc);
    var _ := AddRow(RealOps(), zc, b, zc);
    var _ := Map(zc, act, out);
  }

  /** dz = act'(z) * dout. */
  method Delta(actGrad: real -> real, z: array2<real>, dout: array2<real>) returns (dz: array2<real>)
    requires z.Length0 == dout.Length0 && z.Length1 == dout.Length1
    ensures fresh(dz) && dz.Length0 == z.Length0 && dz.Length1 == z.Length1
    ensures Rows(dz) == Upstream(actGrad, Rows(z), Rows(dout), z.Length0, z.Length1)
  {
    dz := new real[z.Length0, z.Length1]((_, _) => 0.0);
    var _ := Map(z, actGrad, dz);
    var _ := Hadamard(RealOps(), dz, dout, dz);
  }

  /** dW = x^T dz, db = column sums of dz. */
  method ParameterGradients(x: array2<real>, dz: array2<real>, dw: array2<real>, db: array2<real>)
    requires x.Length0 == dz.Length0 && dw.Length0 == x.Length1 && dw.Length1 == db.Length1 == dz.Length1
    requires db.Length0 == 1 && dw != db && {dw, db} !! {x, dz}
    modifies dw, db
    ensures Rows(dw) ==
      Product(RealOps(), Transposed(Rows(x), x.Length0, x.Length1), Rows(dz), x.Length1, x.Length0, dz.Length1)
    ensures Rows(db) == ColumnSums(RealOps(), Rows(dz), dz.Length0, dz.Length1)
  {
    var xt := new real[x.Length1, x.Length0]((_, _) => 0.0);
    var _ := Transpose(x, xt);
    var _ := Mul(RealOps(), xt, dz, dw);
    var _ := ColSums(RealOps(), dz, db);
  }

  /** dx = dz W^T. */
  method InputGradient(dz: array2<real>, w: array2<real>, dx: array2<real>)
    requires w.Length1 == dz.Length1 && dx.Length0 == dz.Length0 && dx.Length1 == w.Length0 && dx != dz && dx != w
    modifies dx
    ensures Rows(dx) ==
      Product(RealOps(), Rows(dz), Transposed(Rows(w), w.Length0, w.Length1), dz.Length0, dz.Length1, w.Length0)
  {
    var wt := new real[w.Length1, w.Length0]((_, _) => 0.0);
    var _ := Transpose(w, wt);
    var _ := Mul(RealOps(), dz, wt, dx);
  }

  predicate Fits(m: array2?<real>, rows: nat, cols: nat) {
    m != null && m.Length0 == rows && m.Length1 == cols
  }

  /** `ensure_shape`: keep a matrix of the right shape, else allocate a new one. */
  method EnsureShape(m: array2?<real>, rows: nat, cols: nat, allocOk: bool) returns (r: array2?<real>)
    ensures Fits(m, rows, cols) ==> r == m
    ensures !Fits(m, rows, cols) ==> (r == null <==> !allocOk) && (r != null ==> fresh(r))
    ensures r != null ==> Fits(r, rows, cols)
  {
    if Fits(m, rows, cols) {
      return m;
    }
    if !allocOk {
      return null;
    }
    r := new real[rows, cols]((_, _) => 0.0);
  }

  class DenseLayer {
    const inDim: nat
    const outDim: nat
    const act: real -> real
    const actGrad: real -> real
    const w: array2<real>
    const b: array2<real>
    const dw: array2<real>
    const db: array2<real>
    var xCache: array2?<real>
    var zCache: array2?<real>

    ghost predicate Valid()
      reads this
    {
      && w.Length0 == dw.Length0 == inDim && w.Length1 == dw.Length1 == outDim
      && b.Length0 == db.Length0 == 1 && b.Length1 == db.Length1 == outDim
      && w != b && w != dw && w != db && b != dw && b != db && dw != db
      && (xCache != null ==> xCache !in {w, b, dw, db} && xCache.Length1 == inDim)
      && (zCache != null ==> zCache !in {w, b, dw, db} && zCache.Length1 == outDim)
      && (xCache != null && zCache != null ==> xCache != zCache && xCache.Length0 == zCache.Length0)
    }

    /** The matrices the layer owns. */
    ghost function Own(): set<array2?<real>>
      reads this
    {
      {w, b, dw, db, xCache, zCache}
    }

    constructor (inDim: nat, outDim: nat, act: real -> real, actGrad: real -> real, weights: (nat, nat) -> real)
      requires inDim > 0 && outDim > 0
      ensures Valid() && xCache == null && zCache == null
      ensures this.inDim == inDim && this.outDim == outDim && this.act == act && this.actGrad == actGrad
      ensures fresh(w) && fresh(b) && fresh(dw) && fresh(db)
      ensures forall i, j :: 0 <= i < inDim && 0 <= j < outDim ==> w[i, j] == weights(i, j) && dw[i, j] == 0.0
      ensures forall j :: 0 <= j < outDim ==> b[0, j] == 0.0 && db[0, j] == 0.0
    {
      this.inDim, this.outDim, this.act, this.actGrad := inDim, outDim, act, actGrad;
      w := new real[inDim, outDim]((i: nat, j: nat) => weights(i, j));
      b := new real[1, outDim]((_, _) => 0.0);
      dw := new real[inDim, outDim]((_, _) => 0.0);
      db := new real[1, outDim]((_, _) => 0.0);
      xCache, zCache := null, null;
    }

    /** The two `ensure_shape` calls of `dense_forward`. */
    method ShapeCaches(rows: nat, allocX: bool, allocZ: bool) returns (ok: bool)
      requires Valid()
      modifies this`xCache, this`zCache
      ensures Valid()
      ensures ok <==> old((allocX || Fits(xCache, rows, inDim)) && (allocZ || Fits(zCache, rows, outDim)))
      ensures ok ==> Fits(xCache, rows, inDim) && Fits(zCache, rows, outDim)
      ensures xCache == old(xCache) || xCache == null || fresh(xCache)
      ensures zCache == old(zCache) || zCache == null || fresh(zCache)
    {
      var xc := EnsureShape(xCache, rows, inDim, allocX);
      if xc == null {
        xCache := null;
        return false;
      }
      var zc := EnsureShape(zCache, rows, outDim, allocZ);
      xCache, zCache := xc, zc;
      ok := zc != null;
    }

    /** `dense_forward`: caches the input and z = x W + b, and outputs act(z). */
    method Forward(x: array2<real>, out: array2<real>, allocX: bool, allocZ: bool) returns (st: Status)
      requires Valid() && x !in Own() && out !in Own()
      modifies this, out, xCache, zCache
      ensures Valid()
      ensures x.Length1 != inDim || out.Length0 != x.Length0 || out.Length1 != outDim <==> st == Invalid
      ensures st == NoMemory <==>
        && !(x.Length1 != inDim || out.Length0 != x.Length0 || out.Length1 != outDim)
        && old((!allocX && !Fits(xCache, x.Length0, inDim)) || (!allocZ && !Fits(zCache, x.Length0, outDim)))
      ensures st == Fine ==>
        && xCache != null && zCache != null && xCache.Length0 == x.Length0
        && Rows(xCache) == old(Rows(x))
        && Rows(zCache) == Preactivation(old(Rows(x)), Rows(w), Rows(b), x.Length0, inDim, outDim)
        && Rows(out) == Mapped(act, Rows(zCache), x.Length0, outDim)
      ensures xCache == old(xCache) || xCache == null || fresh(xCache)
      ensures zCache == old(zCache) || zCache == null || fresh(zCache)
      ensures Rows(w) == old(Rows(w)) && Rows(b) == old(Rows(b))
    {
      if x.Length1 != inDim || out.Length0 != x.Length0 || out.Length1 != outDim {
        return Invalid;
      }
      var ok := ShapeCaches(x.Length0, allocX, allocZ);
      if !ok {
        return NoMemory;
      }
      ForwardInto(x, w, b, act, xCache, zCache, out);
      st := Fine;
    }

    /** `dense_backward`: from the caches left by forward, the gradients of weights and bias and, if
        asked for, of the input. */
    method Backward(dout: array2<real>, dx: array2?<real>, allocDz: bool, allocXt: bool, allocWt: bool)
      returns (st: Status)
      requires Valid() && dout !in Own() && (dx != null ==> dx !in Own())
      modifies dw, db, dx
      ensures Valid()
      ensures st == Invalid <==>
        || xCache == null || zCache == null || dout.Length0 != xCache.Length0 || dout.Length1 != outDim
        || (dx != null && (dx.Length0 != xCache.Length0 || dx.Length1 != inDim))
      ensures st == NoMemory <==> st != Invalid && (!allocDz || !allocXt || (dx != null && !allocWt))
      ensures st == Fine ==>
        var n := xCache.Length0;
        var dz := Upstream(actGrad, Rows(zCache), old(Rows(dout)), n, outDim);
        && Rows(dw) == Product(RealOps(), Transposed(Rows(xCache), n, inDim), dz, inDim, n, outDim)
        && Rows(db) == ColumnSums(RealOps(), dz, n, outDim)
        && (dx != null ==> Rows(dx) == Product(RealOps(), dz, Transposed(Rows(w), inDim, outDim), n, outDim, inDim))
    {
      if xCache == null || zCache == null || dout.Length0 != xCache.Length0 || dout.Length1 != outDim {
        return Invalid;
      }
      var n := xCache.Length0;
      if dx != null && (dx.Length0 != n || dx.Length1 != inDim) {
        return Invalid;
      }
      if !allocDz {
        return NoMemory;
      }
      var dz := Delta(actGrad, zCache, dout);
      if !allocXt {
        return NoMemory;
      }
      ParameterGradients(xCache, dz, dw, db);
      if dx != null {
        if !allocWt {
          return NoMemory;
        }
        InputGradient(dz, w, dx);
      }
      st := Fine;
    }
  }

  /** A forward pass followed by a backward pass: with the caches the one leaves to the other, the
      computed gradients pair with any perturbation as the upstream gradient does with the
      linearised change of the layer. */
  method ForwardThenBackward(l: DenseLayer, x: array2<real>, out: array2<real>, dout: array2<real>, dx: array2<real>,
                             alloc: bool, ghost ex: Mat<real>, ghost ew: Mat<real>, ghost eb: Mat<real>)
    returns (st: Status)
    requires l.Valid() && {x, out, dout, dx} !! l.Own() && dout != out
    requires Shaped(ex, x.Length0, l.inDim) && Shaped(ew, l.inDim, l.outDim) && Shaped(eb, 1, l.outDim)
    modifies l, out, dx, l.dw, l.db, l.xCache, l.zCache
    ensures st == Fine <==>
      && alloc && x.Length1 == l.inDim && Fits(out, x.Length0, l.outDim)
      && Fits(dout, x.Length0, l.outDim) && Fits(dx, x.Length0, l.inDim)
    ensures st == Fine ==>
      var n, p, q := x.Length0, l.inDim, l.outDim;
      && x.Length1 == p && dout.Length0 == n && dout.Length1 == q && dx.Length0 == n && dx.Length1 == p
      && l.w.Length0 == p && l.w.Length1 == q && l.b.Length0 == 1 && l.b.Length1 == q
      && l.dw.Length0 == p && l.dw.Length1 == q && l.db.Length0 == 1 && l.db.Length1 == q
      && var X, W, B := old(Rows(x)), old(Rows(l.w)), old(Rows(l.b));
         var up := Upstream(l.actGrad, Preactivation(X, W, B, n, p, q), old(Rows(dout)), n, q);
         Inner(up, Linearised(X, W, ex, ew, eb, n, p, q), n, q) ==
         Inner(Rows(dx), ex, n, p) + Inner(Rows(l.dw), ew, p, q) + Inner(Rows(l.db), eb, 1, q)
  {
    ghost var X, D := Rows(x), Rows(dout);
    st := l.Forward(x, out, alloc, alloc);
    if st != Fine {
      return;
    }
    assert Rows(dout) == D;
    ghost var W, Z := Rows(l.w), Rows(l.zCache);
    st := l.Backward(dout, dx, alloc, alloc, alloc);
    if st == Fine {
      BackwardIsAdjoint(l.actGrad, X, W, Z, D, ex, ew, eb, x.Length0, l.inDim, l.outDim);
    }
  }
}
