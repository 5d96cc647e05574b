/** The dynamic matrices of src/math/matx.c.  The element at offset r * cols + c is `a[r, c]` here.

    The two products are proved for any element type with any addition and multiplication: nothing
    is assumed of them, not even associativity, so the equalities hold for rounded floats too. */
module Matrix {
  datatype ErrorCode = Ok | InvalidArg

  const DEFAULT_BLOCK: nat := 32

  // ----- matrices as values --------------------------------------------------------------------

  type Mat<T> = seq<seq<T>>

  predicate Shaped<T>(m: Mat<T>, rows: nat, cols: nat) {
    |m| == rows && forall i :: 0 <= i < rows ==> |m[i]| == cols
  }

  /** The contents of a matrix. */
  ghost function Rows<T>(a: array2<T>): (m: Mat<T>)
    reads a
    ensures Shaped(m, a.Length0, a.Length1)
    ensures forall i, j :: 0 <= i < a.Length0 && 0 <= j < a.Length1 ==> m[i][j] == a[i, j]
  {
    seq(a.Length0, i requires 0 <= i < a.Length0 reads a =>
      seq(a.Length1, j requires 0 <= j < a.Length1 reads a => a[i, j]))
  }

  lemma {:induction false} SameCells<T>(x: Mat<T>, y: Mat<T>, rows: nat, cols: nat)
    requires Shaped(x, rows, cols) && Shaped(y, rows, cols)
    requires forall i, j :: 0 <= i < rows && 0 <= j < cols ==> x[i][j] == y[i][j]
    ensures x == y
  {
    forall i | 0 <= i < rows
      ensures x[i] == y[i]
    {
    }
  }

  /** The element type's zero, addition and multiplication. */
  datatype Ops<!T> = Ops(zero: T, add: (T, T) -> T, mul: (T, T) -> T)

  /** The first k terms of row i of a times column j of b, added from the left in ascending order. */
  function Dot<T>(ops: Ops<T>, a: Mat<T>, b: Mat<T>, i: nat, j: nat, k: nat): T
    requires i < |a| && k <= |a[i]| && k <= |b| && forall r :: 0 <= r < k ==> j < |b[r]|
  {
    if k == 0 then ops.zero
    else ops.add(Dot(ops, a, b, i, j, k - 1), ops.mul(a[i][k - 1], b[k - 1][j]))
  }

  function Product<T>(ops: Ops<T>, a: Mat<T>, b: Mat<T>, n: nat, k: nat, m: nat): (c: Mat<T>)
    requires Shaped(a, n, k) && Shaped(b, k, m)
    ensures Shaped(c, n, m)
  {
    seq(n, i requires 0 <= i < n => seq(m, j requires 0 <= j < m => Dot(ops, a, b, i, j, k)))
  }

  // ----- the two products ----------------------------------------------------------------------

  /** The shape and aliasing checks of both products. */
  predicate Multipliable<T>(a: array2<T>, b: array2<T>, out: array2<T>) {
    a.Length1 == b.Length0 && out.Length0 == a.Length0 && out.Length1 == b.Length1 && out != a && out != b
  }

  method Clear<T>(ops: Ops<T>, out: array2<T>)
    modifies out
    ensures forall r, c :: 0 <= r < out.Length0 && 0 <= c < out.Length1 ==> out[r, c] == ops.zero
  {
    for i := 0 to out.Length0
      invariant forall r, c :: 0 <= r < i && 0 <= c < out.Length1 ==> out[r, c] == ops.zero
    {
      for j := 0 to out.Length1
        invariant forall r, c :: 0 <= r < i && 0 <= c < out.Length1 ==> out[r, c] == ops.zero
        invariant forall c :: 0 <= c < j ==> out[i, c] == ops.zero
      {
        out[i, j] := ops.zero;
      }
    }
  }

  /** The innermost loop of both products: one term for columns jj up to jEnd of row i. */
  method AddTerms<T>(ops: Ops<T>, a: array2<T>, b: array2<T>, out: array2<T>, i: nat, k: nat, jj: nat, jEnd: nat)
    requires Multipliable(a, b, out) && i < a.Length0 && k < a.Length1 && jj <= jEnd <= b.Length1
    modifies out
    ensures forall c :: jj <= c < jEnd ==> out[i, c] == ops.add(old(out[i, c]), ops.mul(a[i, k], b[k, c]))
    ensures forall r, c :: 0 <= r < out.Length0 && 0 <= c < out.Length1 && !(r == i && jj <= c < jEnd) ==>
      out[r, c] == old(out[r, c])
  {
    var aik := a[i, k];
    for j := jj to jEnd
      invariant forall c :: jj <= c < j ==> out[i, c] == ops.add(old(out[i, c]), ops.mul(a[i, k], b[k, c]))
      invariant forall r, c :: 0 <= r < out.Length0 && 0 <= c < out.Length1 && !(r == i && jj <= c < j) ==>
        out[r, c] == old(out[r, c])
    {
      out[i, j] := ops.add(out[i, j], ops.mul(aik, b[k, j]));
    }
  }

  lemma {:induction false} NextTerm<T>(
    ops: Ops<T>, a: array2<T>, b: array2<T>, i: nat, k: nat, jj: nat, jEnd: nat, A: Mat<T>, B: Mat<T>)
    requires Rows(a) == A && Rows(b) == B && a.Length1 == b.Length0
    requires i < a.Length0 && k < a.Length1 && jj <= jEnd <= b.Length1
    ensures forall c :: jj <= c < jEnd ==>
      Dot(ops, A, B, i, c, k + 1) == ops.add(Dot(ops, A, B, i, c, k), ops.mul(a[i, k], b[k, c]))
  {
  }

  /** The terms kk up to kEnd for columns jj up to jEnd of row i. */
  method TileLine<T>(ops: Ops<T>, a: array2<T>, b: array2<T>, out: array2<T>,
                     i: nat, kk: nat, kEnd: nat, jj: nat, jEnd: nat, ghost A: Mat<T>, ghost B: Mat<T>)
    requires Multipliable(a, b, out) && Rows(a) == A && Rows(b) == B
    requires i < a.Length0 && kk <= kEnd <= a.Length1 && jj <= jEnd <= b.Length1
    requires forall c :: jj <= c < jEnd ==> out[i, c] == Dot(ops, A, B, i, c, kk)
    modifies out
    ensures forall c :: jj <= c < jEnd ==> out[i, c] == Dot(ops, A, B, i, c, kEnd)
    ensures forall r, c :: 0 <= r < out.Length0 && 0 <= c < out.Length1 && !(r == i && jj <= c < jEnd) ==>
      out[r, c] == old(out[r, c])
  {
    for k := kk to kEnd
      invariant forall c :: jj <= c < jEnd ==> out[i, c] == Dot(ops, A, B, i, c, k)
      invariant forall r, c :: 0 <= r < out.Length0 && 0 <= c < out.Length1 && !(r == i && jj <= c < jEnd) ==>
        out[r, c] == old(out[r, c])
    {
      NextTerm(ops, a, b, i, k, jj, jEnd, A, B);
      AddTerms(ops, a, b, out, i, k, jj, jEnd);
    }
  }

  /** `matx_mul`. */
  method Mul<T>(ops: Ops<T>, a: array2<T>, b: array2<T>, out: array2<T>) returns (err: ErrorCode)
    modifies out
    ensures err == if Multipliable(a, b, out) then Ok else InvalidArg
    ensures err == Ok ==> Rows(out) == Product(ops, Rows(a), Rows(b), a.Length0, a.Length1, b.Length1)
    ensures err != Ok ==> Rows(out) == old(Rows(out))
  {
    if a.Length1 != b.Length0 || out.Length0 != a.Length0 || out.Length1 != b.Length1 || out == a || out == b {
      return InvalidArg;
    }
    Clear(ops, out);
    ghost var A, B := Rows(a), Rows(b);
    for i := 0 to a.Length0
      invariant Rows(a) == A && Rows(b) == B
      invariant forall r, c :: 0 <= r < out.Length0 && 0 <= c < out.Length1 ==>
        out[r, c] == Dot(ops, A, B, r, c, if r < i then a.Length1 else 0)
    {
      TileLine(ops, a, b, out, i, 0, a.Length1, 0, b.Length1, A, B);
    }
    SameCells(Rows(out), Product(ops, A, B, a.Length0, a.Length1, b.Length1), out.Length0, out.Length1);
    err := Ok;
  }

  /** The three inner loops of `matx_mul_blocked`: the terms kk up to kEnd for one tile of the output. */
  method Tile<T>(ops: Ops<T>, a: array2<T>, b: array2<T>, out: array2<T>,
                 ii: nat, iEnd: nat, kk: nat, kEnd: nat, jj: nat, jEnd: nat, ghost A: Mat<T>, ghost B: Mat<T>)
    requires Multipliable(a, b, out) && Rows(a) == A && Rows(b) == B
    requires ii <= iEnd <= a.Length0 && kk <= kEnd <= a.Length1 && jj <= jEnd <= b.Length1
    requires forall r, c :: ii <= r < iEnd && jj <= c < jEnd ==> out[r, c] == Dot(ops, A, B, r, c, kk)
    modifies out
    ensures forall r, c :: 0 <= r < out.Length0 && 0 <= c < out.Length1 ==>
      out[r, c] == if ii <= r < iEnd && jj <= c < jEnd then Dot(ops, A, B, r, c, kEnd) else old(out[r, c])
  {
    for i := ii to iEnd
      invariant forall r, c :: 0 <= r < out.Length0 && 0 <= c < out.Length1 ==>
        out[r, c] == if ii <= r < i && jj <= c < jEnd then Dot(ops, A, B, r, c, kEnd) else old(out[r, c])
    {
      TileLine(ops, a, b, out, i, kk, kEnd, jj, jEnd, A, B);
    }
  }

  function Clip(start: nat, block: nat, end: nat): nat {
    if start + block < end then start + block else end
  }

  /** The loop over column blocks: the terms kk up to kEnd for one block of rows. */
  method TileRow<T>(ops: Ops<T>, a: array2<T>, b: array2<T>, out: array2<T>, block: nat,
                    ii: nat, iEnd: nat, kk: nat, kEnd: nat, ghost A: Mat<T>, ghost B: Mat<T>)
    requires Multipliable(a, b, out) && Rows(a) == A && Rows(b) == B && block > 0
    requires ii <= iEnd <= a.Length0 && kk <= kEnd <= a.Length1
    requires forall r, c :: ii <= r < iEnd && 0 <= c < out.Length1 ==> out[r, c] == Dot(ops, A, B, r, c, kk)
    modifies out
    ensures forall r, c :: 0 <= r < out.Length0 && 0 <= c < out.Length1 ==>
      out[r, c] == if ii <= r < iEnd then Dot(ops, A, B, r, c, kEnd) else old(out[r, c])
  {
    var jj := 0;
    while jj < b.Length1
      invariant Rows(a) == A && Rows(b) == B
      invariant forall r, c :: 0 <= r < out.Length0 && 0 <= c < out.Length1 ==>
        out[r, c] == if ii <= r < iEnd && c < jj then Dot(ops, A, B, r, c, kEnd) else old(out[r, c])
    {
      Tile(ops, a, b, out, ii, iEnd, kk, kEnd, jj, Clip(jj, block, b.Length1), A, B);
      jj := jj + block;
    }
  }

  /** The loop over blocks of terms: one block of rows from start to end. */
  method TileBand<T>(ops: Ops<T>, a: array2<T>, b: array2<T>, out: array2<T>, block: nat,
                     ii: nat, iEnd: nat, ghost A: Mat<T>, ghost B: Mat<T>)
    requires Multipliable(a, b, out) && Rows(a) == A && Rows(b) == B && block > 0 && ii <= iEnd <= a.Length0
    requires forall r, c :: ii <= r < iEnd && 0 <= c < out.Length1 ==> out[r, c] == Dot(ops, A, B, r, c, 0)
    modifies out
    ensures forall r, c :: ii <= r < iEnd && 0 <= c < out.Length1 ==> out[r, c] == Dot(ops, A, B, r, c, a.Length1)
    ensures forall r, c :: 0 <= r < out.Length0 && !(ii <= r < iEnd) && 0 <= c < out.Length1 ==>
      out[r, c] == old(out[r, c])
  {
    var kk := 0;
    while kk < a.Length1
      invariant Rows(a) == A && Rows(b) == B
      invariant forall r, c :: ii <= r < iEnd && 0 <= c < out.Length1 ==>
        out[r, c] == Dot(ops, A, B, r, c, if kk < a.Length1 then kk else a.Length1)
      invariant forall r, c :: 0 <= r < out.Length0 && !(ii <= r < iEnd) && 0 <= c < out.Length1 ==>
        out[r, c] == old(out[r, c])
    {
      TileRow(ops, a, b, out, block, ii, iEnd, kk, Clip(kk, block, a.Length1), A, B);
      kk := kk + block;
    }
  }

  /** `matx_mul_blocked`: for every block size the same cells as `matx_mul`. */
  method MulBlocked<T>(ops: Ops<T>, a: array2<T>, b: array2<T>, out: array2<T>, requested: nat) returns (err: ErrorCode)
    modifies out
    ensures err == if Multipliable(a, b, out) then Ok else InvalidArg
    ensures err == Ok ==> Rows(out) == Product(ops, Rows(a), Rows(b), a.Length0, a.Length1, b.Length1)
    ensures err != Ok ==> Rows(out) == old(Rows(out))
  {
    if a.Length1 != b.Length0 || out.Length0 != a.Length0 || out.Length1 != b.Length1 || out == a || out == b {
      return InvalidArg;
    }
    var block := if requested == 0 then DEFAULT_BLOCK else requested;
    Clear(ops, out);
    ghost var A, B := Rows(a), Rows(b);
    var ii := 0;
    while ii < a.Length0
      invariant Rows(a) == A && Rows(b) == B
      invariant forall r, c :: 0 <= r < out.Length0 && 0 <= c < out.Length1 ==>
        out[r, c] == Dot(ops, A, B, r, c, if r < ii then a.Length1 else 0)
    {
      TileBand(ops, a, b, out, block, ii, Clip(ii, block, a.Length0), A, B);
      ii := ii + block;
    }
    SameCells(Rows(out), Product(ops, A, B, a.Length0, a.Length1, b.Length1), out.Length0, out.Length1);
    err := Ok;
  }

  /** The two products agree on every shape and every block size, whatever addition and
      multiplication are. */
  method BothProducts<T>(ops: Ops<T>, a: array2<T>, b: array2<T>, x: array2<T>, y: array2<T>, block: nat)
    requires x != y && x.Length0 == y.Length0 && x.Length1 == y.Length1
    requires x != a && x != b && y != a && y != b
    modifies x, y
    ensures Multipliable(a, b, x) ==> Rows(x) == Rows(y)
  {
    var e := Mul(ops, a, b, x);
    var f := MulBlocked(ops, a, b, y, block);
  }

  // ----- the other operations the dense layer uses ---------------------------------------------

  function Transposed<T>(a: Mat<T>, n: nat, m: nat): (t: Mat<T>)
    requires Shaped(a, n, m)
    ensures Shaped(t, m, n)
  {
    seq(m, j requires 0 <= j < m => seq(n, i requires 0 <= i < n => a[i][j]))
  }

  /** `matx_transpose`. */
  method Transpose<T>(a: array2<T>, out: array2<T>) returns (err: ErrorCode)
    modifies out
    ensures err == if out.Length0 == a.Length1 && out.Length1 == a.Length0 && out != a then Ok else InvalidArg
    ensures err == Ok ==> Rows(out) == Transposed(Rows(a), a.Length0, a.Length1)
    ensures err != Ok ==> Rows(out) == old(Rows(out))
  {
    if out.Length0 != a.Length1 || out.Length1 != a.Length0 || out == a {
      return InvalidArg;
    }
    for r := 0 to a.Length0
      invariant forall i, j :: 0 <= i < r && 0 <= j < a.Length1 ==> out[j, i] == a[i, j]
    {
      for c := 0 to a.Length1
        invariant forall i, j :: 0 <= i < r && 0 <= j < a.Length1 ==> out[j, i] == a[i, j]
        invariant forall j :: 0 <= j < c ==> out[j, r] == a[r, j]
      {
        out[c, r] := a[r, c];
      }
    }
    SameCells(Rows(out), Transposed(Rows(a), a.Length0, a.Length1), out.Length0, out.Length1);
    err := Ok;
  }

  function Mapped<T, U>(f: T -> U, a: Mat<T>, n: nat, m: nat): (r: Mat<U>)
    requires Shaped(a, n, m)
    ensures Shaped(r, n, m)
  {
    seq(n, i requires 0 <= i < n => seq(m, j requires 0 <= j < m => f(a[i][j])))
  }

  /** `matx_map`; the output may be the input. */
  method Map<T>(a: array2<T>, f: T -> T, out: array2<T>) returns (err: ErrorCode)
    modifies out
    ensures err == if out.Length0 == a.Length0 && out.Length1 == a.Length1 then Ok else InvalidArg
    ensures err == Ok ==> Rows(out) == Mapped(f, old(Rows(a)), a.Length0, a.Length1)
    ensures err != Ok ==> Rows(out) == old(Rows(out))
  {
    if out.Length0 != a.Length0 || out.Length1 != a.Length1 {
      return InvalidArg;
    }
    for r := 0 to a.Length0
      invariant forall i, j :: 0 <= i < r && 0 <= j < a.Length1 ==> out[i, j] == f(old(a[i, j]))
      invariant forall i, j :: r <= i < a.Length0 && 0 <= j < a.Length1 ==> a[i, j] == old(a[i, j])
    {
      for c := 0 to a.Length1
        invariant forall i, j :: 0 <= i < r && 0 <= j < a.Length1 ==> out[i, j] == f(old(a[i, j]))
        invariant forall j :: 0 <= j < c ==> out[r, j] == f(old(a[r, j]))
        invariant forall i, j :: r <= i < a.Length0 && 0 <= j < a.Length1 && (i > r || j >= c) ==>
          a[i, j] == old(a[i, j])
      {
        out[r, c] := f(a[r, c]);
      }
    }
    SameCells(Rows(out), Mapped(f, old(Rows(a)), a.Length0, a.Length1), out.Length0, out.Length1);
    err := Ok;
  }

  function Zipped<T>(f: (T, T) -> T, a: Mat<T>, b: Mat<T>, n: nat, m: nat): (r: Mat<T>)
    requires Shaped(a, n, m) && Shaped(b, n, m)
    ensures Shaped(r, n, m)
  {
    seq(n, i requires 0 <= i < n => seq(m, j requires 0 <= j < m => f(a[i][j], b[i][j])))
  }

  /** `matx_hadamard`; the output may be either input. */
  method Hadamard<T>(ops: Ops<T>, a: array2<T>, b: array2<T>, out: array2<T>) returns (err: ErrorCode)
    modifies out
    ensures err == if a.Length0 == b.Length0 == out.Length0 && a.Length1 == b.Length1 == out.Length1 then Ok
                   else InvalidArg
    ensures err == Ok ==> Rows(out) == Zipped(ops.mul, old(Rows(a)), old(Rows(b)), a.Length0, a.Length1)
    ensures err != Ok ==> Rows(out) == old(Rows(out))
  {
    if a.Length0 != b.Length0 || a.Length1 != b.Length1 || out.Length0 != a.Length0 || out.Length1 != a.Length1 {
      return InvalidArg;
    }
    for r := 0 to a.Length0
      invariant forall i, j :: 0 <= i < r && 0 <= j < a.Length1 ==> out[i, j] == ops.mul(old(a[i, j]), old(b[i, j]))
      invariant forall i, j :: r <= i < a.Length0 && 0 <= j < a.Length1 ==>
        a[i, j] == old(a[i, j]) && b[i, j] == old(b[i, j])
    {
      for c := 0 to a.Length1
        invariant forall i, j :: 0 <= i < r && 0 <= j < a.Length1 ==> out[i, j] == ops.mul(old(a[i, j]), old(b[i, j]))
        invariant forall j :: 0 <= j < c ==> out[r, j] == ops.mul(old(a[r, j]), old(b[r, j]))
        invariant forall i, j :: r <= i < a.Length0 && 0 <= j < a.Length1 && (i > r || j >= c) ==>
          a[i, j] == old(a[i, j]) && b[i, j] == old(b[i, j])
      {
        out[r, c] := ops.mul(a[r, c], b[r, c]);
      }
    }
    SameCells(Rows(out), Zipped(ops.mul, old(Rows(a)), old(Rows(b)), a.Length0, a.Length1), out.Length0, out.Length1);
    err := Ok;
  }

  function RowAdded<T>(ops: Ops<T>, a: Mat<T>, row: Mat<T>, n: nat, m: nat): (r: Mat<T>)
    requires Shaped(a, n, m) && Shaped(row, 1, m)
    ensures Shaped(r, n, m)
  {
    seq(n, i requires 0 <= i < n => seq(m, j requires 0 <= j < m => ops.add(a[i][j], row[0][j])))
  }

  /** `matx_add_row`; the output may be the first input, and even the row of a one-row matrix. */
  method AddRow<T>(ops: Ops<T>, a: array2<T>, row: array2<T>, out: array2<T>) returns (err: ErrorCode)
    modifies out
    ensures err == if row.Length0 == 1 && row.Length1 == a.Length1 == out.Length1 && out.Length0 == a.Length0 then Ok
                   else InvalidArg
    ensures err == Ok ==> Rows(out) == RowAdded(ops, old(Rows(a)), old(Rows(row)), a.Length0, a.Length1)
    ensures err != Ok ==> Rows(out) == old(Rows(out))
  {
    if row.Length0 != 1 || row.Length1 != a.Length1 || out.Length0 != a.Length0 || out.Length1 != a.Length1 {
      return InvalidArg;
    }
    for r := 0 to a.Length0
      invariant forall i, j :: 0 <= i < r && 0 <= j < a.Length1 ==> out[i, j] == ops.add(old(a[i, j]), old(row[0, j]))
      invariant forall i, j :: r <= i < a.Length0 && 0 <= j < a.Length1 ==> a[i, j] == old(a[i, j])
      invariant row != out || r == 0 ==> forall j :: 0 <= j < a.Length1 ==> row[0, j] == old(row[0, j])
    {
      for c := 0 to a.Length1
        invariant forall i, j :: 0 <= i < r && 0 <= j < a.Length1 ==> out[i, j] == ops.add(old(a[i, j]), old(row[0, j]))
        invariant forall j :: 0 <= j < c ==> out[r, j] == ops.add(old(a[r, j]), old(row[0, j]))
        invariant forall i, j :: r <= i < a.Length0 && 0 <= j < a.Length1 && (i > r || j >= c) ==>
          a[i, j] == old(a[i, j])
        invariant forall j :: (if row == out then c else 0) <= j < a.Length1 ==> row[0, j] == old(row[0, j])
      {
        out[r, c] := ops.add(a[r, c], row[0, c]);
      }
    }
    SameCells(Rows(out), RowAdded(ops, old(Rows(a)), old(Rows(row)), a.Length0, a.Length1), out.Length0, out.Length1);
    err := Ok;
  }

  /** The first k entries of column j, added from the left. */
  function ColumnSum<T>(ops: Ops<T>, a: Mat<T>, j: nat, k: nat): T
    requires k <= |a| && forall r :: 0 <= r < k ==> j < |a[r]|
  {
    if k == 0 then ops.zero else ops.add(ColumnSum(ops, a, j, k - 1), a[k - 1][j])
  }

  function ColumnSums<T>(ops: Ops<T>, a: Mat<T>, n: nat, m: nat): (r: Mat<T>)
    requires Shaped(a, n, m)
    ensures Shaped(r, 1, m)
  {
    [seq(m, j requires 0 <= j < m => ColumnSum(ops, a, j, n))]
  }

  /** The inner loop of `matx_col_sums`. */
  method AccumulateRow<T>(ops: Ops<T>, a: array2<T>, out: array2<T>, r: nat)
    requires out.Length0 == 1 && out.Length1 == a.Length1 && out != a && r < a.Length0
    modifies out
    ensures forall j :: 0 <= j < a.Length1 ==> out[0, j] == ops.add(old(out[0, j]), a[r, j])
  {
    for c := 0 to a.Length1
      invariant forall j :: 0 <= j < a.Length1 ==>
        out[0, j] == if j < c then ops.add(old(out[0, j]), a[r, j]) else old(out[0, j])
    {
      out[0, c] := ops.add(out[0, c], a[r, c]);
    }
  }

  /** `matx_col_sums`. */
  method ColSums<T>(ops: Ops<T>, a: array2<T>, out: array2<T>) returns (err: ErrorCode)
    modifies out
    ensures err == if out.Length0 == 1 && out.Length1 == a.Length1 && out != a then Ok else InvalidArg
    ensures err == Ok ==> Rows(out) == ColumnSums(ops, Rows(a), a.Length0, a.Length1)
    ensures err != Ok ==> Rows(out) == old(Rows(out))
  {
    if out.Length0 != 1 || out.Length1 != a.Length1 || out == a {
      return InvalidArg;
    }
    Clear(ops, out);
    ghost var A := Rows(a);
    for r := 0 to a.Length0
      invariant Rows(a) == A && forall j :: 0 <= j < a.Length1 ==> out[0, j] == ColumnSum(ops, A, j, r)
    {
      AccumulateRow(ops, a, out, r);
    }
    SameCells(Rows(out), ColumnSums(ops, A, a.Length0, a.Length1), 1, a.Length1);
    err := Ok;
  }
}
