/** MOOSE's reshapable dense matrix (framework/include/utils/ColumnMajorMatrix.h): a
    row count, a column count, an entry count and a flat vector of values in which entry
    (i, j) sits at index j * rows + i.  Entries are exact reals here. */
module ColumnMajorMatrices {

  /** A matrix value: its shape and its flat, column-major values. */
  datatype Mat = Mat(rows: nat, cols: nat, values: seq<real>)

  /** The shape and the number of values agree. */
  predicate Shaped(m: Mat)
  {
    |m.values| == m.rows * m.cols
  }

  /** The flat position of entry (i, j) of a matrix with `rows` rows. */
  function Idx(rows: nat, i: nat, j: nat): nat
  {
    j * rows + i
  }

  lemma {:induction false} MulMono(a: nat, b: nat, c: nat)
    requires a <= b
    ensures a * c <= b * c
  {
  }

  /** Every entry of the shape has its flat position inside the values. */
  lemma {:induction false} IdxInRange(rows: nat, cols: nat, i: nat, j: nat)
    requires i < rows && j < cols
    ensures Idx(rows, i, j) < rows * cols
  {
    MulMono(j + 1, cols, rows);
  }

  /** The flat position determines the entry: row and column are recovered by modulus and
      quotient. */
  lemma {:induction false} IdxDivMod(rows: nat, i: nat, j: nat)
    requires i < rows
    ensures Idx(rows, i, j) / rows == j && Idx(rows, i, j) % rows == i
  {
    var k := Idx(rows, i, j);
    var q, r := k / rows, k % rows;
    assert k == q * rows + r;
    if q < j {
      MulMono(q + 1, j, rows);
    } else if q > j {
      MulMono(j + 1, q, rows);
    }
  }

  /** Two entries of the shape never share a flat position. */
  lemma {:induction false} IdxInjective(rows: nat, i: nat, j: nat, i2: nat, j2: nat)
    requires i < rows && i2 < rows
    ensures Idx(rows, i, j) == Idx(rows, i2, j2) <==> i == i2 && j == j2
  {
    IdxDivMod(rows, i, j);
    IdxDivMod(rows, i2, j2);
  }

  /** Every flat position of the values is the position of some entry of the shape. */
  lemma {:induction false} IdxOnto(rows: nat, cols: nat, k: nat)
    requires k < rows * cols
    ensures rows > 0 && k % rows < rows && k / rows < cols && Idx(rows, k % rows, k / rows) == k
  {
    if k / rows >= cols {
      MulMono(cols, k / rows, rows);
    }
  }

  /** `operator()`: the entry in row i and column j. */
  function At(m: Mat, i: nat, j: nat): real
    requires Shaped(m) && i < m.rows && j < m.cols
  {
    IdxInRange(m.rows, m.cols, i, j);
    m.values[Idx(m.rows, i, j)]
  }

  /** Two matrices of the same shape are equal when all their entries are. */
  lemma {:induction false} Extensionality(a: Mat, b: Mat)
    requires Shaped(a) && Shaped(b) && a.rows == b.rows && a.cols == b.cols
    requires forall i, j :: 0 <= i < a.rows && 0 <= j < a.cols ==> At(a, i, j) == At(b, i, j)
    ensures a == b
  {
    forall k | 0 <= k < |a.values| ensures a.values[k] == b.values[k] {
      IdxOnto(a.rows, a.cols, k);
      assert At(a, k % a.rows, k / a.rows) == a.values[k];
    }
  }

  /** The matrix of the given shape whose entry (i, j) is f(i, j). */
  function Build(rows: nat, cols: nat, f: (nat, nat) -> real): (m: Mat)
    ensures Shaped(m) && m.rows == rows && m.cols == cols
    ensures forall i, j :: 0 <= i < rows && 0 <= j < cols ==> At(m, i, j) == f(i, j)
  {
    if rows == 0 then Mat(0, cols, [])
    else
      var m := Mat(rows, cols, seq(rows * cols, k requires 0 <= k < rows * cols => f(k % rows, k / rows)));
      BuildAt(m, f);
      m
  }

  lemma {:induction false} BuildAt(m: Mat, f: (nat, nat) -> real)
    requires m.rows > 0 && |m.values| == m.rows * m.cols
    requires forall k :: 0 <= k < |m.values| ==> m.values[k] == f(k % m.rows, k / m.rows)
    ensures forall i, j :: 0 <= i < m.rows && 0 <= j < m.cols ==> At(m, i, j) == f(i, j)
  {
    forall i, j | 0 <= i < m.rows && 0 <= j < m.cols ensures At(m, i, j) == f(i, j) {
      IdxInRange(m.rows, m.cols, i, j);
      IdxDivMod(m.rows, i, j);
    }
  }

  /** The matrix with the value at entry (i, j)'s flat position overwritten. */
  function Updated(m: Mat, i: nat, j: nat, x: real): (u: Mat)
    requires Shaped(m) && i < m.rows && j < m.cols
    ensures Shaped(u) && u.rows == m.rows && u.cols == m.cols
  {
    IdxInRange(m.rows, m.cols, i, j);
    m.(values := m.values[Idx(m.rows, i, j) := x])
  }

  lemma {:induction false} UpdateAtOne(m: Mat, i: nat, j: nat, x: real, i2: nat, j2: nat)
    requires Shaped(m) && i < m.rows && j < m.cols && i2 < m.rows && j2 < m.cols
    ensures At(Updated(m, i, j, x), i2, j2) == if i2 == i && j2 == j then x else At(m, i2, j2)
  {
    IdxInRange(m.rows, m.cols, i, j);
    IdxInRange(m.rows, m.cols, i2, j2);
    IdxInjective(m.rows, i, j, i2, j2);
  }

  /** Overwriting one entry's flat position changes that entry and no other. */
  lemma {:induction false} UpdateAt(m: Mat, i: nat, j: nat, x: real)
    requires Shaped(m) && i < m.rows && j < m.cols
    ensures forall i2, j2 :: 0 <= i2 < m.rows && 0 <= j2 < m.cols ==>
              At(Updated(m, i, j, x), i2, j2) == if i2 == i && j2 == j then x else At(m, i2, j2)
  {
    forall i2, j2 | 0 <= i2 < m.rows && 0 <= j2 < m.cols
      ensures At(Updated(m, i, j, x), i2, j2) == if i2 == i && j2 == j then x else At(m, i2, j2)
    {
      UpdateAtOne(m, i, j, x, i2, j2);
    }
  }

  // ---------------------------------------------------------------------------------
  // The operations on values

  /** A matrix of the shape with every entry 0 (how the constructor leaves a matrix). */
  function Zeros(rows: nat, cols: nat): (m: Mat)
    ensures Shaped(m) && m.rows == rows && m.cols == cols
    ensures forall i, j :: 0 <= i < rows && 0 <= j < cols ==> At(m, i, j) == 0.0
  {
    var m := Mat(rows, cols, seq(rows * cols, _ => 0.0));
    ZerosAt(m);
    m
  }

  lemma {:induction false} ZerosAt(m: Mat)
    requires Shaped(m) && forall k :: 0 <= k < |m.values| ==> m.values[k] == 0.0
    ensures forall i, j :: 0 <= i < m.rows && 0 <= j < m.cols ==> At(m, i, j) == 0.0
  {
    forall i, j | 0 <= i < m.rows && 0 <= j < m.cols ensures At(m, i, j) == 0.0 {
      IdxInRange(m.rows, m.cols, i, j);
    }
  }

  /** `std::vector<Real>::resize`: keep a prefix, or pad with zeros. */
  function Resized(xs: seq<real>, n: nat): (r: seq<real>)
    ensures |r| == n
    ensures forall k :: 0 <= k < n && k < |xs| ==> r[k] == xs[k]
    ensures forall k :: |xs| <= k < n ==> r[k] == 0.0
  {
    if n <= |xs| then xs[..n] else xs + seq(n - |xs|, _ => 0.0)
  }

  /** The transpose: rows become columns. */
  function Transposed(m: Mat): (t: Mat)
    requires Shaped(m)
    ensures Shaped(t) && t.rows == m.cols && t.cols == m.rows
    ensures forall i, j :: 0 <= i < m.rows && 0 <= j < m.cols ==> At(t, j, i) == At(m, i, j)
  {
    Build(m.cols, m.rows, (i: nat, j: nat) => if j < m.rows && i < m.cols then At(m, j, i) else 0.0)
  }

  /** Transposing twice gives back the matrix. */
  lemma {:induction false} TransposeTwice(m: Mat)
    requires Shaped(m)
    ensures Transposed(Transposed(m)) == m
  {
    var tt := Transposed(Transposed(m));
    Extensionality(tt, m);
  }

  /** The sum of the first n diagonal entries. */
  function DiagonalSum(m: Mat, n: nat): real
    requires Shaped(m) && n <= m.rows && n <= m.cols
  {
    if n == 0 then 0.0 else DiagonalSum(m, n - 1) + At(m, n - 1, n - 1)
  }

  /** `tr`: the sum of the diagonal of a square matrix. */
  function Trace(m: Mat): real
    requires Shaped(m) && m.rows == m.cols
  {
    DiagonalSum(m, m.rows)
  }

  /** A square matrix and its transpose have the same diagonal, hence the same trace. */
  lemma {:induction false} TraceTranspose(m: Mat, n: nat)
    requires Shaped(m) && m.rows == m.cols && n <= m.rows
    ensures DiagonalSum(Transposed(m), n) == DiagonalSum(m, n)
  {
    if n > 0 {
      TraceTranspose(m, n - 1);
    }
  }

  /** `identity`: 1 on the diagonal, 0 elsewhere. */
  function Identity(n: nat): (m: Mat)
    ensures Shaped(m) && m.rows == n && m.cols == n
    ensures forall i, j :: 0 <= i < n && 0 <= j < n ==> At(m, i, j) == if i == j then 1.0 else 0.0
  {
    Build(n, n, (i: nat, j: nat) => if i == j then 1.0 else 0.0)
  }

  /** The trace of the n-by-n identity is n. */
  lemma {:induction false} TraceIdentity(n: nat, k: nat)
    requires k <= n
    ensures DiagonalSum(Identity(n), k) == k as real
  {
    var id := Identity(n);
    assert forall i :: 0 <= i < k ==> At(id, i, i) == 1.0;
    UnitDiagonalSum(id, k);
  }

  /** A diagonal of ones sums to its length. */
  lemma {:induction false} UnitDiagonalSum(m: Mat, k: nat)
    requires Shaped(m) && k <= m.rows && k <= m.cols
    requires forall i :: 0 <= i < k ==> At(m, i, i) == 1.0
    ensures DiagonalSum(m, k) == k as real
  {
    if k > 0 {
      UnitDiagonalSum(m, k - 1);
    }
  }

  /** `setDiag`: a square matrix whose diagonal is `v` and whose other entries are kept. */
  function WithDiagonal(m: Mat, v: real): (r: Mat)
    requires Shaped(m) && m.rows == m.cols
    ensures Shaped(r) && r.rows == m.rows && r.cols == m.cols
    ensures forall i, j :: 0 <= i < m.rows && 0 <= j < m.cols ==>
              At(r, i, j) == if i == j then v else At(m, i, j)
  {
    Build(m.rows, m.cols, (i: nat, j: nat) => if i == j then v else if i < m.rows && j < m.cols then At(m, i, j) else 0.0)
  }

  /** `addDiag`: `v` added to every diagonal entry, the other entries kept. */
  function PlusDiagonal(m: Mat, v: real): (r: Mat)
    requires Shaped(m) && m.rows == m.cols
    ensures Shaped(r) && r.rows == m.rows && r.cols == m.cols
    ensures forall i, j :: 0 <= i < m.rows && 0 <= j < m.cols ==>
              At(r, i, j) == if i == j then At(m, i, j) + v else At(m, i, j)
  {
    Build(m.rows, m.cols, (i: nat, j: nat) => if i < m.rows && j < m.cols then (if i == j then At(m, i, j) + v else At(m, i, j)) else 0.0)
  }

  /** `v` added to itself n times. */
  function Repeated(n: nat, v: real): (r: real)
    ensures r == (n as real) * v
  {
    if n == 0 then 0.0 else
      var r := Repeated(n - 1, v);
      assert (n as real) * v == ((n - 1) as real) * v + v;
      r + v
  }

  /** Adding `v` to the diagonal of an n-by-n matrix raises its trace by n times `v`. */
  lemma {:induction false} TracePlusDiagonal(m: Mat, v: real, n: nat)
    requires Shaped(m) && m.rows == m.cols && n <= m.rows
    ensures DiagonalSum(PlusDiagonal(m, v), n) == DiagonalSum(m, n) + Repeated(n, v)
  {
    if n > 0 {
      TracePlusDiagonal(m, v, n - 1);
      assert At(PlusDiagonal(m, v), n - 1, n - 1) == At(m, n - 1, n - 1) + v;
    }
  }

  /** Entry (i, j) of a product, accumulated over the first n terms. */
  function Dot(a: Mat, b: Mat, i: nat, j: nat, n: nat): real
    requires Shaped(a) && Shaped(b) && i < a.rows && j < b.cols && n <= a.cols && a.cols == b.rows
  {
    if n == 0 then 0.0 else Dot(a, b, i, j, n - 1) + At(a, i, n - 1) * At(b, n - 1, j)
  }

  /** The matrix product of an n-by-k and a k-by-m matrix. */
  function Product(a: Mat, b: Mat): (p: Mat)
    requires Shaped(a) && Shaped(b) && a.cols == b.rows
    ensures Shaped(p) && p.rows == a.rows && p.cols == b.cols
    ensures forall i, j :: 0 <= i < a.rows && 0 <= j < b.cols ==> At(p, i, j) == Dot(a, b, i, j, a.cols)
  {
    Build(a.rows, b.cols, (i: nat, j: nat) => if i < a.rows && j < b.cols then Dot(a, b, i, j, a.cols) else 0.0)
  }

  lemma {:induction false} DotIdentity(a: Mat, i: nat, j: nat, n: nat)
    requires Shaped(a) && i < a.rows && j < a.cols && n <= a.cols
    ensures Dot(a, Identity(a.cols), i, j, n) == if j < n then At(a, i, j) else 0.0
  {
    if n > 0 {
      DotIdentity(a, i, j, n - 1);
      var e := At(Identity(a.cols), n - 1, j);
      if n - 1 == j {
        assert e == 1.0;
      } else {
        assert e == 0.0;
      }
    }
  }

  /** Multiplying by the identity on the right changes nothing. */
  lemma {:induction false} ProductIdentity(a: Mat)
    requires Shaped(a)
    ensures Product(a, Identity(a.cols)) == a
  {
    var p := Product(a, Identity(a.cols));
    forall i, j | 0 <= i < a.rows && 0 <= j < a.cols ensures At(p, i, j) == At(a, i, j) {
      DotIdentity(a, i, j, a.cols);
    }
    Extensionality(p, a);
  }

  /** Entry (i2, j2) of the product loop's state at (i, j, k): entries before (i, j) in
      row-major visiting order are complete, entry (i, j) holds its first k terms, the rest
      are 0. */
  function PartialEntry(a: Mat, b: Mat, i: nat, j: nat, k: nat, i2: nat, j2: nat): real
    requires Shaped(a) && Shaped(b) && a.cols == b.rows && i <= a.rows && j <= b.cols && k <= a.cols
    requires i2 < a.rows && j2 < b.cols
  {
    if i2 < i || (i2 == i && j2 < j) then Dot(a, b, i2, j2, a.cols)
    else if i2 == i && j2 == j then Dot(a, b, i, j, k)
    else 0.0
  }

  /** The whole state of the product loop. */
  function Partial(a: Mat, b: Mat, i: nat, j: nat, k: nat): (p: Mat)
    requires Shaped(a) && Shaped(b) && a.cols == b.rows && i <= a.rows && j <= b.cols && k <= a.cols
    ensures Shaped(p) && p.rows == a.rows && p.cols == b.cols
    ensures forall i2, j2 :: 0 <= i2 < a.rows && 0 <= j2 < b.cols ==>
              At(p, i2, j2) == PartialEntry(a, b, i, j, k, i2, j2)
  {
    Build(a.rows, b.cols, (i2: nat, j2: nat) =>
      if i2 < a.rows && j2 < b.cols then PartialEntry(a, b, i, j, k, i2, j2) else 0.0)
  }

  lemma {:induction false} PartialStart(a: Mat, b: Mat)
    requires Shaped(a) && Shaped(b) && a.cols == b.rows
    ensures Zeros(a.rows, b.cols) == Partial(a, b, 0, 0, 0)
  {
    var z, p := Zeros(a.rows, b.cols), Partial(a, b, 0, 0, 0);
    forall i2, j2 | 0 <= i2 < a.rows && 0 <= j2 < b.cols ensures At(z, i2, j2) == At(p, i2, j2) {
      assert At(p, i2, j2) == PartialEntry(a, b, 0, 0, 0, i2, j2);
    }
    Extensionality(z, p);
  }

  lemma {:induction false} PartialStep(a: Mat, b: Mat, i: nat, j: nat, k: nat)
    requires Shaped(a) && Shaped(b) && a.cols == b.rows && i < a.rows && j < b.cols && k < a.cols
    ensures var p := Partial(a, b, i, j, k);
      Updated(p, i, j, At(p, i, j) + At(a, i, k) * At(b, k, j)) == Partial(a, b, i, j, k + 1)
  {
    var p, q := Partial(a, b, i, j, k), Partial(a, b, i, j, k + 1);
    var x := At(p, i, j) + At(a, i, k) * At(b, k, j);
    var u := Updated(p, i, j, x);
    UpdateAt(p, i, j, x);
    forall i2, j2 | 0 <= i2 < a.rows && 0 <= j2 < b.cols ensures At(u, i2, j2) == At(q, i2, j2) {
      assert At(q, i2, j2) == PartialEntry(a, b, i, j, k + 1, i2, j2);
      assert At(p, i2, j2) == PartialEntry(a, b, i, j, k, i2, j2);
    }
    Extensionality(u, q);
  }

  lemma {:induction false} PartialNextColumn(a: Mat, b: Mat, i: nat, j: nat)
    requires Shaped(a) && Shaped(b) && a.cols == b.rows && i < a.rows && j < b.cols
    ensures Partial(a, b, i, j, a.cols) == Partial(a, b, i, j + 1, 0)
  {
    var p, q := Partial(a, b, i, j, a.cols), Partial(a, b, i, j + 1, 0);
    forall i2, j2 | 0 <= i2 < a.rows && 0 <= j2 < b.cols ensures At(p, i2, j2) == At(q, i2, j2) {
      assert At(q, i2, j2) == PartialEntry(a, b, i, j + 1, 0, i2, j2);
      assert At(p, i2, j2) == PartialEntry(a, b, i, j, a.cols, i2, j2);
    }
    Extensionality(p, q);
  }

  lemma {:induction false} PartialNextRow(a: Mat, b: Mat, i: nat)
    requires Shaped(a) && Shaped(b) && a.cols == b.rows && i < a.rows
    ensures Partial(a, b, i, b.cols, 0) == Partial(a, b, i + 1, 0, 0)
  {
    var p, q := Partial(a, b, i, b.cols, 0), Partial(a, b, i + 1, 0, 0);
    forall i2, j2 | 0 <= i2 < a.rows && 0 <= j2 < b.cols ensures At(p, i2, j2) == At(q, i2, j2) {
      assert At(q, i2, j2) == PartialEntry(a, b, i + 1, 0, 0, i2, j2);
      assert At(p, i2, j2) == PartialEntry(a, b, i, b.cols, 0, i2, j2);
    }
    Extensionality(p, q);
  }

  lemma {:induction false} PartialEnd(a: Mat, b: Mat)
    requires Shaped(a) && Shaped(b) && a.cols == b.rows
    ensures Partial(a, b, a.rows, 0, 0) == Product(a, b)
  {
    var p, q := Partial(a, b, a.rows, 0, 0), Product(a, b);
    forall i2, j2 | 0 <= i2 < a.rows && 0 <= j2 < b.cols ensures At(p, i2, j2) == At(q, i2, j2) {
      assert At(p, i2, j2) == PartialEntry(a, b, a.rows, 0, 0, i2, j2);
    }
    Extensionality(p, q);
  }

  /** Entry-wise sum of two matrices of one shape (`operator+`, `operator+=`). */
  function Sum(a: Mat, b: Mat): (r: Mat)
    requires |a.values| == |b.values|
    ensures r.rows == a.rows && r.cols == a.cols && |r.values| == |a.values|
    ensures forall k :: 0 <= k < |a.values| ==> r.values[k] == a.values[k] + b.values[k]
  {
    Mat(a.rows, a.cols, seq(|a.values|, k requires 0 <= k < |a.values| => a.values[k] + b.values[k]))
  }

  /** Entry-wise difference (`operator-`, `operator-=`). */
  function Difference(a: Mat, b: Mat): (r: Mat)
    requires |a.values| == |b.values|
    ensures r.rows == a.rows && r.cols == a.cols && |r.values| == |a.values|
    ensures forall k :: 0 <= k < |a.values| ==> r.values[k] == a.values[k] - b.values[k]
  {
    Mat(a.rows, a.cols, seq(|a.values|, k requires 0 <= k < |a.values| => a.values[k] - b.values[k]))
  }

  /** Every entry multiplied by a scalar (`operator*(Real)`, `operator*=`). */
  function Scaled(a: Mat, s: real): (r: Mat)
    ensures r.rows == a.rows && r.cols == a.cols && |r.values| == |a.values|
    ensures forall k :: 0 <= k < |a.values| ==> r.values[k] == a.values[k] * s
  {
    Mat(a.rows, a.cols, seq(|a.values|, k requires 0 <= k < |a.values| => a.values[k] * s))
  }

  /** Every entry divided by a scalar (`operator/=`). */
  function Divided(a: Mat, s: real): (r: Mat)
    requires s != 0.0
    ensures r.rows == a.rows && r.cols == a.cols && |r.values| == |a.values|
    ensures forall k :: 0 <= k < |a.values| ==> r.values[k] == a.values[k] / s
  {
    Mat(a.rows, a.cols, seq(|a.values|, k requires 0 <= k < |a.values| => a.values[k] / s))
  }

  /** A scalar added to every entry (`operator+(Real)`, `operator+=(Real)`). */
  function Shifted(a: Mat, s: real): (r: Mat)
    ensures r.rows == a.rows && r.cols == a.cols && |r.values| == |a.values|
    ensures forall k :: 0 <= k < |a.values| ==> r.values[k] == a.values[k] + s
  {
    Mat(a.rows, a.cols, seq(|a.values|, k requires 0 <= k < |a.values| => a.values[k] + s))
  }

  /** Flat entry-wise operations act entry by entry. */
  lemma {:induction false} SumAt(a: Mat, b: Mat, i: nat, j: nat)
    requires Shaped(a) && Shaped(b) && a.rows == b.rows && a.cols == b.cols
    requires i < a.rows && j < a.cols
    ensures Shaped(Sum(a, b)) && At(Sum(a, b), i, j) == At(a, i, j) + At(b, i, j)
  {
    IdxInRange(a.rows, a.cols, i, j);
  }

  /** The trace is additive. */
  lemma {:induction false} TraceSum(a: Mat, b: Mat, n: nat)
    requires Shaped(a) && Shaped(b) && a.rows == b.rows == a.cols == b.cols && n <= a.rows
    ensures Shaped(Sum(a, b)) && DiagonalSum(Sum(a, b), n) == DiagonalSum(a, n) + DiagonalSum(b, n)
  {
    if n > 0 {
      TraceSum(a, b, n - 1);
      SumAt(a, b, n - 1, n - 1);
    }
  }

  /** Subtracting what was added gives back the matrix. */
  lemma {:induction false} SumDifference(a: Mat, b: Mat)
    requires |a.values| == |b.values|
    ensures Difference(Sum(a, b), b) == a
  {
  }

  /** The column-by-column accumulation of `doubleContraction`: columns below `j`, each
      over all rows, of the products of entries at the same place. */
  function Contraction(a: Mat, b: Mat, j: nat): real
    requires Shaped(a) && Shaped(b) && a.rows == b.rows && a.cols == b.cols && j <= a.cols
  {
    if j == 0 then 0.0 else Contraction(a, b, j - 1) + ColumnContraction(a, b, j - 1, a.rows)
  }

  /** The first i rows of column j. */
  function ColumnContraction(a: Mat, b: Mat, j: nat, i: nat): real
    requires Shaped(a) && Shaped(b) && a.rows == b.rows && a.cols == b.cols && j < a.cols && i <= a.rows
  {
    if i == 0 then 0.0 else ColumnContraction(a, b, j, i - 1) + At(a, i - 1, j) * At(b, i - 1, j)
  }

  /** The double contraction A : B of two matrices of one shape. */
  function DoubleContraction(a: Mat, b: Mat): real
    requires Shaped(a) && Shaped(b) && a.rows == b.rows && a.cols == b.cols
  {
    Contraction(a, b, a.cols)
  }

  lemma {:induction false} ColumnContractionSymmetric(a: Mat, b: Mat, j: nat, i: nat)
    requires Shaped(a) && Shaped(b) && a.rows == b.rows && a.cols == b.cols && j < a.cols && i <= a.rows
    ensures ColumnContraction(a, b, j, i) == ColumnContraction(b, a, j, i)
    ensures a == b ==> ColumnContraction(a, b, j, i) >= 0.0
  {
    if i > 0 {
      ColumnContractionSymmetric(a, b, j, i - 1);
      var x := At(a, i - 1, j);
      assert a == b ==> x * x >= 0.0;
    }
  }

  /** The double contraction is symmetric, and a matrix contracted with itself (the square
      of its Frobenius norm) is never negative. */
  lemma {:induction false} ContractionSymmetric(a: Mat, b: Mat, j: nat)
    requires Shaped(a) && Shaped(b) && a.rows == b.rows && a.cols == b.cols && j <= a.cols
    ensures Contraction(a, b, j) == Contraction(b, a, j)
    ensures a == b ==> Contraction(a, b, j) >= 0.0
  {
    if j > 0 {
      ContractionSymmetric(a, b, j - 1);
      ColumnContractionSymmetric(a, b, j - 1, a.rows);
    }
  }

  // ---------------------------------------------------------------------------------
  // The two assertions the code guards its indexing with, as written

  /** The bound `operator()` asserts: the product of the indices below the entry count. */
  predicate EntryGuardAsWritten(m: Mat, i: nat, j: nat)
  {
    i * j < m.rows * m.cols
  }

  /** The bound meant: the entry lies inside the shape. */
  predicate EntryGuard(m: Mat, i: nat, j: nat)
  {
    i < m.rows && j < m.cols
  }

  /** Entry (0, 3) of a 3-by-3 matrix passes the written bound, yet its flat position 9 is
      past the last of the 9 values. */
  lemma EntryGuardAdmitsOutside()
    ensures var m := Zeros(3, 3);
      EntryGuardAsWritten(m, 0, 3) && Idx(m.rows, 0, 3) >= |m.values|
  {
  }

  /** The intended bound keeps every access inside the values. */
  lemma {:induction false} EntryGuardInside(m: Mat, i: nat, j: nat)
    requires Shaped(m) && EntryGuard(m, i, j)
    ensures Idx(m.rows, i, j) < |m.values|
  {
    IdxInRange(m.rows, m.cols, i, j);
  }

  /** The shapes `doubleContraction` asserts: each operand has as many rows as the other has
      columns. */
  predicate ContractionGuardAsWritten(a: Mat, b: Mat)
  {
    a.rows == b.cols && a.cols == b.rows
  }

  /** A 1-by-2 matrix against a 2-by-1 matrix passes that check, but the loop then reads
      entry (0, 1) of the right operand, whose flat position 2 is past its 2 values. */
  lemma ContractionGuardAdmitsOutside()
    ensures var a, b := Zeros(1, 2), Zeros(2, 1);
      ContractionGuardAsWritten(a, b) && 0 < a.rows && 1 < a.cols && Idx(b.rows, 0, 1) >= |b.values|
  {
  }

  /** With the intended check (equal shapes) every entry the loop reads from the right
      operand is inside it. */
  lemma {:induction false} ContractionGuardInside(a: Mat, b: Mat, i: nat, j: nat)
    requires Shaped(a) && Shaped(b) && a.rows == b.rows && a.cols == b.cols
    requires i < a.rows && j < a.cols
    ensures Idx(b.rows, i, j) < |b.values|
  {
    IdxInRange(b.rows, b.cols, i, j);
  }

  // ---------------------------------------------------------------------------------
  // The class

  class ColumnMajorMatrix {
    var nRows: nat
    var nCols: nat
    var nEntries: nat
    var values: seq<real>

    /** The entry count is the product of the dimensions and the vector holds that many
        values. */
    ghost predicate Valid()
      reads this
    {
      nEntries == nRows * nCols && |values| == nEntries
    }

    /** The matrix this object holds. */
    ghost function Value(): Mat
      reads this
    {
      Mat(nRows, nCols, values)
    }

    /** `ColumnMajorMatrix(rows, cols)`: a zero matrix of that shape. */
    constructor(rows: nat, cols: nat)
      ensures Valid() && Value() == Zeros(rows, cols)
    {
      nRows, nCols, nEntries := rows, cols, rows * cols;
      values := seq(rows * cols, _ => 0.0);
      new;
      assert values == Zeros(rows, cols).values;
    }

    /** A matrix holding the given values; how the operations that build a new matrix
        hand over their result. */
    constructor FromValue(m: Mat)
      requires Shaped(m)
      ensures Valid() && Value() == m
    {
      nRows, nCols, nEntries, values := m.rows, m.cols, m.rows * m.cols, m.values;
    }

    /** `numEntries`. */
    method NumEntries() returns (n: nat)
      requires Valid()
      ensures n == nRows * nCols && n == |values|
    {
      n := nEntries;
    }

    /** `reshape`: the new shape is taken; when its size differs from the entry count the
        values are resized to it, keeping the prefix and padding with zeros. */
    method Reshape(rows: nat, cols: nat)
      requires Valid()
      modifies this
      ensures Valid() && nRows == rows && nCols == cols
      ensures cols * rows == old(nEntries) ==> values == old(values)
      ensures values == Resized(old(values), rows * cols)
    {
      if cols * rows == nEntries {
        nRows, nCols := rows, cols;
        assert Resized(values, rows * cols) == values;
      } else {
        nRows, nCols := rows, cols;
        nEntries := nRows * nCols;
        values := Resized(values, nEntries);
      }
    }

    /** `operator()` read, under the intended bound. */
    method Get(i: nat, j: nat) returns (x: real)
      requires Valid() && EntryGuard(Value(), i, j)
      ensures x == At(Value(), i, j)
    {
      EntryGuardInside(Value(), i, j);
      x := values[j * nRows + i];
    }

    /** `operator()` write through the returned reference: only that entry changes. */
    method Set(i: nat, j: nat, x: real)
      requires Valid() && EntryGuard(Value(), i, j)
      modifies this`values
      ensures Valid() && At(Value(), i, j) == x
      ensures forall i2, j2 :: 0 <= i2 < nRows && 0 <= j2 < nCols && (i2 != i || j2 != j) ==>
                At(Value(), i2, j2) == At(old(Value()), i2, j2)
    {
      UpdateAt(Value(), i, j, x);
      EntryGuardInside(Value(), i, j);
      values := values[j * nRows + i := x];
    }

    /** `transpose`: a new matrix with the shape swapped and entry (j, i) taken from
        (i, j); this matrix is untouched. */
    method Transpose() returns (t: ColumnMajorMatrix)
      requires Valid()
      ensures fresh(t) && t.Valid() && t.Value() == Transposed(Value())
    {
      var m := Mat(nRows, nCols, values);
      var r := Zeros(nCols, nRows);
      for i := 0 to nRows
        invariant Shaped(r) && r.rows == nCols && r.cols == nRows
        invariant forall i2, j2 :: 0 <= i2 < nRows && 0 <= j2 < nCols ==>
                    At(r, j2, i2) == if i2 < i then At(m, i2, j2) else 0.0
      {
        for j := 0 to nCols
          invariant Shaped(r) && r.rows == nCols && r.cols == nRows
          invariant forall i2, j2 :: 0 <= i2 < nRows && 0 <= j2 < nCols ==>
                      At(r, j2, i2) == if i2 < i || (i2 == i && j2 < j) then At(m, i2, j2) else 0.0
        {
          UpdateAt(r, j, i, At(m, i, j));
          r := Updated(r, j, i, At(m, i, j));
        }
      }
      Extensionality(r, Transposed(m));
      t := new ColumnMajorMatrix.FromValue(r);
    }

    /** `setDiag` on a square matrix. */
    method SetDiag(v: real)
      requires Valid() && nRows == nCols
      modifies this`values
      ensures Valid() && Value() == WithDiagonal(old(Value()), v)
    {
      var m := Mat(nRows, nCols, values);
      var r := m;
      for i := 0 to nRows
        invariant Shaped(r) && r.rows == m.rows && r.cols == m.cols
        invariant forall i2, j2 :: 0 <= i2 < m.rows && 0 <= j2 < m.cols ==>
                    At(r, i2, j2) == if i2 == j2 && i2 < i then v else At(m, i2, j2)
      {
        UpdateAt(r, i, i, v);
        r := Updated(r, i, i, v);
      }
      values := r.values;
      Extensionality(r, WithDiagonal(m, v));
    }

    /** `addDiag` on a square matrix. */
    method AddDiag(v: real)
      requires Valid() && nRows == nCols
      modifies this`values
      ensures Valid() && Value() == PlusDiagonal(old(Value()), v)
    {
      var m := Mat(nRows, nCols, values);
      var r := m;
      for i := 0 to nRows
        invariant Shaped(r) && r.rows == m.rows && r.cols == m.cols
        invariant forall i2, j2 :: 0 <= i2 < m.rows && 0 <= j2 < m.cols ==>
                    At(r, i2, j2) == if i2 == j2 && i2 < i then At(m, i2, j2) + v else At(m, i2, j2)
      {
        var x := At(r, i, i) + v;
        UpdateAt(r, i, i, x);
        r := Updated(r, i, i, x);
      }
      values := r.values;
      Extensionality(r, PlusDiagonal(m, v));
    }

    /** `tr` of a square matrix. */
    method Tr() returns (trace: real)
      requires Valid() && nRows == nCols
      ensures trace == Trace(Value())
    {
      trace := 0.0;
      for i := 0 to nRows
        invariant trace == DiagonalSum(Value(), i)
      {
        IdxInRange(nRows, nCols, i, i);
        trace := trace + values[i * nRows + i];
      }
    }

    /** `zero`: every value 0, shape kept. */
    method Zero()
      requires Valid()
      modifies this`values
      ensures Valid() && Value() == Zeros(nRows, nCols)
    {
      for k := 0 to nEntries
        invariant |values| == nEntries
        invariant forall k2 :: 0 <= k2 < k ==> values[k2] == 0.0
      {
        values := values[k := 0.0];
      }
      assert values == Zeros(nRows, nCols).values;
    }

    /** `identity` on a square matrix. */
    method SetIdentity()
      requires Valid() && nRows == nCols
      modifies this`values
      ensures Valid() && Value() == Identity(nRows)
    {
      Zero();
      SetDiag(1.0);
      Extensionality(Value(), Identity(nRows));
    }

    /** `doubleContraction` under the intended shape check. */
    method DoubleContract(rhs: ColumnMajorMatrix) returns (value: real)
      requires Valid() && rhs.Valid() && nRows == rhs.nRows && nCols == rhs.nCols
      ensures value == DoubleContraction(Value(), rhs.Value())
    {
      var a, b := Mat(nRows, nCols, values), Mat(rhs.nRows, rhs.nCols, rhs.values);
      value := 0.0;
      for j := 0 to nCols
        invariant value == Contraction(a, b, j)
      {
        for i := 0 to nRows
          invariant value == Contraction(a, b, j) + ColumnContraction(a, b, j, i)
        {
          IdxInRange(nRows, nCols, i, j);
          value := value + values[j * nRows + i] * rhs.values[j * rhs.nRows + i];
        }
      }
    }

    /** `operator=(ColumnMajorMatrix)`: shape, entry count and values are copied. */
    method Assign(rhs: ColumnMajorMatrix)
      requires rhs.Valid()
      modifies this
      ensures Valid() && Value() == old(rhs.Value())
    {
      nRows, nCols, nEntries := rhs.nRows, rhs.nCols, rhs.nEntries;
      var v := Resized(values, nEntries);
      for k := 0 to nEntries
        invariant |v| == nEntries
        invariant forall k2 :: 0 <= k2 < k ==> v[k2] == rhs.values[k2]
      {
        v := v[k := rhs.values[k]];
      }
      values := v;
    }

    /** `operator*(Real)`: a new matrix with every entry scaled. */
    method TimesScalar(s: real) returns (r: ColumnMajorMatrix)
      requires Valid()
      ensures fresh(r) && r.Valid() && r.Value() == Scaled(Value(), s)
    {
      var v := seq(nEntries, _ => 0.0);
      for k := 0 to nEntries
        invariant |v| == nEntries
        invariant forall k2 :: 0 <= k2 < k ==> v[k2] == Scaled(Value(), s).values[k2]
      {
        v := v[k := values[k] * s];
      }
      assert v == Scaled(Value(), s).values;
      r := new ColumnMajorMatrix.FromValue(Mat(nRows, nCols, v));
    }

    /** `operator*(ColumnMajorMatrix)`: the matrix product, accumulated entry by entry into
        a zero matrix. */
    method Times(rhs: ColumnMajorMatrix) returns (p: ColumnMajorMatrix)
      requires Valid() && rhs.Valid() && nCols == rhs.nRows
      ensures fresh(p) && p.Valid() && p.Value() == Product(Value(), rhs.Value())
    {
      var a, b := Mat(nRows, nCols, values), Mat(rhs.nRows, rhs.nCols, rhs.values);
      var n, m := nRows, rhs.nCols;
      var r := Zeros(n, m);
      PartialStart(a, b);
      for i := 0 to n
        invariant r == Partial(a, b, i, 0, 0)
      {
        for j := 0 to m
          invariant r == Partial(a, b, i, j, 0)
        {
          for k := 0 to nCols
            invariant r == Partial(a, b, i, j, k)
          {
            IdxInRange(n, m, i, j);
            var x := r.values[j * n + i] + At(a, i, k) * At(b, k, j);
            PartialStep(a, b, i, j, k);
            r := Updated(r, i, j, x);
          }
          PartialNextColumn(a, b, i, j);
        }
        PartialNextRow(a, b, i);
      }
      PartialEnd(a, b);
      p := new ColumnMajorMatrix.FromValue(r);
    }

    /** `operator+(ColumnMajorMatrix)` on matrices of one shape. */
    method Plus(rhs: ColumnMajorMatrix) returns (r: ColumnMajorMatrix)
      requires Valid() && rhs.Valid() && nRows == rhs.nRows && nCols == rhs.nCols
      ensures fresh(r) && r.Valid() && r.Value() == Sum(Value(), rhs.Value())
    {
      var v := seq(nEntries, _ => 0.0);
      for k := 0 to nEntries
        invariant |v| == nEntries
        invariant forall k2 :: 0 <= k2 < k ==> v[k2] == Sum(Value(), rhs.Value()).values[k2]
      {
        v := v[k := values[k] + rhs.values[k]];
      }
      assert v == Sum(Value(), rhs.Value()).values;
      r := new ColumnMajorMatrix.FromValue(Mat(nRows, nCols, v));
    }

    /** `operator-(ColumnMajorMatrix)` on matrices of one shape. */
    method Minus(rhs: ColumnMajorMatrix) returns (r: ColumnMajorMatrix)
      requires Valid() && rhs.Valid() && nRows == rhs.nRows && nCols == rhs.nCols
      ensures fresh(r) && r.Valid() && r.Value() == Difference(Value(), rhs.Value())
    {
      var v := seq(nEntries, _ => 0.0);
      for k := 0 to nEntries
        invariant |v| == nEntries
        invariant forall k2 :: 0 <= k2 < k ==> v[k2] == Difference(Value(), rhs.Value()).values[k2]
      {
        v := v[k := values[k] - rhs.values[k]];
      }
      assert v == Difference(Value(), rhs.Value()).values;
      r := new ColumnMajorMatrix.FromValue(Mat(nRows, nCols, v));
    }

    /** `operator+=(ColumnMajorMatrix)`. */
    method AddAssign(rhs: ColumnMajorMatrix)
      requires Valid() && rhs.Valid() && nRows == rhs.nRows && nCols == rhs.nCols
      modifies this`values
      ensures Valid() && Value() == Sum(old(Value()), old(rhs.Value()))
    {
      ghost var a, b := Value(), rhs.Value();
      var v := values;
      for k := 0 to nEntries
        invariant |v| == nEntries
        invariant forall k2 :: 0 <= k2 < k ==> v[k2] == Sum(a, b).values[k2]
        invariant forall k2 :: k <= k2 < nEntries ==> v[k2] == a.values[k2]
      {
        v := v[k := v[k] + rhs.values[k]];
      }
      assert v == Sum(a, b).values;
      values := v;
    }

    /** `operator-=(ColumnMajorMatrix)`. */
    method SubAssign(rhs: ColumnMajorMatrix)
      requires Valid() && rhs.Valid() && nRows == rhs.nRows && nCols == rhs.nCols
      modifies this`values
      ensures Valid() && Value() == Difference(old(Value()), old(rhs.Value()))
    {
      ghost var a, b := Value(), rhs.Value();
      var v := values;
      for k := 0 to nEntries
        invariant |v| == nEntries
        invariant forall k2 :: 0 <= k2 < k ==> v[k2] == Difference(a, b).values[k2]
        invariant forall k2 :: k <= k2 < nEntries ==> v[k2] == a.values[k2]
      {
        v := v[k := v[k] - rhs.values[k]];
      }
      assert v == Difference(a, b).values;
      values := v;
    }

    /** `operator+(Real)`: a new matrix with the scalar added to every entry. */
    method PlusScalar(s: real) returns (r: ColumnMajorMatrix)
      requires Valid()
      ensures fresh(r) && r.Valid() && r.Value() == Shifted(Value(), s)
    {
      var v := seq(nEntries, _ => 0.0);
      for k := 0 to nEntries
        invariant |v| == nEntries
        invariant forall k2 :: 0 <= k2 < k ==> v[k2] == Shifted(Value(), s).values[k2]
      {
        v := v[k := values[k] + s];
      }
      assert v == Shifted(Value(), s).values;
      r := new ColumnMajorMatrix.FromValue(Mat(nRows, nCols, v));
    }

    /** `operator*=(Real)`. */
    method ScaleAssign(s: real)
      requires Valid()
      modifies this`values
      ensures Valid() && Value() == Scaled(old(Value()), s)
    {
      ghost var a := Value();
      for k := 0 to nEntries
        invariant |values| == nEntries
        invariant forall k2 :: 0 <= k2 < k ==> values[k2] == Scaled(a, s).values[k2]
        invariant forall k2 :: k <= k2 < nEntries ==> values[k2] == a.values[k2]
      {
        values := values[k := values[k] * s];
      }
      assert values == Scaled(a, s).values;
    }

    /** `operator/=(Real)` by a non-zero scalar. */
    method DivAssign(s: real)
      requires Valid() && s != 0.0
      modifies this`values
      ensures Valid() && Value() == Divided(old(Value()), s)
    {
      ghost var a := Value();
      for k := 0 to nEntries
        invariant |values| == nEntries
        invariant forall k2 :: 0 <= k2 < k ==> values[k2] == Divided(a, s).values[k2]
        invariant forall k2 :: k <= k2 < nEntries ==> values[k2] == a.values[k2]
      {
        values := values[k := values[k] / s];
      }
      assert values == Divided(a, s).values;
    }

    /** `operator+=(Real)`. */
    method AddScalarAssign(s: real)
      requires Valid()
      modifies this`values
      ensures Valid() && Value() == Shifted(old(Value()), s)
    {
      ghost var a := Value();
      for k := 0 to nEntries
        invariant |values| == nEntries
        invariant forall k2 :: 0 <= k2 < k ==> values[k2] == Shifted(a, s).values[k2]
        invariant forall k2 :: k <= k2 < nEntries ==> values[k2] == a.values[k2]
      {
        values := values[k := values[k] + s];
      }
      assert values == Shifted(a, s).values;
    }

    /** `operator==`: entry count, rows and columns agree, then the values one by one. */
    method Equals(rhs: ColumnMajorMatrix) returns (eq: bool)
      requires Valid() && rhs.Valid()
      ensures eq <==> Value() == rhs.Value()
    {
      if nEntries != rhs.nEntries || nRows != rhs.nRows || nCols != rhs.nCols {
        return false;
      }
      eq := true;
      for k := 0 to nEntries
        invariant eq <==> values[..k] == rhs.values[..k]
      {
        assert values[..k + 1] == values[..k] + [values[k]];
        assert rhs.values[..k + 1] == rhs.values[..k] + [rhs.values[k]];
        if values[k] != rhs.values[k] {
          eq := false;
        }
      }
      assert values[..nEntries] == values && rhs.values[..nEntries] == rhs.values;
    }

    /** `operator!=`: the negation of `==`. */
    method NotEquals(rhs: ColumnMajorMatrix) returns (ne: bool)
      requires Valid() && rhs.Valid()
      ensures ne <==> Value() != rhs.Value()
    {
      var eq := Equals(rhs);
      ne := !eq;
    }
  }
}
