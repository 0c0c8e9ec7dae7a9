/** The mathematical meaning of the multiply kernel: a matrix is a shape plus a
    flat row-major buffer, a cell of the product is the dot product of a row of
    the left factor with a column of the right factor, accumulated from k = 0
    upwards exactly as the kernel's accumulator does. */
module Matrices {
  import opened RowMajor

  /** A rows-by-cols matrix stored row-major in `data`. */
  datatype Matrix = Matrix(rows: nat, cols: nat, data: seq<int>)
  {
    /** The buffer has exactly one element per cell. */
    predicate Valid()
    {
      |data| == rows * cols
    }

    /** Element (i, j), read at its row-major offset. */
    function Get(i: nat, j: nat): (x: int)
      requires Valid() && i < rows && j < cols
    {
      OffsetInBounds(i, j, rows, cols);
      data[Offset(i, j, cols)]
    }
  }

  /** A is l-by-m and B is m-by-n for some l, m, n. */
  predicate Conformable(a: Matrix, b: Matrix)
  {
    a.Valid() && b.Valid() && a.cols == b.rows
  }

  /** The accumulator after k steps of the inner loop for output cell (i, j):
      the sum of a(i, t) * b(t, j) for t in [0, k), added in increasing t. */
  function Dot(a: Matrix, b: Matrix, i: nat, j: nat, k: nat): (s: int)
    requires Conformable(a, b) && i < a.rows && j < b.cols && k <= a.cols
  {
    if k == 0 then 0 else Dot(a, b, i, j, k - 1) + a.Get(i, k - 1) * b.Get(k - 1, j)
  }

  /** The product of an l-by-m and an m-by-n matrix: an l-by-n matrix whose cell
      at offset p is the full dot product for row p / n and column p % n. */
  function Product(a: Matrix, b: Matrix): (c: Matrix)
    requires Conformable(a, b)
    ensures c.Valid() && c.rows == a.rows && c.cols == b.cols
  {
    Matrix(a.rows, b.cols,
      seq(a.rows * b.cols, p requires 0 <= p < a.rows * b.cols =>
        OffsetSplit(p, a.rows, b.cols);
        Dot(a, b, p / b.cols, p % b.cols, a.cols)))
  }

  /** The m-by-m identity matrix. */
  function Identity(m: nat): (e: Matrix)
    ensures e.Valid() && e.rows == m && e.cols == m
  {
    Matrix(m, m, seq(m * m, p requires 0 <= p < m * m =>
      OffsetSplit(p, m, m);
      if p / m == p % m then 1 else 0))
  }

  /** The rows-by-cols matrix of zeros. */
  function Zero(rows: nat, cols: nat): (z: Matrix)
  {
    Matrix(rows, cols, seq(rows * cols, _ => 0))
  }

  /** Every cell of the product holds the dot product of its row of `a` and its column of `b`. */
  lemma ProductGet(a: Matrix, b: Matrix, i: nat, j: nat)
    requires Conformable(a, b) && i < a.rows && j < b.cols
    ensures Product(a, b).Get(i, j) == Dot(a, b, i, j, a.cols)
  {
    OffsetInBounds(i, j, a.rows, b.cols);
    DivModOffset(i, j, b.cols);
  }

  /** Two matrices of one shape that agree on every cell are equal. */
  lemma Extensionality(x: Matrix, y: Matrix)
    requires x.Valid() && y.Valid() && x.rows == y.rows && x.cols == y.cols
    requires forall i, j :: 0 <= i < x.rows && 0 <= j < x.cols ==> x.Get(i, j) == y.Get(i, j)
    ensures x == y
  {
    forall p | 0 <= p < |x.data|
      ensures x.data[p] == y.data[p]
    {
      OffsetSplit(p, x.rows, x.cols);
      assert x.Get(p / x.cols, p % x.cols) == y.Get(p / x.cols, p % x.cols);
    }
  }

  /** The product is the only matrix of its shape whose every cell holds the
      dot product of its row of `a` and its column of `b`. */
  lemma ProductFromCells(a: Matrix, b: Matrix, c: Matrix)
    requires Conformable(a, b) && c.Valid() && c.rows == a.rows && c.cols == b.cols
    requires forall i, j :: 0 <= i < c.rows && 0 <= j < c.cols ==> c.Get(i, j) == Dot(a, b, i, j, a.cols)
    ensures c == Product(a, b)
  {
    forall i, j | 0 <= i < c.rows && 0 <= j < c.cols
      ensures c.Get(i, j) == Product(a, b).Get(i, j)
    {
      ProductGet(a, b, i, j);
    }
    Extensionality(c, Product(a, b));
  }

  /** Cells of the identity: one on the diagonal, zero elsewhere. */
  lemma IdentityGet(m: nat, i: nat, j: nat)
    requires i < m && j < m
    ensures Identity(m).Get(i, j) == if i == j then 1 else 0
  {
    OffsetInBounds(i, j, m, m);
    DivModOffset(i, j, m);
  }

  /** Multiplying row i of `a` by column j of the identity picks out a(i, j)
      once the accumulation has passed t = j. */
  lemma {:induction false} DotIdentityRight(a: Matrix, i: nat, j: nat, k: nat)
    requires a.Valid() && i < a.rows && j < a.cols && k <= a.cols
    ensures Dot(a, Identity(a.cols), i, j, k) == if j < k then a.Get(i, j) else 0
  {
    if k > 0 {
      DotIdentityRight(a, i, j, k - 1);
      IdentityGet(a.cols, k - 1, j);
    }
  }

  /** Multiplying row i of the identity by column j of `b` picks out b(i, j)
      once the accumulation has passed t = i. */
  lemma {:induction false} DotIdentityLeft(b: Matrix, i: nat, j: nat, k: nat)
    requires b.Valid() && i < b.rows && j < b.cols && k <= b.rows
    ensures Dot(Identity(b.rows), b, i, j, k) == if i < k then b.Get(i, j) else 0
  {
    if k > 0 {
      DotIdentityLeft(b, i, j, k - 1);
      IdentityGet(b.rows, i, k - 1);
    }
  }

  /** A times the identity is A. */
  lemma ProductIdentityRight(a: Matrix)
    requires a.Valid()
    ensures Product(a, Identity(a.cols)) == a
  {
    var c := Product(a, Identity(a.cols));
    forall i, j | 0 <= i < a.rows && 0 <= j < a.cols
      ensures c.Get(i, j) == a.Get(i, j)
    {
      ProductGet(a, Identity(a.cols), i, j);
      DotIdentityRight(a, i, j, a.cols);
    }
    Extensionality(c, a);
  }

  /** The identity times B is B. */
  lemma ProductIdentityLeft(b: Matrix)
    requires b.Valid()
    ensures Product(Identity(b.rows), b) == b
  {
    var c := Product(Identity(b.rows), b);
    forall i, j | 0 <= i < b.rows && 0 <= j < b.cols
      ensures c.Get(i, j) == b.Get(i, j)
    {
      ProductGet(Identity(b.rows), b, i, j);
      DotIdentityLeft(b, i, j, b.rows);
    }
    Extensionality(c, b);
  }

  /** Every partial dot product against a zero column is zero. */
  lemma {:induction false} DotZero(a: Matrix, n: nat, i: nat, j: nat, k: nat)
    requires a.Valid() && i < a.rows && j < n && k <= a.cols
    ensures Dot(a, Zero(a.cols, n), i, j, k) == 0
  {
    if k > 0 {
      DotZero(a, n, i, j, k - 1);
      OffsetInBounds(k - 1, j, a.cols, n);
    }
  }

  /** A times a zero matrix is the zero matrix of the product's shape. */
  lemma ProductZero(a: Matrix, n: nat)
    requires a.Valid()
    ensures Product(a, Zero(a.cols, n)) == Zero(a.rows, n)
  {
    var c := Product(a, Zero(a.cols, n));
    forall i, j | 0 <= i < a.rows && 0 <= j < n
      ensures c.Get(i, j) == Zero(a.rows, n).Get(i, j)
    {
      ProductGet(a, Zero(a.cols, n), i, j);
      DotZero(a, n, i, j, a.cols);
      OffsetInBounds(i, j, a.rows, n);
    }
    Extensionality(c, Zero(a.rows, n));
  }

  /** The product of two 1-by-1 matrices is the 1-by-1 matrix of the product of their elements. */
  lemma ProductOneByOne(x: int, y: int)
    ensures Product(Matrix(1, 1, [x]), Matrix(1, 1, [y])) == Matrix(1, 1, [x * y])
  {
    var c := Product(Matrix(1, 1, [x]), Matrix(1, 1, [y]));
    ProductGet(Matrix(1, 1, [x]), Matrix(1, 1, [y]), 0, 0);
    Extensionality(c, Matrix(1, 1, [x * y]));
  }

  /** A partial dot product for cell (i, j) depends only on row i of the left
      factor and column j of the right factor, up to the steps taken: cells
      of the product can be computed independently of one another. */
  lemma {:induction false} DotLocal(a: Matrix, b: Matrix, a': Matrix, b': Matrix, i: nat, j: nat, k: nat)
    requires Conformable(a, b) && Conformable(a', b')
    requires i < a.rows && i < a'.rows && j < b.cols && j < b'.cols
    requires k <= a.cols && k <= a'.cols
    requires forall t :: 0 <= t < k ==> a.Get(i, t) == a'.Get(i, t) && b.Get(t, j) == b'.Get(t, j)
    ensures Dot(a, b, i, j, k) == Dot(a', b', i, j, k)
  {
    if k > 0 {
      DotLocal(a, b, a', b', i, j, k - 1);
    }
  }
}
