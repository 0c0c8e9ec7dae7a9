/** Matrix multiplication as the kernel defines it is associative:
    (A x B) x C == A x (B x C). The proof exchanges the two summations of the
    triple sum of a(i, t) * b(t, q) * c(q, j), which is also why the value of
    every output cell does not depend on the order in which the kernel visits
    the cells or the terms (for exact arithmetic). */
module Associativity {
  import opened Matrices

  /** Sum over q < width of (the first `depth` terms of the dot product for
      cell (i, q) of A x B) times c(q, j): the left association, summed
      column by column of the middle product. */
  function LeftSum(a: Matrix, b: Matrix, c: Matrix, i: nat, j: nat, depth: nat, width: nat): (s: int)
    requires Conformable(a, b) && Conformable(b, c)
    requires i < a.rows && j < c.cols && depth <= a.cols && width <= b.cols
  {
    if width == 0 then 0
    else LeftSum(a, b, c, i, j, depth, width - 1) + Dot(a, b, i, width - 1, depth) * c.Get(width - 1, j)
  }

  /** Sum over t < depth of a(i, t) times (the first `width` terms of the dot
      product for cell (t, j) of B x C): the right association. */
  function RightSum(a: Matrix, b: Matrix, c: Matrix, i: nat, j: nat, depth: nat, width: nat): (s: int)
    requires Conformable(a, b) && Conformable(b, c)
    requires i < a.rows && j < c.cols && depth <= a.cols && width <= b.cols
  {
    if depth == 0 then 0
    else RightSum(a, b, c, i, j, depth - 1, width) + a.Get(i, depth - 1) * Dot(b, c, depth - 1, j, width)
  }

  /** Adding one more term to the inner dot products of the left association
      adds a(i, depth) times a partial row-by-column product of B and C. */
  lemma {:induction false} LeftSumStep(a: Matrix, b: Matrix, c: Matrix, i: nat, j: nat, depth: nat, width: nat)
    requires Conformable(a, b) && Conformable(b, c)
    requires i < a.rows && j < c.cols && depth < a.cols && width <= b.cols
    ensures LeftSum(a, b, c, i, j, depth + 1, width)
         == LeftSum(a, b, c, i, j, depth, width) + a.Get(i, depth) * Dot(b, c, depth, j, width)
  {
    if width > 0 {
      var q := width - 1;
      LeftSumStep(a, b, c, i, j, depth, q);
      var x, y, z := a.Get(i, depth), b.Get(depth, q), c.Get(q, j);
      assert Dot(a, b, i, q, depth + 1) == Dot(a, b, i, q, depth) + x * y;
      assert Dot(b, c, depth, j, width) == Dot(b, c, depth, j, q) + y * z;
      Regroup(LeftSum(a, b, c, i, j, depth, q), Dot(b, c, depth, j, q), Dot(a, b, i, q, depth), x, y, z);
    }
  }

  /** The ring identity behind one step of the exchange of summations. */
  lemma Regroup(s: int, e: int, d: int, x: int, y: int, z: int)
    ensures s + x * e + (d + x * y) * z == (s + d * z) + x * (e + y * z)
  {
    assert (d + x * y) * z == d * z + (x * y) * z;
    assert x * (e + y * z) == x * e + x * (y * z);
    assert (x * y) * z == x * (y * z);
  }

  /** With no terms in the inner dot products, the left association is zero. */
  lemma {:induction false} LeftSumEmpty(a: Matrix, b: Matrix, c: Matrix, i: nat, j: nat, width: nat)
    requires Conformable(a, b) && Conformable(b, c)
    requires i < a.rows && j < c.cols && width <= b.cols
    ensures LeftSum(a, b, c, i, j, 0, width) == 0
  {
    if width > 0 {
      LeftSumEmpty(a, b, c, i, j, width - 1);
    }
  }

  /** The two orders of summation agree. */
  lemma {:induction false} SumsExchange(a: Matrix, b: Matrix, c: Matrix, i: nat, j: nat, depth: nat, width: nat)
    requires Conformable(a, b) && Conformable(b, c)
    requires i < a.rows && j < c.cols && depth <= a.cols && width <= b.cols
    ensures LeftSum(a, b, c, i, j, depth, width) == RightSum(a, b, c, i, j, depth, width)
  {
    if depth == 0 {
      LeftSumEmpty(a, b, c, i, j, width);
    } else {
      SumsExchange(a, b, c, i, j, depth - 1, width);
      LeftSumStep(a, b, c, i, j, depth - 1, width);
    }
  }

  /** A cell of (A x B) x C, partially accumulated, is the left association. */
  lemma {:induction false} DotOfLeftProduct(a: Matrix, b: Matrix, c: Matrix, i: nat, j: nat, width: nat)
    requires Conformable(a, b) && Conformable(b, c)
    requires i < a.rows && j < c.cols && width <= b.cols
    ensures Dot(Product(a, b), c, i, j, width) == LeftSum(a, b, c, i, j, a.cols, width)
  {
    if width > 0 {
      DotOfLeftProduct(a, b, c, i, j, width - 1);
      ProductGet(a, b, i, width - 1);
    }
  }

  /** A cell of A x (B x C), partially accumulated, is the right association. */
  lemma {:induction false} DotOfRightProduct(a: Matrix, b: Matrix, c: Matrix, i: nat, j: nat, depth: nat)
    requires Conformable(a, b) && Conformable(b, c)
    requires i < a.rows && j < c.cols && depth <= a.cols
    ensures Dot(a, Product(b, c), i, j, depth) == RightSum(a, b, c, i, j, depth, b.cols)
  {
    if depth > 0 {
      DotOfRightProduct(a, b, c, i, j, depth - 1);
      ProductGet(b, c, depth - 1, j);
    }
  }

  /** (A x B) x C == A x (B x C) for an l-by-m A, an m-by-p B and a p-by-n C. */
  lemma ProductAssociative(a: Matrix, b: Matrix, c: Matrix)
    requires Conformable(a, b) && Conformable(b, c)
    ensures Product(Product(a, b), c) == Product(a, Product(b, c))
  {
    var ab, bc := Product(a, b), Product(b, c);
    forall i, j | 0 <= i < a.rows && 0 <= j < c.cols
      ensures Product(ab, c).Get(i, j) == Product(a, bc).Get(i, j)
    {
      ProductGet(ab, c, i, j);
      ProductGet(a, bc, i, j);
      DotOfLeftProduct(a, b, c, i, j, b.cols);
      DotOfRightProduct(a, b, c, i, j, a.cols);
      SumsExchange(a, b, c, i, j, a.cols, b.cols);
    }
    Extensionality(Product(ab, c), Product(a, bc));
  }
}
