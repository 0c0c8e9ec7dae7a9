/** Row-major addressing of a flat buffer that holds a two-dimensional matrix.
    The program reaches element (i, j) of a matrix with `cols` columns at
    offset `i*cols + j` of its buffer (the A, B and C macros). The lemmas
    below are the facts about that addressing which every traversal needs:
    the offset stays inside a `rows*cols` buffer, distinct cells have
    distinct offsets, consecutive cells have consecutive offsets, and every
    offset of the buffer belongs to exactly one cell. */
module RowMajor {

  /** Offset of element (i, j) in a row-major buffer with `cols` columns. */
  function Offset(i: nat, j: nat, cols: nat): (p: nat)
  {
    i * cols + j
  }

  /** Multiplication by a natural number is monotonic. */
  lemma {:induction false} MulMono(x: nat, y: nat, c: nat)
    requires x <= y
    ensures x * c <= y * c
  {
    if x < y {
      MulMono(x, y - 1, c);
      assert y * c == (y - 1) * c + c;
    }
  }

  /** Every cell of a rows-by-cols matrix lies inside a buffer of rows*cols elements. */
  lemma OffsetInBounds(i: nat, j: nat, rows: nat, cols: nat)
    requires i < rows && j < cols
    ensures Offset(i, j, cols) < rows * cols
  {
    MulMono(i + 1, rows, cols);
    assert (i + 1) * cols == i * cols + cols;
  }

  /** The cell after the last one of row i is the first one of row i + 1. */
  lemma OffsetNextRow(i: nat, cols: nat)
    ensures Offset(i, cols, cols) == Offset(i + 1, 0, cols)
  {
    assert (i + 1) * cols == i * cols + cols;
  }

  /** Cells in an earlier row come before every cell of a later row. */
  lemma OffsetRowOrder(i: nat, j: nat, i': nat, j': nat, cols: nat)
    requires i < i' && j < cols
    ensures Offset(i, j, cols) < Offset(i', j', cols)
  {
    MulMono(i + 1, i', cols);
    assert (i + 1) * cols == i * cols + cols;
  }

  /** Two cells of a matrix with `cols` columns share an offset only if they are the same cell. */
  lemma OffsetInjective(i: nat, j: nat, i': nat, j': nat, cols: nat)
    requires j < cols && j' < cols
    requires Offset(i, j, cols) == Offset(i', j', cols)
    ensures i == i' && j == j'
  {
    if i < i' {
      OffsetRowOrder(i, j, i', j', cols);
    } else if i' < i {
      OffsetRowOrder(i', j', i, j, cols);
    }
  }

  /** The row i and column j of cell (i, j) are recovered from its offset Offset(i, j, cols) by integer division and remainder by `cols`. */
  lemma DivModOffset(i: nat, j: nat, cols: nat)
    requires j < cols
    ensures Offset(i, j, cols) / cols == i
    ensures Offset(i, j, cols) % cols == j
  {
    var p := Offset(i, j, cols);
    var q, r := p / cols, p % cols;
    assert p == q * cols + r;
    assert 0 <= r < cols;
    OffsetInjective(i, j, q, r, cols);
  }

  /** Every offset below rows*cols is the offset of a cell of the matrix, namely
      of row p / cols and column p % cols. */
  lemma OffsetSplit(p: nat, rows: nat, cols: nat)
    requires p < rows * cols
    ensures cols > 0
    ensures p / cols < rows && p % cols < cols
    ensures Offset(p / cols, p % cols, cols) == p
  {
    var q, r := p / cols, p % cols;
    assert p == q * cols + r;
    if q >= rows {
      MulMono(rows, q, cols);
    }
  }
}
