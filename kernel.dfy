/** The imperative part of the program: the row-major fill of a buffer, the
    triple-loop multiply kernel, and the main routine that ties validation,
    allocation, fill and multiply together. Buffers are arrays of `int`; the
    ghost `writes` results record, in order, the offset of every element a
    method writes, so that "each element written exactly once" can be stated. */
module Kernel {
  import opened RowMajor
  import opened Matrices
  import opened Dimensions

  /** The offsets 0, 1, ..., size - 1 in increasing order. */
  function Ascending(size: nat): (s: seq<nat>)
  {
    seq(size, t requires 0 <= t < size => t)
  }

  /** A write trace equal to Ascending(size) writes every offset in [0, size)
      exactly once and no offset outside it. */
  lemma {:induction false} AscendingOnce(size: nat, p: int)
    ensures multiset(Ascending(size))[p] == if 0 <= p < size then 1 else 0
  {
    if size > 0 {
      AscendingOnce(size - 1, p);
      assert Ascending(size) == Ascending(size - 1) + [size - 1];
    }
  }

  /** Fills the first dimM*dimN elements of `arr` row by row, element (i, j)
      receiving the next value of the generator. `stream` is the generator's
      sequence of values and `drawn` the number of values taken before this
      call, so element p receives stream(drawn + p). */
  method FillMatrix(arr: array<int>, dimM: nat, dimN: nat, stream: nat -> int, drawn: nat)
    returns (ghost writes: seq<nat>)
    requires dimM * dimN <= arr.Length
    modifies arr
    ensures forall p :: 0 <= p < dimM * dimN ==> arr[p] == stream(drawn + p)
    ensures forall p :: dimM * dimN <= p < arr.Length ==> arr[p] == old(arr[p])
    ensures writes == Ascending(dimM * dimN)
  {
    writes := [];
    ghost var pos := 0;  // offset of element (i, j): the number of elements written so far
    var i := 0;
    while i < dimM
      invariant i <= dimM && pos == Offset(i, 0, dimN) && pos <= dimM * dimN
      invariant forall p :: 0 <= p < pos ==> arr[p] == stream(drawn + p)
      invariant forall p :: pos <= p < arr.Length ==> arr[p] == old(arr[p])
      invariant writes == Ascending(pos)
    {
      var j := 0;
      while j < dimN
        invariant j <= dimN && pos == Offset(i, j, dimN) && pos <= dimM * dimN
        invariant forall p :: 0 <= p < pos ==> arr[p] == stream(drawn + p)
        invariant forall p :: pos <= p < arr.Length ==> arr[p] == old(arr[p])
        invariant writes == Ascending(pos)
      {
        OffsetInBounds(i, j, dimM, dimN);
        arr[Offset(i, j, dimN)] := stream(drawn + Offset(i, j, dimN));
        writes := writes + [Offset(i, j, dimN)];
        pos := pos + 1;
        j := j + 1;
      }
      OffsetNextRow(i, dimN);
      MulMono(i + 1, dimM, dimN);
      i := i + 1;
    }
  }

  /** The inner loop of the kernel for output cell (i, j): an accumulator
      reset to 0 and then increased by A(i, k) * B(k, j) for k = 0, 1, ..., m - 1.
      Every element it reads lies inside the buffers. */
  method DotProduct(a: array<int>, b: array<int>, l: nat, m: nat, n: nat, i: nat, j: nat)
    returns (dotProd: int)
    requires a.Length == l * m && b.Length == m * n && i < l && j < n
    ensures dotProd == Dot(Matrix(l, m, a[..]), Matrix(m, n, b[..]), i, j, m)
  {
    dotProd := 0;
    var k := 0;
    while k < m
      invariant k <= m
      invariant dotProd == Dot(Matrix(l, m, a[..]), Matrix(m, n, b[..]), i, j, k)
    {
      OffsetInBounds(i, k, l, m);
      OffsetInBounds(k, j, m, n);
      dotProd := dotProd + a[Offset(i, k, m)] * b[Offset(k, j, n)];
      k := k + 1;
    }
  }

  /** C := A x B for the l-by-m matrix in `a` and the m-by-n matrix in `b`, all
      three stored row-major. Output cells are visited in row-major order; each
      is computed in a local accumulator reset to 0 and then written once. */
  method Multiply(a: array<int>, b: array<int>, c: array<int>, l: nat, m: nat, n: nat)
    returns (ghost writes: seq<nat>)
    requires a.Length == l * m && b.Length == m * n && c.Length == l * n
    requires c != a && c != b
    modifies c
    ensures forall i, j :: 0 <= i < l && 0 <= j < n ==>
      Matrix(l, n, c[..]).Get(i, j) == Dot(Matrix(l, m, a[..]), Matrix(m, n, b[..]), i, j, m)
    ensures Matrix(l, n, c[..]) == Product(Matrix(l, m, a[..]), Matrix(m, n, b[..]))
    ensures a[..] == old(a[..]) && b[..] == old(b[..])
    ensures writes == Ascending(l * n)
  {
    ghost var ma, mb := Matrix(l, m, a[..]), Matrix(m, n, b[..]);
    writes := [];
    ghost var pos := 0;  // offset of output cell (i, j) in row-major order
    var i := 0;
    while i < l
      invariant i <= l && pos == Offset(i, 0, n) && pos <= l * n
      // cells already visited hold their final dot products
      invariant forall i', j' :: 0 <= i' < i && 0 <= j' < n ==>
        Matrix(l, n, c[..]).Get(i', j') == Dot(ma, mb, i', j', m)
      // cells not yet visited have not been written
      invariant forall p :: pos <= p < c.Length ==> c[p] == old(c[p])
      invariant writes == Ascending(pos)
    {
      var j := 0;
      while j < n
        invariant j <= n && pos == Offset(i, j, n) && pos <= l * n
        invariant forall i', j' :: (0 <= i' < i && 0 <= j' < n) || (i' == i && 0 <= j' < j) ==>
          Matrix(l, n, c[..]).Get(i', j') == Dot(ma, mb, i', j', m)
        invariant forall p :: pos <= p < c.Length ==> c[p] == old(c[p])
        invariant writes == Ascending(pos)
      {
        var dotProd := DotProduct(a, b, l, m, n, i, j);
        OffsetInBounds(i, j, l, n);
        forall i', j' | 0 <= i' < i && 0 <= j' < n
          ensures Offset(i', j', n) < pos
        {
          OffsetRowOrder(i', j', i, j, n);
        }
        c[Offset(i, j, n)] := dotProd;
        writes := writes + [Offset(i, j, n)];
        pos := pos + 1;
        j := j + 1;
      }
      OffsetNextRow(i, n);
      MulMono(i + 1, l, n);
      i := i + 1;
    }
    ProductFromCells(ma, mb, Matrix(l, n, c[..]));
  }

  /** What a run of the program ends with: validation rejected the arguments,
      or the three buffers after the multiply. */
  datatype Outcome =
    | Aborted(error: DimError)
    | Finished(dims: Dims, a: seq<int>, b: seq<int>, c: seq<int>)

  /** The main routine: validate the arguments, allocate A, B and C, fill A
      and then B from one generator stream, and multiply. Nothing is
      allocated when validation fails. */
  method Run(args: seq<int>, stream: nat -> int) returns (r: Outcome)
    ensures r.Aborted? <==> GetIndexSize(args).Err?
    ensures r.Aborted? ==> r.error == GetIndexSize(args).error
    ensures r.Finished? ==> r.dims == GetIndexSize(args).value && r.dims.Positive()
    ensures r.Finished? ==>
      var l, m, n := r.dims.l as nat, r.dims.m as nat, r.dims.n as nat;
      && r.a == seq(l * m, p requires 0 <= p < l * m => stream(p))
      && r.b == seq(m * n, p requires 0 <= p < m * n => stream(l * m + p))
      && Matrix(l, n, r.c) == Product(Matrix(l, m, r.a), Matrix(m, n, r.b))
  {
    var dims := GetIndexSize(args);
    if dims.Err? {
      return Aborted(dims.error);
    }
    var l, m, n := dims.value.l as nat, dims.value.m as nat, dims.value.n as nat;
    var a := new int[l * m];
    var b := new int[m * n];
    var c := new int[l * n];
    ghost var writesA := FillMatrix(a, l, m, stream, 0);
    ghost var writesB := FillMatrix(b, m, n, stream, l * m);
    ghost var writesC := Multiply(a, b, c, l, m, n);
    assert a[..] == seq(l * m, p requires 0 <= p < l * m => stream(p));
    assert b[..] == seq(m * n, p requires 0 <= p < m * n => stream(l * m + p));
    r := Finished(dims.value, a[..], b[..], c[..]);
  }
}
