# Serial dense matrix multiplication, modelled in Dafny

The program computes C = A × B. A is an l×m matrix, B is m×n and C is l×n.
All three are flat buffers in row-major order: element (i, j) of a matrix with
`cols` columns sits at offset `i*cols + j`. The program runs in four steps:

1. It validates the dimensions given on the command line. One argument means
   square matrices; three arguments give l, m and n.
2. It allocates the three buffers.
3. It fills A and then B, row by row, from a seeded random generator.
4. It multiplies with a triple loop. For each output cell it resets an
   accumulator to 0, adds `A(i,k)*B(k,j)` for k from 0 to m-1, and then
   writes the cell once.

The model has five modules:

- `RowMajor` (`row_major.dfy`) models the `A`/`B`/`C` addressing macros as
  `Offset(i, j, cols)`. Its lemmas show that an offset stays inside a
  `rows*cols` buffer, that distinct cells have distinct offsets, and that every
  offset below `rows*cols` belongs to exactly one cell.
- `Matrices` (`matrices.dfy`) is the specification. A `Matrix` value is a shape
  plus its row-major data. `Dot(a, b, i, j, k)` is the accumulator after k
  steps of the inner loop. `Product` is the full result. Lemmas give the
  product's cells, show it is unique, and prove the identity, zero, 1×1 and
  locality properties.
- `Associativity` (`associativity.dfy`) proves (A×B)×C = A×(B×C). The proof
  exchanges the order of the double summation.
- `Dimensions` (`dimensions.dfy`) models `get_index_size` as a pure function
  returning either the dimension triple or an error kind, in place of
  `exit(1)`.
- `Kernel` (`kernel.dfy`) holds the imperative code, as methods over
  `array<int>`:
  - `FillMatrix` is the fill loop.
  - `Multiply` is the kernel. Its inner accumulation loop is the method
    `DotProduct`, which keeps the proof of the outer loops small.
  - `Run` is `main` without the console output and timing.

  A ghost result `writes` lists every offset a method writes, in order.
  `writes == Ascending(size)` therefore says that each element is written
  exactly once, in row-major order.

Inputs the program gets from outside become parameters:

- The command-line arguments arrive already converted to integers (`args` is
  argv[1..]; the argument count is `|args| + 1`).
- The random generator is a total function `stream: nat -> int` giving its k-th
  value. A takes values 0 to l*m-1 of the stream, and B takes the next m*n.

Elements are `int`, so every equation about the product is exact.

There is no shape-mismatch error (A's columns against B's rows) in the code:
one (l, m, n) triple fixes all three shapes, so a mismatch cannot arise. The
model follows the code and has no such error either.
`Multiply` takes the triple and buffer lengths `l*m`, `m*n` and `l*n`.

## Model

| member | source | states |
|---|---|---|
| `RowMajor.OffsetInBounds` | 2015/fall/cpe412/hw3/src/mm_mult_serial.cpp:84-86 | for i < rows and j < cols, the macro offset `i*cols+j` is below `rows*cols`, so every access through A, B or C stays inside its buffer |
| `RowMajor.OffsetInjective` | 2015/fall/cpe412/hw3/src/mm_mult_serial.cpp:84-86 | two cells with columns below `cols` share an offset only if they are the same cell |
| `RowMajor.OffsetSplit` | 2015/fall/cpe412/hw3/src/mm_mult_serial.cpp:84-86 | every offset p below `rows*cols` is the offset of cell (p / cols, p % cols), and that cell lies inside the matrix |
| `RowMajor.DivModOffset` | 2015/fall/cpe412/hw3/src/mm_mult_serial.cpp:84-86 | the row and column of a cell are recovered from its offset by division and remainder by `cols` |
| `Matrices.Product` | 2015/fall/cpe412/hw3/src/mm_mult_serial.cpp:162-164 | the product of an l×m and an m×n matrix is an l×n matrix whose buffer has exactly l*n elements |
| `Matrices.ProductGet` | 2015/fall/cpe412/hw3/src/mm_mult_serial.cpp:198-206 | cell (i, j) of the product is the sum of A(i,k)*B(k,j) over k < m, accumulated from k = 0 upwards |
| `Matrices.ProductFromCells` | 2015/fall/cpe412/hw3/src/mm_mult_serial.cpp:198-206 | a matrix of the product's shape whose every cell holds its row-by-column dot product is the product: writing every cell with its dot product leaves nothing else to decide |
| `Matrices.DotLocal` | 2015/fall/cpe412/hw3/src/mm_mult_serial.cpp:200-203 | the accumulator for cell (i, j) depends only on row i of A and column j of B, so cells can be computed independently |
| `Matrices.ProductIdentityRight` | 2015/fall/cpe412/hw3/src/mm_mult_serial.cpp:198-206 | A times the m×m identity is A |
| `Matrices.ProductIdentityLeft` | 2015/fall/cpe412/hw3/src/mm_mult_serial.cpp:198-206 | the l×l identity times B is B |
| `Matrices.ProductZero` | 2015/fall/cpe412/hw3/src/mm_mult_serial.cpp:198-206 | A times an all-zero m×n matrix is the all-zero l×n matrix |
| `Matrices.ProductOneByOne` | 2015/fall/cpe412/hw3/src/mm_mult_serial.cpp:198-206 | with l = m = n = 1 the result is the single product x*y |
| `Associativity.SumsExchange` | 2015/fall/cpe412/hw3/src/mm_mult_serial.cpp:200-203 | summing a(i,t)*b(t,q)*c(q,j) over q first or over t first gives the same value |
| `Associativity.ProductAssociative` | 2015/fall/cpe412/hw3/src/mm_mult_serial.cpp:198-206 | (A×B)×C equals A×(B×C) for all conformable A, B, C |
| `Dimensions.GetIndexSize` | 2015/fall/cpe412/hw3/src/mm_mult_serial.cpp:92-113 | an argument count other than 2 or 4 is a usage error, checked first; one value gives l = m = n = that value; three give l, m, n in order; the result is a dimension error exactly when a chosen value is ≤ 0, and accepted dimensions are all strictly positive |
| `Dimensions.Arguments` | 2015/fall/cpe412/hw3/src/mm_mult_serial.cpp:102-112 | a triple written out as three arguments is given back unchanged when all three are positive, and is otherwise rejected as a non-positive dimension |
| `Dimensions.AcceptedArguments` | 2015/fall/cpe412/hw3/src/mm_mult_serial.cpp:99-112 | validation accepts exactly a single positive value or three arguments spelling out a positive triple; an accepted triple written back as arguments gives the three arguments it came from, or the single argument repeated three times |
| `Kernel.AscendingOnce` | 2015/fall/cpe412/hw3/src/mm_mult_serial.cpp:124-127 | the write trace that `FillMatrix` and `Multiply` promise contains every offset of [0, size) exactly once and no other offset |
| `Kernel.FillMatrix` | 2015/fall/cpe412/hw3/src/mm_mult_serial.cpp:121-129 | element p of the first dim_m*dim_n elements receives the generator's next value, stream(drawn + p); the elements beyond are unchanged; the writes go to offsets 0, 1, ..., dim_m*dim_n - 1, each exactly once and in that order |
| `Kernel.DotProduct` | 2015/fall/cpe412/hw3/src/mm_mult_serial.cpp:200-203 | the accumulator starts at 0 and ends equal to the full dot product of row i of A and column j of B, reading only offsets inside both buffers |
| `Kernel.Multiply` | 2015/fall/cpe412/hw3/src/mm_mult_serial.cpp:198-206 | afterwards every cell (i, j) of C with i < l, j < n holds the dot product of row i of A and column j of B, and C as a whole equals the product; A and B are unchanged; C's offsets are written in row-major order, each exactly once |
| `Kernel.Run` | 2015/fall/cpe412/hw3/src/mm_mult_serial.cpp:149-206 | the run aborts with exactly the error validation reports; otherwise A holds stream values 0 to l*m-1, B the next m*n values, and C is the product A×B |

## Left out

- Console output is left out because it is I/O: `print_matrix`, the DEBUG
  printing, the usage and error messages, and the elapsed-time line.
- Wall-clock timing (`gettimeofday`) is left out because it is I/O.
- `exit(1)` is left out. Errors are returned values instead: `Err` from
  `GetIndexSize` and `Aborted` from `Run`.
- `atoi` string parsing is left out because it is a C library call. Arguments
  arrive as integers.
- `drand48`/`srand48` and the fixed seed are left out. Fill values come from an
  arbitrary injected stream. The range [0, MAX_VALUE) of the generated values
  is not modelled.
- Allocation failure after `new (nothrow)` is left out, because allocation in
  Dafny cannot fail. The "Insufficient Memory" branch is not modelled.
- Single-precision floating point is left out. Elements are exact integers, so
  rounding and summation-order effects are not captured.
- Overflow of the C `int` products `l*m`, `m*n` and `l*n` is left out.
  Dimensions are unbounded naturals, and the source does not check for
  overflow.
- Kernel.Multiply requires C to be a different buffer from A and B. In the
  program the three come from separate allocations, so aliasing is not
  modelled.
- Kernel.DotProduct: in the source the inner accumulation loop is written
  inline in `main`. Here it is a separate method with the same loop.
- The MPI and threaded variants named in the file's comments are not part of
  this model.
