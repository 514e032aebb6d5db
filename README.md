# Fixed-shape integer matrices and the SumSequence metafunction, in Dafny

This project models two small C++ programs.

**Task1.cpp** defines a dense matrix `Matrix<T, Rows, Cols>`. Its shape is fixed by template
parameters and its cells are stored row-major. It offers:

- bounds-checked two-index access, which throws `out_of_range`;
- transpose;
- matrix product;
- element-wise addition and subtraction;
- multiplication by a scalar.

The partial specialisation `Matrix<int, N, 1>` is a separate column-vector type. It has
single-index access and an L2 norm.

**Task2.cpp** defines the compile-time recursion `SumSequence<n, k>`: F(n, 1) = n, and otherwise
F(n, k) = n * F(n, k - 1) + n.

Modules:

- `MatrixAlgebra` (`matrix_algebra.dfy`): a matrix as a value. A `Grid` is a `seq<seq<int>>` of
  shape `rows` x `cols`. Functions describe what each operation computes (`Zeros`, `Transposed`,
  `Dot`, `Product`, `Sum`, `Difference`, `Scaled`). Lemmas state the laws those results obey:
  transpose is an involution, addition commutes, subtraction is addition of the negation, scaling
  by 1 and by 0 behave as expected, and the product is associative.
- `Matrices` (`matrix.dfy`): the two C++ classes as Dafny classes.
  - `Matrix` keeps its shape in constant fields `rows` and `cols` and its cells in an
    `array2<int>`.
  - `Vector` keeps its length in `n` and its cells in an `array<int>`.
  - Each operation fills a freshly allocated, zero-initialised result with the source's nested
    loops. Each is proved against the matching `MatrixAlgebra` function through the ghost view
    `Contents()`.
  - The compile-time `static_assert`s become `requires` clauses: both dimensions positive, and
    inner dimensions equal for a product. A call that breaks them does not verify, which is the
    counterpart of the source's compile-time rejection.
  - Element access returns a reference in C++. Here it is split into `Get` and `Set`. They return
    `Failure`/`Fail(OutOfRange(...))` with the source's message when an index is out of range,
    and in that case they change nothing.
- `SumSequences` (`sum_sequence.dfy`): F(n, k) as a recursive function on `k >= 1`, its
  recurrence, the closed form n + n^2 + ... + n^k, the geometric-series identity and the
  demonstration instance.

The element type `T` is fixed to mathematical `int`.

Source defects that the model does not reproduce:

- `Transpose` is declared to return `Matrix<Cols, Rows>`, without the element type
  (Task1.cpp:13-14), so it cannot compile as written. The model returns the intended `Cols` x
  `Rows` matrix of the same element type.
- A product whose right operand has one column would, for `int`, produce the column-vector
  specialisation. That type has no two-index access, so the product's body would not compile
  (Task1.cpp:42, 46, 89-108). The model's product result is always a plain `Matrix`.
- In the same way, the intended transpose of a 1 x N integer matrix is `Matrix<int, N, 1>`, the
  column-vector specialisation, which lacks the two-index access used at Task1.cpp:17. The
  model's transpose result is always a plain `Matrix`.
- `std::sqrt` is used without including `<cmath>` (Task1.cpp:116).

## Model

| member | source | states |
|---|---|---|
| `MatrixAlgebra.Zeros` | Task1.cpp:10 | the default-valued matrix has exactly `rows` rows of `cols` entries |
| `MatrixAlgebra.Transposed` | Task1.cpp:13-21 | the transpose of a Rows x Cols matrix is Cols x Rows |
| `MatrixAlgebra.Dot` | Task1.cpp:45-47 | the k-accumulation into one product entry: when every term a[i][k] * b[k][j] has a zero factor, the entry keeps its zero start |
| `MatrixAlgebra.Product` | Task1.cpp:39-51 | a Rows x R matrix times an R x C matrix is Rows x C |
| `MatrixAlgebra.Sum` | Task1.cpp:53-61 | addition keeps the operands' shape |
| `MatrixAlgebra.Difference` | Task1.cpp:63-71 | subtraction keeps the operands' shape |
| `MatrixAlgebra.Scaled` | Task1.cpp:74-82 | scalar multiplication keeps the operand's shape |
| `MatrixAlgebra.TransposeInvolution` | Task1.cpp:13-21 | transposing twice gives back the original matrix |
| `MatrixAlgebra.SumCommutes` | Task1.cpp:53-61 | A + B == B + A |
| `MatrixAlgebra.DifferenceIsSumOfNegation` | Task1.cpp:53-82 | A - B == A + B * (-1) |
| `MatrixAlgebra.ScaledByOne` | Task1.cpp:74-82 | A * 1 == A |
| `MatrixAlgebra.ScaledByZero` | Task1.cpp:74-82 | A * 0 is the all-zero matrix of A's shape |
| `MatrixAlgebra.ProductAssociative` | Task1.cpp:39-51 | (A B) C == A (B C) for all compatible shapes |
| `MatrixAlgebra.ProductByZeros` | Task1.cpp:39-51 | A times the all-zero matrix is the all-zero matrix of shape Rows x C |
| `MatrixAlgebra.ProductExample` | Task1.cpp:125-134 | [[1,2,3],[4,5,6]] times [[1,2],[3,4],[5,6]] is [[22,28],[49,64]] |
| `Matrices.Matrix.constructor` | Task1.cpp:7-10 | both dimensions must be positive; every one of the Rows x Cols entries starts at zero |
| `Matrices.Matrix.Get` | Task1.cpp:31-36 | reading succeeds exactly when row < Rows and col < Cols, and then yields that entry; otherwise it is the out-of-range error |
| `Matrices.Matrix.Set` | Task1.cpp:24-29 | writing through the accessor succeeds exactly when both indices are in range and then changes only that entry; on the out-of-range error nothing changes |
| `Matrices.Matrix.Transpose` | Task1.cpp:13-21 | the result is a fresh Cols x Rows matrix with result(j, i) == this(i, j) for all valid i, j |
| `Matrices.Matrix.AccumulateEntry` | Task1.cpp:45-47 | the innermost loop adds the sum over k of this(i, k) * other(k, j) into result(i, j) and leaves every other entry alone |
| `Matrices.Matrix.Multiply` | Task1.cpp:39-51 | needs Cols == R; the result is a fresh Rows x C matrix with result(i, j) == sum over k < Cols of this(i, k) * other(k, j), accumulated from the zero-initialised result |
| `Matrices.Matrix.Add` | Task1.cpp:53-61 | the result is a fresh same-shape matrix with result(i, j) == this(i, j) + other(i, j) |
| `Matrices.Matrix.Subtract` | Task1.cpp:63-71 | the result is a fresh same-shape matrix with result(i, j) == this(i, j) - other(i, j) |
| `Matrices.Matrix.Scale` | Task1.cpp:74-82 | the result is a fresh same-shape matrix with result(i, j) == this(i, j) * scalar |
| `Matrices.Vector.constructor` | Task1.cpp:91-94 | N must be positive; the vector starts with N zeros |
| `Matrices.Vector.Get` | Task1.cpp:103-108 | reading succeeds exactly when index < N and then yields that entry; otherwise it is the out-of-range error |
| `Matrices.Vector.Set` | Task1.cpp:96-101 | writing succeeds exactly when index < N and then changes only that entry; on the out-of-range error nothing changes |
| `Matrices.Vector.NormSquared` | Task1.cpp:111-117 | the norm's accumulator ends as the sum of data[i] * data[i]; it is non-negative and zero exactly for the zero vector |
| `Matrices.SumOfSquares` | Task1.cpp:112-115 | the norm's accumulation of data[i] * data[i]: never negative, and at least every single square |
| `Matrices.SumOfSquaresZeroIff` | Task1.cpp:111-115 | a sum of squares is non-negative and is zero if and only if every entry is zero |
| `Matrices.SumOfSquaresExamples` | Task1.cpp:144-146 | the squared norm of the demonstration vector [1, 2, 3] is 14 |
| `Matrices.DemoLeft` | Task1.cpp:125-127 | filling a fresh 2x3 matrix through the accessor gives [[1,2,3],[4,5,6]] |
| `Matrices.DemoRight` | Task1.cpp:129-132 | filling a fresh 3x2 matrix through the accessor gives [[1,2],[3,4],[5,6]] |
| `Matrices.DemoProduct` | Task1.cpp:125-134 | filling A and B through the accessor and multiplying them gives [[22,28],[49,64]] |
| `Matrices.DemoNorm` | Task1.cpp:144-146 | filling [1, 2, 3] through the accessor gives the squared norm 14 |
| `SumSequences.SumSequence` | Task2.cpp:4-13 | F(n, k) is defined exactly for k >= 1, the only values from which the recursion reaches its base case; for n >= 0 it is at least n, and for n >= 1 it is at least k |
| `SumSequences.SumSequenceBase` | Task2.cpp:10-13 | F(n, 1) == n |
| `SumSequences.SumSequenceStep` | Task2.cpp:4-7 | for k >= 2, F(n, k) == n * F(n, k - 1) + n |
| `SumSequences.SumSequenceClosedForm` | Task2.cpp:4-13 | for k >= 1, F(n, k) == n + n^2 + ... + n^k |
| `SumSequences.SumSequenceGeometric` | Task2.cpp:4-13 | for k >= 1, (n - 1) * F(n, k) == n^(k+1) - n |
| `SumSequences.SumSequenceOfOne` | Task2.cpp:4-13 | F(1, k) == k |
| `SumSequences.SumSequenceOfZero` | Task2.cpp:4-13 | F(0, k) == 0 |
| `SumSequences.SumSequenceExample` | Task2.cpp:16 | F(3, 2) == 12 |

## Left out

- Genericity over the element type `T`: only `T = int` is modelled.
- The model's `Matrix` may have one column. In the source, `Matrix<int, N, 1>` always selects
  the vector specialisation, so an integer matrix with one column is never the general class.
- `Matrices.Vector.NormSquared`: returns the integer sum of squares, not its square root. The
  source's `std::sqrt` and its `double` accumulator are floating point and are not modelled.
- Machine-integer width is not modelled. Entries, sums, products and the squares in the norm are
  unbounded `int`. In the source the accumulator is a `double`, but each square is computed in
  `int` before it is added (Task1.cpp:112-114), so a large entry overflows whatever the
  accumulator's type; the model sums in unbounded `int`.
- `SumSequences.SumSequenceClosedForm`: states the value over unbounded integers. In the source,
  an out-of-range `constexpr` value is a compile-time error; that is not modelled.
- Element access returns a mutable reference, which can be aliased. The model has separate `Get`
  and `Set` operations instead.
- Inside the loops of `Transpose`, `Multiply`, `Add`, `Subtract` and `Scale`, the source goes
  through the bounds-checked accessor. The model indexes the arrays directly because those
  checks always pass there.
- Copying and destroying a matrix (value semantics): every result is a freshly allocated array.
  Operands are only read.
- Both `main` functions print to the console, and that I/O is not modelled. Their values appear
  as `DemoProduct`, `DemoNorm`, `ProductExample`, `SumOfSquaresExamples` and
  `SumSequenceExample`.
