/**
  The fixed-shape dense matrix and its integer column-vector specialisation.
  The shape, a pair of template parameters in the C++ class template, is a
  pair of constant fields fixed at construction; the element type is `int`.
 */
module Matrices {
  import opened MatrixAlgebra

  /** The out-of-range error raised by element access, with its message. */
  datatype Error = OutOfRange(message: string)

  /** Outcome of a read through an element accessor. */
  datatype Result<T> = Success(value: T) | Failure(error: Error)

  /** Outcome of a write through an element accessor. */
  datatype Outcome = Pass | Fail(error: Error)

  const MatrixIndicesError := "Matrix indices out of range"
  const VectorIndexError := "Matrix index out of range"

  /** A `rows` x `cols` integer matrix stored row-major in a two-dimensional array. */
  class Matrix {
    const rows: nat
    const cols: nat
    const data: array2<int>

    /** Both dimensions are positive and the store has exactly that shape. */
    ghost predicate Valid()
    {
      0 < rows && 0 < cols && data.Length0 == rows && data.Length1 == cols
    }

    /** The entries, as a value. */
    ghost function Contents(): (m: Grid)
      requires Valid()
      reads data
      ensures IsMatrix(m, rows, cols)
      ensures forall i, j :: 0 <= i < rows && 0 <= j < cols ==> m[i][j] == data[i, j]
    {
      seq(rows, i requires 0 <= i < rows reads data =>
        seq(cols, j requires 0 <= j < cols reads data => data[i, j]))
    }

    /** A new matrix of the given (positive) shape with every entry zero. */
    constructor(rows: nat, cols: nat)
      requires 0 < rows && 0 < cols
      ensures Valid() && this.rows == rows && this.cols == cols && fresh(data)
      ensures Contents() == Zeros(rows, cols)
    {
      this.rows := rows;
      this.cols := cols;
      data := new int[rows, cols]((_, _) => 0);
      new;
      GridEquality(Contents(), Zeros(rows, cols), rows, cols);
    }

    /** Reads entry (row, col); fails, reading nothing, unless both indices are in range. */
    method Get(row: nat, col: nat) returns (r: Result<int>)
      requires Valid()
      ensures r.Success? <==> row < rows && col < cols
      ensures r.Success? ==> r.value == Contents()[row][col]
      ensures r.Failure? ==> r.error == OutOfRange(MatrixIndicesError)
    {
      if row >= rows || col >= cols {
        return Failure(OutOfRange(MatrixIndicesError));
      }
      return Success(data[row, col]);
    }

    /** Writes `v` at (row, col); fails, changing nothing, unless both indices are in range. */
    method Set(row: nat, col: nat, v: int) returns (r: Outcome)
      requires Valid()
      modifies data
      ensures r.Pass? <==> row < rows && col < cols
      ensures r.Fail? ==> r.error == OutOfRange(MatrixIndicesError)
      ensures r.Pass? ==> Contents() == old(Contents())[row := old(Contents())[row][col := v]]
      ensures r.Fail? ==> Contents() == old(Contents())
    {
      if row >= rows || col >= cols {
        return Fail(OutOfRange(MatrixIndicesError));
      }
      ghost var before := Contents();
      data[row, col] := v;
      GridEquality(Contents(), before[row := before[row][col := v]], rows, cols);
      return Pass;
    }

    /** The `cols` x `rows` matrix `t` with t(j, i) == this(i, j). */
    method Transpose() returns (t: Matrix)
      requires Valid()
      ensures t.Valid() && fresh(t.data) && t.rows == cols && t.cols == rows
      ensures t.Contents() == Transposed(Contents(), rows, cols)
    {
      t := new Matrix(cols, rows);
      for i := 0 to rows
        invariant forall i', j :: 0 <= i' < i && 0 <= j < cols ==> t.data[j, i'] == data[i', j]
      {
        for j := 0 to cols
          invariant forall i', j' :: 0 <= i' < i && 0 <= j' < cols ==> t.data[j', i'] == data[i', j']
          invariant forall j' :: 0 <= j' < j ==> t.data[j', i] == data[i, j']
        {
          t.data[j, i] := data[i, j];
        }
      }
      GridEquality(t.Contents(), Transposed(Contents(), rows, cols), cols, rows);
    }

    /** The innermost loop of `Multiply`: adds row `i` of this matrix times
        column `j` of `other` into entry (i, j) of `p`, term by term. */
    method AccumulateEntry(other: Matrix, p: Matrix, i: nat, j: nat)
      requires Valid() && other.Valid() && p.Valid()
      requires cols == other.rows && p.rows == rows && p.cols == other.cols
      requires p.data != data && p.data != other.data
      requires i < rows && j < other.cols
      modifies p.data
      ensures p.data[i, j] == old(p.data[i, j]) + Dot(Contents(), other.Contents(), i, j, cols)
      ensures forall i', j' :: 0 <= i' < rows && 0 <= j' < other.cols && (i' != i || j' != j)
                ==> p.data[i', j'] == old(p.data[i', j'])
    {
      ghost var a := Contents();
      ghost var b := other.Contents();
      ghost var start := p.data[i, j];
      for k := 0 to cols
        invariant p.data[i, j] == start + Dot(a, b, i, j, k)
        invariant forall i', j' :: 0 <= i' < rows && 0 <= j' < other.cols && (i' != i || j' != j)
                    ==> p.data[i', j'] == old(p.data[i', j'])
      {
        p.data[i, j] := p.data[i, j] + data[i, k] * other.data[k, j];
      }
    }

    /** The product of this `rows` x `cols` matrix and a `cols` x `other.cols`
        matrix, each entry accumulated from zero over the inner index. */
    method Multiply(other: Matrix) returns (p: Matrix)
      requires Valid() && other.Valid()
      requires cols == other.rows
      ensures p.Valid() && fresh(p.data) && p.rows == rows && p.cols == other.cols
      ensures p.Contents() == Product(Contents(), other.Contents(), rows, cols, other.cols)
    {
      ghost var a := Contents();
      ghost var b := other.Contents();
      p := new Matrix(rows, other.cols);
      for i := 0 to rows
        invariant forall i', j :: 0 <= i' < i && 0 <= j < other.cols ==> p.data[i', j] == Dot(a, b, i', j, cols)
        invariant forall i', j :: i <= i' < rows && 0 <= j < other.cols ==> p.data[i', j] == 0
      {
        for j := 0 to other.cols
          invariant forall i', j' :: 0 <= i' < i && 0 <= j' < other.cols ==> p.data[i', j'] == Dot(a, b, i', j', cols)
          invariant forall j' :: 0 <= j' < j ==> p.data[i, j'] == Dot(a, b, i, j', cols)
          invariant forall j' :: j <= j' < other.cols ==> p.data[i, j'] == 0
          invariant forall i', j' :: i < i' < rows && 0 <= j' < other.cols ==> p.data[i', j'] == 0
        {
          AccumulateEntry(other, p, i, j);
        }
      }
      GridEquality(p.Contents(), Product(a, b, rows, cols, other.cols), rows, other.cols);
    }

    /** The entry-wise sum of this matrix and one of the same shape. */
    method Add(other: Matrix) returns (s: Matrix)
      requires Valid() && other.Valid()
      requires rows == other.rows && cols == other.cols
      ensures s.Valid() && fresh(s.data) && s.rows == rows && s.cols == cols
      ensures s.Contents() == Sum(Contents(), other.Contents(), rows, cols)
    {
      s := new Matrix(rows, cols);
      for i := 0 to rows
        invariant forall i', j :: 0 <= i' < i && 0 <= j < cols ==> s.data[i', j] == data[i', j] + other.data[i', j]
      {
        for j := 0 to cols
          invariant forall i', j' :: 0 <= i' < i && 0 <= j' < cols ==> s.data[i', j'] == data[i', j'] + other.data[i', j']
          invariant forall j' :: 0 <= j' < j ==> s.data[i, j'] == data[i, j'] + other.data[i, j']
        {
          s.data[i, j] := data[i, j] + other.data[i, j];
        }
      }
      GridEquality(s.Contents(), Sum(Contents(), other.Contents(), rows, cols), rows, cols);
    }

    /** The entry-wise difference of this matrix and one of the same shape. */
    method Subtract(other: Matrix) returns (d: Matrix)
      requires Valid() && other.Valid()
      requires rows == other.rows && cols == other.cols
      ensures d.Valid() && fresh(d.data) && d.rows == rows && d.cols == cols
      ensures d.Contents() == Difference(Contents(), other.Contents(), rows, cols)
    {
      d := new Matrix(rows, cols);
      for i := 0 to rows
        invariant forall i', j :: 0 <= i' < i && 0 <= j < cols ==> d.data[i', j] == data[i', j] - other.data[i', j]
      {
        for j := 0 to cols
          invariant forall i', j' :: 0 <= i' < i && 0 <= j' < cols ==> d.data[i', j'] == data[i', j'] - other.data[i', j']
          invariant forall j' :: 0 <= j' < j ==> d.data[i, j'] == data[i, j'] - other.data[i, j']
        {
          d.data[i, j] := data[i, j] - other.data[i, j];
        }
      }
      GridEquality(d.Contents(), Difference(Contents(), other.Contents(), rows, cols), rows, cols);
    }

    /** Every entry multiplied by `scalar`. */
    method Scale(scalar: int) returns (s: Matrix)
      requires Valid()
      ensures s.Valid() && fresh(s.data) && s.rows == rows && s.cols == cols
      ensures s.Contents() == Scaled(Contents(), scalar, rows, cols)
    {
      s := new Matrix(rows, cols);
      for i := 0 to rows
        invariant forall i', j :: 0 <= i' < i && 0 <= j < cols ==> s.data[i', j] == data[i', j] * scalar
      {
        for j := 0 to cols
          invariant forall i', j' :: 0 <= i' < i && 0 <= j' < cols ==> s.data[i', j'] == data[i', j'] * scalar
          invariant forall j' :: 0 <= j' < j ==> s.data[i, j'] == data[i, j'] * scalar
        {
          s.data[i, j] := data[i, j] * scalar;
        }
      }
      GridEquality(s.Contents(), Scaled(Contents(), scalar, rows, cols), rows, cols);
    }
  }

  /** Sum of the squares of the entries, accumulated from the first entry on. */
  function SumOfSquares(s: seq<int>): (r: int)
    ensures r >= 0
    ensures forall i :: 0 <= i < |s| ==> s[i] * s[i] <= r
    decreases |s|
  {
    if s == [] then 0 else SumOfSquares(s[..|s| - 1]) + s[|s| - 1] * s[|s| - 1]
  }

  /** The sum of squares is never negative, and it is zero exactly for the
      all-zero vector. */
  lemma {:induction false} SumOfSquaresZeroIff(s: seq<int>)
    ensures SumOfSquares(s) >= 0
    ensures SumOfSquares(s) == 0 <==> forall i :: 0 <= i < |s| ==> s[i] == 0
    decreases |s|
  {
    if s != [] {
      var init, last := s[..|s| - 1], s[|s| - 1];
      SumOfSquaresZeroIff(init);
      assert last * last >= 0;
      assert last != 0 ==> last * last > 0;
      if SumOfSquares(s) == 0 {
        forall i | 0 <= i < |s| ensures s[i] == 0 {
          if i < |s| - 1 {
            assert s[i] == init[i];
          }
        }
      }
      if forall i :: 0 <= i < |s| ==> s[i] == 0 {
        assert forall i :: 0 <= i < |init| ==> init[i] == s[i];
      }
    }
  }

  /** The squared norm of the demonstration vector [1, 2, 3] is 14. */
  lemma SumOfSquaresExamples()
    ensures SumOfSquares([1, 2, 3]) == 14
  {
    assert [1, 2, 3][..2] == [1, 2];
    assert [1, 2][..1] == [1];
    assert [1][..0] == [];
  }

  /** The N x 1 integer specialisation: a column of `n` entries with
      single-index access and a norm, and no matrix arithmetic. */
  class Vector {
    const n: nat
    const data: array<int>

    /** The length is positive and the store has exactly that length. */
    ghost predicate Valid()
    {
      0 < n && data.Length == n
    }

    /** A new vector of the given (positive) length with every entry zero. */
    constructor(n: nat)
      requires 0 < n
      ensures Valid() && this.n == n && fresh(data)
      ensures data[..] == seq(n, _ => 0)
    {
      this.n := n;
      data := new int[n](_ => 0);
    }

    /** Reads entry `index`; fails, reading nothing, unless it is in range. */
    method Get(index: nat) returns (r: Result<int>)
      requires Valid()
      ensures r.Success? <==> index < n
      ensures r.Success? ==> r.value == data[index]
      ensures r.Failure? ==> r.error == OutOfRange(VectorIndexError)
    {
      if index >= n {
        return Failure(OutOfRange(VectorIndexError));
      }
      return Success(data[index]);
    }

    /** Writes `v` at `index`; fails, changing nothing, unless it is in range. */
    method Set(index: nat, v: int) returns (r: Outcome)
      requires Valid()
      modifies data
      ensures r.Pass? <==> index < n
      ensures r.Fail? ==> r.error == OutOfRange(VectorIndexError)
      ensures data[..] == if r.Pass? then old(data[..])[index := v] else old(data[..])
    {
      if index >= n {
        return Fail(OutOfRange(VectorIndexError));
      }
      data[index] := v;
      return Pass;
    }

    /** The square of the Euclidean norm: the sum of the squared entries,
        never negative and zero exactly for the zero vector. */
    method NormSquared() returns (sum: int)
      requires Valid()
      ensures sum == SumOfSquares(data[..])
      ensures sum >= 0
      ensures sum == 0 <==> forall i :: 0 <= i < n ==> data[i] == 0
    {
      sum := 0;
      for i := 0 to n
        invariant sum == SumOfSquares(data[..i])
      {
        assert data[..i + 1][..i] == data[..i];
        sum := sum + data[i] * data[i];
      }
      assert data[..n] == data[..];
      SumOfSquaresZeroIff(data[..]);
    }
  }

  /** The demonstration program's left operand, filled through the accessor. */
  method DemoLeft() returns (a: Matrix)
    ensures a.Valid() && fresh(a.data) && a.rows == 2 && a.cols == 3
    ensures a.Contents() == [[1, 2, 3], [4, 5, 6]]
  {
    a := new Matrix(2, 3);
    var _ := a.Set(0, 0, 1); var _ := a.Set(0, 1, 2); var _ := a.Set(0, 2, 3);
    var _ := a.Set(1, 0, 4); var _ := a.Set(1, 1, 5); var _ := a.Set(1, 2, 6);
    GridEquality(a.Contents(), [[1, 2, 3], [4, 5, 6]], 2, 3);
  }

  /** The demonstration program's right operand, filled through the accessor. */
  method DemoRight() returns (b: Matrix)
    ensures b.Valid() && fresh(b.data) && b.rows == 3 && b.cols == 2
    ensures b.Contents() == [[1, 2], [3, 4], [5, 6]]
  {
    b := new Matrix(3, 2);
    var _ := b.Set(0, 0, 1); var _ := b.Set(0, 1, 2);
    var _ := b.Set(1, 0, 3); var _ := b.Set(1, 1, 4);
    var _ := b.Set(2, 0, 5); var _ := b.Set(2, 1, 6);
    GridEquality(b.Contents(), [[1, 2], [3, 4], [5, 6]], 3, 2);
  }

  /** The matrix half of the demonstration program: A (2x3) times B (3x2)
      is [[22, 28], [49, 64]]. */
  method DemoProduct() returns (c: Matrix)
    ensures c.Valid() && c.rows == 2 && c.cols == 2
    ensures c.Contents() == [[22, 28], [49, 64]]
  {
    var a := DemoLeft();
    var b := DemoRight();
    c := a.Multiply(b);
    ProductExample();
  }

  /** The vector half of the demonstration program: [1, 2, 3] has squared norm 14. */
  method DemoNorm() returns (normSquared: int)
    ensures normSquared == 14
  {
    var v := new Vector(3);
    var _ := v.Set(0, 1); var _ := v.Set(1, 2); var _ := v.Set(2, 3);
    assert v.data[..] == [1, 2, 3];
    normSquared := v.NormSquared();
    SumOfSquaresExamples();
  }
}
