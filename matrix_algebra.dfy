/**
  Value-level view of a fixed-shape integer matrix: a row-major grid of
  `rows` rows of `cols` entries each.  The functions here describe what the
  operations of class `Matrices.Matrix` compute; the lemmas state the
  algebraic laws those results obey.
 */
module MatrixAlgebra {

  /** Row-major cells of a matrix: `m[i][j]` is the entry in row `i`, column `j`. */
  type Grid = seq<seq<int>>

  /** `m` has exactly `rows` rows of exactly `cols` entries each. */
  predicate IsMatrix(m: Grid, rows: nat, cols: nat)
  {
    |m| == rows && forall i :: 0 <= i < rows ==> |m[i]| == cols
  }

  /** Two grids of the same shape that agree entry by entry are equal. */
  lemma GridEquality(a: Grid, b: Grid, rows: nat, cols: nat)
    requires IsMatrix(a, rows, cols) && IsMatrix(b, rows, cols)
    requires forall i, j :: 0 <= i < rows && 0 <= j < cols ==> a[i][j] == b[i][j]
    ensures a == b
  {
    forall i | 0 <= i < rows
      ensures a[i] == b[i]
    {
      assert |a[i]| == |b[i]| == cols;
    }
  }

  /** The matrix every entry of which is the additive identity. */
  function Zeros(rows: nat, cols: nat): (z: Grid)
    ensures IsMatrix(z, rows, cols)
  {
    seq(rows, _ => seq(cols, _ => 0))
  }

  /** The `cols` x `rows` matrix whose row `j` is column `j` of `m`. */
  function Transposed(m: Grid, rows: nat, cols: nat): (t: Grid)
    requires IsMatrix(m, rows, cols)
    ensures IsMatrix(t, cols, rows)
  {
    seq(cols, j requires 0 <= j < cols => seq(rows, i requires 0 <= i < rows => m[i][j]))
  }

  /** The first `n` terms of row `i` of `a` times column `j` of `b`:
      a[i][0]*b[0][j] + ... + a[i][n-1]*b[n-1][j], accumulated from 0 in
      increasing order of the index.  When every term vanishes the entry keeps
      its zero start. */
  function Dot(a: Grid, b: Grid, i: nat, j: nat, n: nat): (r: int)
    requires i < |a| && n <= |a[i]| && n <= |b|
    requires forall k :: 0 <= k < n ==> j < |b[k]|
    ensures TermsVanish(a, b, i, j, n) ==> r == 0
    decreases n
  {
    if n == 0 then 0 else Dot(a, b, i, j, n - 1) + a[i][n - 1] * b[n - 1][j]
  }

  /** Every one of the first `n` terms a[i][k] * b[k][j] has a zero factor. */
  predicate TermsVanish(a: Grid, b: Grid, i: nat, j: nat, n: nat)
    requires i < |a| && n <= |a[i]| && n <= |b|
    requires forall k :: 0 <= k < n ==> j < |b[k]|
  {
    forall k :: 0 <= k < n ==> a[i][k] == 0 || b[k][j] == 0
  }

  /** Matrix product of a `rows` x `inner` matrix and an `inner` x `cols` matrix. */
  function Product(a: Grid, b: Grid, rows: nat, inner: nat, cols: nat): (p: Grid)
    requires IsMatrix(a, rows, inner) && IsMatrix(b, inner, cols)
    ensures IsMatrix(p, rows, cols)
  {
    seq(rows, i requires 0 <= i < rows =>
      seq(cols, j requires 0 <= j < cols => Dot(a, b, i, j, inner)))
  }

  /** Entry-wise sum of two matrices of the same shape. */
  function Sum(a: Grid, b: Grid, rows: nat, cols: nat): (s: Grid)
    requires IsMatrix(a, rows, cols) && IsMatrix(b, rows, cols)
    ensures IsMatrix(s, rows, cols)
  {
    seq(rows, i requires 0 <= i < rows =>
      seq(cols, j requires 0 <= j < cols => a[i][j] + b[i][j]))
  }

  /** Entry-wise difference of two matrices of the same shape. */
  function Difference(a: Grid, b: Grid, rows: nat, cols: nat): (d: Grid)
    requires IsMatrix(a, rows, cols) && IsMatrix(b, rows, cols)
    ensures IsMatrix(d, rows, cols)
  {
    seq(rows, i requires 0 <= i < rows =>
      seq(cols, j requires 0 <= j < cols => a[i][j] - b[i][j]))
  }

  /** Every entry of `a` multiplied (on the right) by `scalar`. */
  function Scaled(a: Grid, scalar: int, rows: nat, cols: nat): (s: Grid)
    requires IsMatrix(a, rows, cols)
    ensures IsMatrix(s, rows, cols)
  {
    seq(rows, i requires 0 <= i < rows =>
      seq(cols, j requires 0 <= j < cols => a[i][j] * scalar))
  }

  // ---------------------------------------------------------------------
  // Algebraic laws
  // ---------------------------------------------------------------------

  /** Transposing twice gives back the original matrix. */
  lemma TransposeInvolution(m: Grid, rows: nat, cols: nat)
    requires IsMatrix(m, rows, cols)
    ensures Transposed(Transposed(m, rows, cols), cols, rows) == m
  {
    GridEquality(Transposed(Transposed(m, rows, cols), cols, rows), m, rows, cols);
  }

  /** Addition is commutative. */
  lemma SumCommutes(a: Grid, b: Grid, rows: nat, cols: nat)
    requires IsMatrix(a, rows, cols) && IsMatrix(b, rows, cols)
    ensures Sum(a, b, rows, cols) == Sum(b, a, rows, cols)
  {
    GridEquality(Sum(a, b, rows, cols), Sum(b, a, rows, cols), rows, cols);
  }

  /** Subtracting `b` is adding `b` scaled by -1. */
  lemma DifferenceIsSumOfNegation(a: Grid, b: Grid, rows: nat, cols: nat)
    requires IsMatrix(a, rows, cols) && IsMatrix(b, rows, cols)
    ensures Difference(a, b, rows, cols) == Sum(a, Scaled(b, -1, rows, cols), rows, cols)
  {
    GridEquality(Difference(a, b, rows, cols), Sum(a, Scaled(b, -1, rows, cols), rows, cols), rows, cols);
  }

  /** Scaling by 1 is the identity. */
  lemma ScaledByOne(a: Grid, rows: nat, cols: nat)
    requires IsMatrix(a, rows, cols)
    ensures Scaled(a, 1, rows, cols) == a
  {
    GridEquality(Scaled(a, 1, rows, cols), a, rows, cols);
  }

  /** Scaling by 0 gives the all-zero matrix of the same shape. */
  lemma ScaledByZero(a: Grid, rows: nat, cols: nat)
    requires IsMatrix(a, rows, cols)
    ensures Scaled(a, 0, rows, cols) == Zeros(rows, cols)
  {
    GridEquality(Scaled(a, 0, rows, cols), Zeros(rows, cols), rows, cols);
  }

  /** Multiplying by the all-zero matrix gives the all-zero matrix: every
      entry keeps the zero the accumulation starts from. */
  lemma ProductByZeros(a: Grid, rows: nat, inner: nat, cols: nat)
    requires IsMatrix(a, rows, inner)
    ensures Product(a, Zeros(inner, cols), rows, inner, cols) == Zeros(rows, cols)
  {
    var z := Zeros(inner, cols);
    forall i, j | 0 <= i < rows && 0 <= j < cols
      ensures Product(a, z, rows, inner, cols)[i][j] == 0
    {
      assert TermsVanish(a, z, i, j, inner);
    }
    GridEquality(Product(a, z, rows, inner, cols), Zeros(rows, cols), rows, cols);
  }

  /** The 2x3 by 3x2 product of the demonstration program. */
  lemma ProductExample()
    ensures Product([[1, 2, 3], [4, 5, 6]], [[1, 2], [3, 4], [5, 6]], 2, 3, 2) == [[22, 28], [49, 64]]
  {
    var a: Grid := [[1, 2, 3], [4, 5, 6]];
    var b: Grid := [[1, 2], [3, 4], [5, 6]];
    assert IsMatrix(a, 2, 3) && IsMatrix(b, 3, 2);
    var p := Product(a, b, 2, 3, 2);
    assert p[0][0] == Dot(a, b, 0, 0, 3) == 22;
    assert p[0][1] == Dot(a, b, 0, 1, 3) == 28;
    assert p[1][0] == Dot(a, b, 1, 0, 3) == 49;
    assert p[1][1] == Dot(a, b, 1, 1, 3) == 64;
    GridEquality(p, [[22, 28], [49, 64]], 2, 2);
  }

  // ---------------------------------------------------------------------
  // Associativity of the product
  // ---------------------------------------------------------------------

  /** The first `m` terms of row `i` of `a` times column `j` of the product of
      `b` and `c`, where that product is cut off after `p` inner terms:
      sum over k < m of a[i][k] * Dot(b, c, k, j, p). */
  ghost function NestedDot(a: Grid, b: Grid, c: Grid, i: nat, j: nat, m: nat, p: nat): int
    requires i < |a| && m <= |a[i]| && m <= |b| && p <= |c|
    requires forall k :: 0 <= k < m ==> p <= |b[k]|
    requires forall l :: 0 <= l < p ==> j < |c[l]|
    decreases m
  {
    if m == 0 then 0 else NestedDot(a, b, c, i, j, m - 1, p) + a[i][m - 1] * Dot(b, c, m - 1, j, p)
  }

  lemma {:induction false} NestedDotEmpty(a: Grid, b: Grid, c: Grid, i: nat, j: nat, m: nat)
    requires i < |a| && m <= |a[i]| && m <= |b|
    ensures NestedDot(a, b, c, i, j, m, 0) == 0
  {
    if m > 0 {
      NestedDotEmpty(a, b, c, i, j, m - 1);
    }
  }

  /** Adding the `p`-th inner term to every inner dot product adds
      Dot(a, b, i, p - 1, m) * c[p - 1][j] to the nested sum. */
  lemma {:induction false} NestedDotStep(a: Grid, b: Grid, c: Grid, i: nat, j: nat, m: nat, p: nat)
    requires 0 < p
    requires i < |a| && m <= |a[i]| && m <= |b| && p <= |c|
    requires forall k :: 0 <= k < m ==> p <= |b[k]|
    requires forall l :: 0 <= l < p ==> j < |c[l]|
    ensures NestedDot(a, b, c, i, j, m, p)
         == NestedDot(a, b, c, i, j, m, p - 1) + Dot(a, b, i, p - 1, m) * c[p - 1][j]
  {
    if m > 0 {
      NestedDotStep(a, b, c, i, j, m - 1, p);
      var x := a[i][m - 1];
      var y := b[m - 1][p - 1];
      var z := c[p - 1][j];
      var d := Dot(b, c, m - 1, j, p - 1);
      assert Dot(b, c, m - 1, j, p) == d + y * z;
      assert x * (d + y * z) == x * d + (x * y) * z;
      assert Dot(a, b, i, p - 1, m) * z == Dot(a, b, i, p - 1, m - 1) * z + (x * y) * z;
    }
  }

  /** The first `q` terms of row `i` of (a b) times column `j` of `c` equal the
      nested sum with `q` inner terms. */
  lemma {:induction false} ProductAssociativeAt(a: Grid, b: Grid, c: Grid, n: nat, m: nat, p: nat, q: nat,
                                                i: nat, j: nat, r: nat)
    requires IsMatrix(a, n, m) && IsMatrix(b, m, p) && IsMatrix(c, p, q)
    requires i < n && j < q && r <= p
    ensures Dot(Product(a, b, n, m, p), c, i, j, r) == NestedDot(a, b, c, i, j, m, r)
  {
    if r == 0 {
      NestedDotEmpty(a, b, c, i, j, m);
    } else {
      ProductAssociativeAt(a, b, c, n, m, p, q, i, j, r - 1);
      NestedDotStep(a, b, c, i, j, m, r);
    }
  }

  /** Row `i` of `a` times column `j` of (b c) is the nested sum with all
      `p` inner terms. */
  lemma {:induction false} NestedDotIsDot(a: Grid, b: Grid, c: Grid, n: nat, m: nat, p: nat, q: nat,
                                          i: nat, j: nat, r: nat)
    requires IsMatrix(a, n, m) && IsMatrix(b, m, p) && IsMatrix(c, p, q)
    requires i < n && j < q && r <= m
    ensures Dot(a, Product(b, c, m, p, q), i, j, r) == NestedDot(a, b, c, i, j, r, p)
  {
    if r > 0 {
      NestedDotIsDot(a, b, c, n, m, p, q, i, j, r - 1);
    }
  }

  /** Matrix multiplication is associative. */
  lemma ProductAssociative(a: Grid, b: Grid, c: Grid, n: nat, m: nat, p: nat, q: nat)
    requires IsMatrix(a, n, m) && IsMatrix(b, m, p) && IsMatrix(c, p, q)
    ensures Product(Product(a, b, n, m, p), c, n, p, q) == Product(a, Product(b, c, m, p, q), n, m, q)
  {
    var left := Product(Product(a, b, n, m, p), c, n, p, q);
    var right := Product(a, Product(b, c, m, p, q), n, m, q);
    forall i, j | 0 <= i < n && 0 <= j < q
      ensures left[i][j] == right[i][j]
    {
      ProductAssociativeAt(a, b, c, n, m, p, q, i, j, p);
      NestedDotIsDot(a, b, c, n, m, p, q, i, j, m);
    }
    GridEquality(left, right, n, q);
  }
}
