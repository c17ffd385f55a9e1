/** Flat addressing of dense row-major blocks (warp/native/matnn.h, `dense_index`). */
module DenseIndexing {

  /** Number of lanes per block on the device; the multiply's batch index is `tid / this`. */
  const NumThreadsPerBlock: nat := 256

  /** `dense_index(stride, i, j)`: row-major offset with an explicit row stride. */
  function DenseIndexStride(stride: int, i: int, j: int): int
  {
    i * stride + j
  }

  /** `dense_index<transpose>(rows, cols, i, j)`: element (i, j) of a logical rows x cols
      matrix, read row-major, or column-major when `transpose` holds. */
  function DenseIndex(transpose: bool, rows: int, cols: int, i: int, j: int): int
  {
    if transpose then j * rows + i else i * cols + j
  }

  /** Element (i, j) of the n x n row-major block stored at `off`, addressed with the stride
      overload as the factorization and the substitutions do. */
  function Element(X: seq<real>, off: nat, n: nat, i: nat, j: nat): real
    requires i < n && j < n && off + n * n <= |X|
  {
    RowMajorInRange(n, n, i, j);
    X[off + DenseIndexStride(n, i, j)]
  }

  /** Writing element (r, c) of the block changes element (i, j) only when they coincide. */
  lemma ElementAfterWrite(X: seq<real>, off: nat, n: nat, r: nat, c: nat, v: real, i: nat, j: nat)
    requires r < n && c < n && i < n && j < n && off + n * n <= |X|
    ensures off + DenseIndexStride(n, r, c) < |X|
    ensures Element(X[off + DenseIndexStride(n, r, c) := v], off, n, i, j)
         == if i == r && j == c then v else Element(X, off, n, i, j)
  {
    RowMajorInRange(n, n, r, c);
    RowMajorInRange(n, n, i, j);
    if DenseIndexStride(n, r, c) == DenseIndexStride(n, i, j) {
      DenseIndexInjective(false, n, n, r, c, i, j);
    }
  }

  /** The real quotient, made total: the source's float division by zero (an infinity or NaN)
      is not modelled and yields 0 here. */
  function Quot(a: real, b: real): (r: real)
    ensures b != 0.0 ==> r * b == a
  {
    if b == 0.0 then 0.0 else a / b
  }

  /** Two sums that agree so far and add the same product agree after it, whichever order
      the second sum multiplies the factors in. */
  lemma SameStep(x: real, y: real, g: real, d: real, a: real, b: real, a': real, b': real, swapped: bool)
    requires x == g + a * b && g == d && a == a' && b == b'
    requires if swapped then y == d + b' * a' else y == d + a' * b'
    ensures x == y
  {
  }

  /** A running difference s0 - c stays one when the same product is taken off s and added to c. */
  lemma SubtractStep(s: real, s': real, s0: real, c: real, c': real, a: real, b: real, a': real, b': real)
    requires s == s0 - c && s' == s - a * b && c' == c + a' * b' && a == a' && b == b'
    ensures s' == s0 - c'
  {
  }

  /** With a nonzero divisor, the quotient is the only solution of y * b == a. */
  lemma QuotUnique(a: real, b: real, y: real)
    requires b != 0.0
    ensures y == Quot(a, b) <==> y * b == a
  {
    var q := Quot(a, b);
    if y * b == a {
      assert (y - q) * b == 0.0;
    }
  }

  lemma RowMajorInRange(stride: int, rows: int, i: int, j: int)
    requires 0 <= i < rows && 0 <= j < stride
    ensures 0 <= DenseIndexStride(stride, i, j) < rows * stride
  {
    assert 0 <= i * stride by { MulNonNegative(i, stride); }
    assert i * stride + stride <= rows * stride by {
      MulNonNegative(rows - 1 - i, stride);
      assert (rows - 1 - i) * stride == rows * stride - i * stride - stride;
    }
  }

  /** Row (i+1) starts right after the last entry of row i. */
  lemma NextRow(stride: int, i: int)
    ensures (i + 1) * stride == i * stride + stride
  {
  }

  lemma MulNonNegative(a: int, b: int)
    requires 0 <= a && 0 <= b
    ensures 0 <= a * b
  {
  }

  /** Division by the stride recovers the row and the remainder the column. */
  lemma RowMajorDivMod(stride: int, i: int, j: int)
    requires stride > 0 && 0 <= i && 0 <= j < stride
    ensures (i * stride + j) / stride == i && (i * stride + j) % stride == j
  {
    var q := i * stride + j;
    var d, r := q / stride, q % stride;
    assert q == d * stride + r;
    assert 0 <= r < stride;
    assert (i - d) * stride == r - j;
    if i > d {
      MulNonNegative(i - d - 1, stride);
      assert false;
    } else if i < d {
      MulNonNegative(d - i - 1, stride);
      assert false;
    }
  }

  /** A flat offset inside an m x n row-major block splits into an in-range row and column. */
  lemma BlockCoordinates(m: int, n: int, r: int)
    requires 0 <= m && 0 <= r < m * n
    ensures n > 0 && 0 <= r / n < m && 0 <= r % n < n
    ensures r == DenseIndexStride(n, r / n, r % n)
  {
    if n <= 0 {
      MulNonNegative(m, -n);
      assert false;
    }
    if r / n >= m {
      MulNonNegative(r / n - m, n);
      assert false;
    }
  }

  /** Both overloads address every in-range element inside the block [0, rows*cols). */
  lemma DenseIndexInRange(transpose: bool, rows: int, cols: int, i: int, j: int)
    requires 0 <= i < rows && 0 <= j < cols
    ensures 0 <= DenseIndex(transpose, rows, cols, i, j) < rows * cols
  {
    if transpose {
      RowMajorInRange(rows, cols, j, i);
      assert cols * rows == rows * cols;
    } else {
      RowMajorInRange(cols, rows, i, j);
    }
  }

  /** Distinct in-range coordinates never share a flat offset. */
  lemma DenseIndexInjective(transpose: bool, rows: int, cols: int, i: int, j: int, i': int, j': int)
    requires 0 <= i < rows && 0 <= j < cols && 0 <= i' < rows && 0 <= j' < cols
    requires DenseIndex(transpose, rows, cols, i, j) == DenseIndex(transpose, rows, cols, i', j')
    ensures i == i' && j == j'
  {
    if transpose {
      RowMajorDivMod(rows, j, i);
      RowMajorDivMod(rows, j', i');
    } else {
      RowMajorDivMod(cols, i, j);
      RowMajorDivMod(cols, i', j');
    }
  }

  /** The stride overload with stride `cols` is the untransposed template overload, and the
      transposed overload reads the row-major cols x rows matrix at (j, i). */
  lemma OverloadsAgree(rows: int, cols: int, i: int, j: int)
    ensures DenseIndex(false, rows, cols, i, j) == DenseIndexStride(cols, i, j)
    ensures DenseIndex(true, rows, cols, i, j) == DenseIndexStride(rows, j, i)
    ensures DenseIndex(true, rows, cols, i, j) == DenseIndex(false, cols, rows, j, i)
  {
  }
}
