/** General matrix multiply over flat buffers (warp/native/matnn.h, `dense_gemm_impl`,
    `dense_gemm`, `dense_gemm_batched`), over exact reals. A buffer argument `A + off` of the
    source is an array together with the offset `off`. */
module Gemm {
  import opened DenseIndexing

  /** The buffers hold an m x p left operand, a p x n right operand and an m x n result. */
  predicate GemmFits(m: nat, n: nat, p: nat, aLen: nat, aOff: nat, bLen: nat, bOff: nat, cLen: nat, cOff: nat)
  {
    aOff + m * p <= aLen && bOff + p * n <= bLen && cOff + m * n <= cLen
  }

  /** Entry (i, j) of the logical operand stored at `off` (transposed or not). */
  function Operand(t: bool, rows: nat, cols: nat, A: seq<real>, off: nat, i: nat, j: nat): real
    requires i < rows && j < cols && off + rows * cols <= |A|
  {
    DenseIndexInRange(t, rows, cols, i, j);
    A[off + DenseIndex(t, rows, cols, i, j)]
  }

  /** The first `k` terms of the inner product that `dense_gemm_impl` accumulates in `sum`. */
  function GemmSum(t1: bool, t2: bool, m: nat, n: nat, p: nat, A: seq<real>, aOff: nat,
                   B: seq<real>, bOff: nat, i: nat, j: nat, k: nat): real
    requires i < m && j < n && k <= p
    requires aOff + m * p <= |A| && bOff + p * n <= |B|
    decreases k
  {
    if k == 0 then 0.0
    else GemmSum(t1, t2, m, n, p, A, aOff, B, bOff, i, j, k - 1)
         + Operand(t1, m, p, A, aOff, i, k - 1) * Operand(t2, p, n, B, bOff, k - 1, j)
  }

  /** The value the multiply leaves at flat position `q` of the output buffer. */
  function GemmAt(t1: bool, t2: bool, add: bool, m: nat, n: nat, p: nat, A: seq<real>, aOff: nat,
                  B: seq<real>, bOff: nat, C0: seq<real>, cOff: nat, q: nat): real
    requires GemmFits(m, n, p, |A|, aOff, |B|, bOff, |C0|, cOff) && q < |C0|
  {
    if cOff <= q < cOff + m * n then
      BlockCoordinates(m, n, q - cOff);
      (if add then C0[q] else 0.0)
        + GemmSum(t1, t2, m, n, p, A, aOff, B, bOff, (q - cOff) / n, (q - cOff) % n, p)
    else C0[q]
  }

  /** The whole output buffer after the multiply, from its contents C0 before. */
  function GemmResult(t1: bool, t2: bool, add: bool, m: nat, n: nat, p: nat, A: seq<real>, aOff: nat,
                      B: seq<real>, bOff: nat, C0: seq<real>, cOff: nat): (C: seq<real>)
    requires GemmFits(m, n, p, |A|, aOff, |B|, bOff, |C0|, cOff)
    ensures |C| == |C0|
  {
    seq(|C0|, q requires 0 <= q < |C0| => GemmAt(t1, t2, add, m, n, p, A, aOff, B, bOff, C0, cOff, q))
  }

  /** `dense_gemm_impl<t1, t2, add>`: C = op(A) op(B), overwriting or accumulating. */
  method DenseGemmImpl(t1: bool, t2: bool, add: bool, m: nat, n: nat, p: nat,
                       A: array<real>, aOff: nat, B: array<real>, bOff: nat, C: array<real>, cOff: nat)
    requires GemmFits(m, n, p, A.Length, aOff, B.Length, bOff, C.Length, cOff)
    requires C != A && C != B
    modifies C
    ensures C[..] == GemmResult(t1, t2, add, m, n, p, A[..], aOff, B[..], bOff, old(C[..]), cOff)
  {
    ghost var C0 := C[..];
    for i := 0 to m
      invariant forall q :: 0 <= q < cOff + i * n && q < C.Length ==>
        C[q] == GemmAt(t1, t2, add, m, n, p, A[..], aOff, B[..], bOff, C0, cOff, q)
      invariant forall q :: 0 <= q < C.Length && cOff + i * n <= q ==> C[q] == C0[q]
    {
      ghost var rowStart := cOff + i * n;
      for j := 0 to n
        invariant forall q :: 0 <= q < rowStart + j && q < C.Length ==>
          C[q] == GemmAt(t1, t2, add, m, n, p, A[..], aOff, B[..], bOff, C0, cOff, q)
        invariant forall q :: 0 <= q < C.Length && rowStart + j <= q ==> C[q] == C0[q]
      {
        var sum := GemmDot(t1, t2, m, n, p, A, aOff, B, bOff, i, j);
        GemmAtInside(t1, t2, add, m, n, p, A[..], aOff, B[..], bOff, C0, cOff, i, j);
        if add {
          C[cOff + i * n + j] := C[cOff + i * n + j] + sum;
        } else {
          C[cOff + i * n + j] := sum;
        }
      }
      NextRow(n, i);
    }
  }

  /** The innermost loop of `dense_gemm_impl`: the sum over k of op(A)[i][k] * op(B)[k][j]. */
  method GemmDot(t1: bool, t2: bool, m: nat, n: nat, p: nat, A: array<real>, aOff: nat,
                 B: array<real>, bOff: nat, i: nat, j: nat) returns (sum: real)
    requires i < m && j < n
    requires aOff + m * p <= A.Length && bOff + p * n <= B.Length
    ensures sum == GemmSum(t1, t2, m, n, p, A[..], aOff, B[..], bOff, i, j, p)
  {
    sum := 0.0;
    for k := 0 to p
      invariant sum == GemmSum(t1, t2, m, n, p, A[..], aOff, B[..], bOff, i, j, k)
    {
      DenseIndexInRange(t1, m, p, i, k);
      DenseIndexInRange(t2, p, n, k, j);
      sum := sum + A[aOff + DenseIndex(t1, m, p, i, k)] * B[bOff + DenseIndex(t2, p, n, k, j)];
    }
  }

  /** The write of entry (i, j) lands at q = cOff + i*n + j and stores GemmAt(q). */
  lemma GemmAtInside(t1: bool, t2: bool, add: bool, m: nat, n: nat, p: nat, A: seq<real>, aOff: nat,
                     B: seq<real>, bOff: nat, C0: seq<real>, cOff: nat, i: nat, j: nat)
    requires GemmFits(m, n, p, |A|, aOff, |B|, bOff, |C0|, cOff) && i < m && j < n
    ensures 0 <= i * n + j && cOff + i * n + j < cOff + m * n <= |C0|
    ensures DenseIndex(false, m, n, i, j) == i * n + j
    ensures GemmAt(t1, t2, add, m, n, p, A, aOff, B, bOff, C0, cOff, cOff + i * n + j)
         == (if add then C0[cOff + i * n + j] else 0.0) + GemmSum(t1, t2, m, n, p, A, aOff, B, bOff, i, j, p)
  {
    RowMajorInRange(n, m, i, j);
    RowMajorDivMod(n, i, j);
  }

  /** A transpose flag the dispatch in `dense_gemm` recognises. For such a flag, C's
      truth test `if (t)` and the comparison with 1 agree; any other value matches neither
      `t == 0` nor `t == 1`. */
  predicate IsFlag(t: int): (b: bool)
    ensures b ==> (t != 0 <==> t == 1)
    ensures !b ==> t != 0 && t != 1
  {
    t == 0 || t == 1
  }

  /** `dense_gemm<add>`: dispatches on the integer transpose flags; any flag other than 0 or 1
      leaves C untouched. */
  method DenseGemm(add: bool, m: nat, n: nat, p: nat, t1: int, t2: int,
                   A: array<real>, aOff: nat, B: array<real>, bOff: nat, C: array<real>, cOff: nat)
    requires IsFlag(t1) && IsFlag(t2) ==> GemmFits(m, n, p, A.Length, aOff, B.Length, bOff, C.Length, cOff)
    requires C != A && C != B
    modifies C
    ensures IsFlag(t1) && IsFlag(t2) ==>
      C[..] == GemmResult(t1 == 1, t2 == 1, add, m, n, p, A[..], aOff, B[..], bOff, old(C[..]), cOff)
    ensures !(IsFlag(t1) && IsFlag(t2)) ==> C[..] == old(C[..])
  {
    if t1 == 0 && t2 == 0 {
      DenseGemmImpl(false, false, add, m, n, p, A, aOff, B, bOff, C, cOff);
    } else if t1 == 1 && t2 == 0 {
      DenseGemmImpl(true, false, add, m, n, p, A, aOff, B, bOff, C, cOff);
    } else if t1 == 0 && t2 == 1 {
      DenseGemmImpl(false, true, add, m, n, p, A, aOff, B, bOff, C, cOff);
    } else if t1 == 1 && t2 == 1 {
      DenseGemmImpl(true, true, add, m, n, p, A, aOff, B, bOff, C, cOff);
    }
  }

  /** The descriptor entries of one batch element of a batched multiply are present and its
      blocks fit the shared buffers. */
  predicate BatchFits(batch: nat, m: seq<nat>, n: seq<nat>, p: seq<nat>,
                      aStart: seq<nat>, bStart: seq<nat>, cStart: seq<nat>, aLen: nat, bLen: nat, cLen: nat)
  {
    batch < |m| && batch < |n| && batch < |p| && batch < |aStart| && batch < |bStart| && batch < |cStart|
    && GemmFits(m[batch], n[batch], p[batch], aLen, aStart[batch], bLen, bStart[batch], cLen, cStart[batch])
  }

  /** `dense_gemm_batched<add>`: lane `tid` works on batch element tid / 256 and runs the
      single-block multiply on that element's slices. */
  method DenseGemmBatched(add: bool, m: seq<nat>, n: seq<nat>, p: seq<nat>, t1: int, t2: int,
                          aStart: seq<nat>, bStart: seq<nat>, cStart: seq<nat>,
                          A: array<real>, B: array<real>, C: array<real>, tid: nat)
    requires BatchFits(tid / NumThreadsPerBlock, m, n, p, aStart, bStart, cStart, A.Length, B.Length, C.Length)
    requires C != A && C != B
    modifies C
    ensures var b := tid / NumThreadsPerBlock;
      IsFlag(t1) && IsFlag(t2) ==>
        C[..] == GemmResult(t1 == 1, t2 == 1, add, m[b], n[b], p[b], A[..], aStart[b], B[..], bStart[b], old(C[..]), cStart[b])
    ensures !(IsFlag(t1) && IsFlag(t2)) ==> C[..] == old(C[..])
  {
    var batch := tid / NumThreadsPerBlock;
    DenseGemm(add, m[batch], n[batch], p[batch], t1, t2, A, aStart[batch], B, bStart[batch], C, cStart[batch]);
  }

  // ---------------------------------------------------------------------------------------------
  // Properties of the multiply

  /** Entry (i, j) of the result, at C[i*n + j], is the inner product of row i of op(A) with
      column j of op(B), added to the old entry when accumulating. */
  lemma GemmResultAt(t1: bool, t2: bool, add: bool, m: nat, n: nat, p: nat, A: seq<real>, aOff: nat,
                     B: seq<real>, bOff: nat, C0: seq<real>, cOff: nat, i: nat, j: nat)
    requires GemmFits(m, n, p, |A|, aOff, |B|, bOff, |C0|, cOff) && i < m && j < n
    ensures cOff + DenseIndex(false, m, n, i, j) < |C0|
    ensures GemmResult(t1, t2, add, m, n, p, A, aOff, B, bOff, C0, cOff)[cOff + DenseIndex(false, m, n, i, j)]
         == (if add then C0[cOff + DenseIndex(false, m, n, i, j)] else 0.0)
            + GemmSum(t1, t2, m, n, p, A, aOff, B, bOff, i, j, p)
  {
    GemmAtEntry(t1, t2, add, m, n, p, A, aOff, B, bOff, C0, cOff, i, j);
    GemmResultIndex(t1, t2, add, m, n, p, A, aOff, B, bOff, C0, cOff, cOff + DenseIndex(false, m, n, i, j));
  }

  lemma GemmAtEntry(t1: bool, t2: bool, add: bool, m: nat, n: nat, p: nat, A: seq<real>, aOff: nat,
                    B: seq<real>, bOff: nat, C0: seq<real>, cOff: nat, i: nat, j: nat)
    requires GemmFits(m, n, p, |A|, aOff, |B|, bOff, |C0|, cOff) && i < m && j < n
    ensures 0 <= DenseIndex(false, m, n, i, j) && cOff + DenseIndex(false, m, n, i, j) < |C0|
    ensures GemmAt(t1, t2, add, m, n, p, A, aOff, B, bOff, C0, cOff, cOff + DenseIndex(false, m, n, i, j))
         == (if add then C0[cOff + DenseIndex(false, m, n, i, j)] else 0.0) + GemmSum(t1, t2, m, n, p, A, aOff, B, bOff, i, j, p)
  {
    GemmAtInside(t1, t2, add, m, n, p, A, aOff, B, bOff, C0, cOff, i, j);
  }

  lemma GemmResultIndex(t1: bool, t2: bool, add: bool, m: nat, n: nat, p: nat, A: seq<real>, aOff: nat,
                        B: seq<real>, bOff: nat, C0: seq<real>, cOff: nat, q: nat)
    requires GemmFits(m, n, p, |A|, aOff, |B|, bOff, |C0|, cOff) && q < |C0|
    ensures GemmResult(t1, t2, add, m, n, p, A, aOff, B, bOff, C0, cOff)[q]
         == GemmAt(t1, t2, add, m, n, p, A, aOff, B, bOff, C0, cOff, q)
  {
  }

  /** The multiply writes only C[cOff .. cOff + m*n); the rest of the buffer keeps its contents. */
  lemma GemmResultOutside(t1: bool, t2: bool, add: bool, m: nat, n: nat, p: nat, A: seq<real>, aOff: nat,
                          B: seq<real>, bOff: nat, C0: seq<real>, cOff: nat, q: nat)
    requires GemmFits(m, n, p, |A|, aOff, |B|, bOff, |C0|, cOff) && q < |C0|
    requires q < cOff || cOff + m * n <= q
    ensures |GemmResult(t1, t2, add, m, n, p, A, aOff, B, bOff, C0, cOff)| == |C0|
    ensures GemmResult(t1, t2, add, m, n, p, A, aOff, B, bOff, C0, cOff)[q] == C0[q]
  {
  }

  /** GemmResultOutside for every position at once. */
  lemma GemmKeepsOutside(t1: bool, t2: bool, add: bool, m: nat, n: nat, p: nat, A: seq<real>, aOff: nat,
                         B: seq<real>, bOff: nat, C0: seq<real>, cOff: nat)
    requires GemmFits(m, n, p, |A|, aOff, |B|, bOff, |C0|, cOff)
    ensures forall q :: 0 <= q < |C0| && (q < cOff || cOff + m * n <= q) ==>
      GemmResult(t1, t2, add, m, n, p, A, aOff, B, bOff, C0, cOff)[q] == C0[q]
  {
    forall q | 0 <= q < |C0| && (q < cOff || cOff + m * n <= q) {
      GemmResultOutside(t1, t2, add, m, n, p, A, aOff, B, bOff, C0, cOff, q);
    }
  }

  function Zeros(len: nat): (z: seq<real>)
    ensures |z| == len && forall q :: 0 <= q < len ==> z[q] == 0.0
  {
    seq(len, _ => 0.0)
  }

  function AddSeq(a: seq<real>, b: seq<real>): (s: seq<real>)
    requires |a| == |b|
    ensures |s| == |a| && forall q :: 0 <= q < |a| ==> s[q] == a[q] + b[q]
  {
    seq(|a|, q requires 0 <= q < |a| => a[q] + b[q])
  }

  /** Accumulating into C0 gives C0 plus what overwriting a zero buffer gives. */
  lemma GemmAccumulateIsAddition(t1: bool, t2: bool, m: nat, n: nat, p: nat, A: seq<real>, aOff: nat,
                                 B: seq<real>, bOff: nat, C0: seq<real>, cOff: nat)
    requires GemmFits(m, n, p, |A|, aOff, |B|, bOff, |C0|, cOff)
    ensures GemmResult(t1, t2, true, m, n, p, A, aOff, B, bOff, C0, cOff)
         == AddSeq(C0, GemmResult(t1, t2, false, m, n, p, A, aOff, B, bOff, Zeros(|C0|), cOff))
  {
    var acc := GemmResult(t1, t2, true, m, n, p, A, aOff, B, bOff, C0, cOff);
    var ovr := GemmResult(t1, t2, false, m, n, p, A, aOff, B, bOff, Zeros(|C0|), cOff);
    forall q | 0 <= q < |C0|
      ensures acc[q] == C0[q] + ovr[q]
    {
    }
  }

  /** Two batch elements whose output blocks do not overlap can be multiplied in either order. */
  lemma GemmBatchesCommute(t1: bool, t2: bool, add: bool, A: seq<real>, B: seq<real>, C0: seq<real>,
                           m1: nat, n1: nat, p1: nat, aOff1: nat, bOff1: nat, cOff1: nat,
                           m2: nat, n2: nat, p2: nat, aOff2: nat, bOff2: nat, cOff2: nat)
    requires GemmFits(m1, n1, p1, |A|, aOff1, |B|, bOff1, |C0|, cOff1)
    requires GemmFits(m2, n2, p2, |A|, aOff2, |B|, bOff2, |C0|, cOff2)
    requires cOff1 + m1 * n1 <= cOff2 || cOff2 + m2 * n2 <= cOff1
    ensures GemmResult(t1, t2, add, m2, n2, p2, A, aOff2, B, bOff2,
              GemmResult(t1, t2, add, m1, n1, p1, A, aOff1, B, bOff1, C0, cOff1), cOff2)
         == GemmResult(t1, t2, add, m1, n1, p1, A, aOff1, B, bOff1,
              GemmResult(t1, t2, add, m2, n2, p2, A, aOff2, B, bOff2, C0, cOff2), cOff1)
  {
  }

  // ---------------------------------------------------------------------------------------------
  // Reference definition: the product of the logical matrices

  /** The logical rows x cols matrix the flag and offset select in a flat buffer. */
  function Logical(t: bool, rows: nat, cols: nat, A: seq<real>, off: nat): (X: seq<seq<real>>)
    requires off + rows * cols <= |A|
    ensures |X| == rows && forall i :: 0 <= i < rows ==> |X[i]| == cols
  {
    seq(rows, i requires 0 <= i < rows => seq(cols, j requires 0 <= j < cols => Operand(t, rows, cols, A, off, i, j)))
  }

  function Transpose(X: seq<seq<real>>, rows: nat, cols: nat): (Y: seq<seq<real>>)
    requires |X| == rows && forall i :: 0 <= i < rows ==> |X[i]| == cols
    ensures |Y| == cols && forall j :: 0 <= j < cols ==> |Y[j]| == rows
  {
    seq(cols, j requires 0 <= j < cols => seq(rows, i requires 0 <= i < rows => X[i][j]))
  }

  /** Inner product of row i of X with column j of Y over the first k terms. */
  function Dot(X: seq<seq<real>>, Y: seq<seq<real>>, i: nat, j: nat, k: nat): real
    requires i < |X| && k <= |Y| && k <= |X[i]| && forall l :: 0 <= l < k ==> j < |Y[l]|
    decreases k
  {
    if k == 0 then 0.0 else Dot(X, Y, i, j, k - 1) + X[i][k - 1] * Y[k - 1][j]
  }

  /** Reading a buffer with the transpose flag set gives the transpose of the row-major
      matrix stored there, with no data moved. */
  lemma TransposedOperand(rows: nat, cols: nat, A: seq<real>, off: nat)
    requires off + rows * cols <= |A|
    ensures off + cols * rows <= |A|
    ensures Logical(true, rows, cols, A, off) == Transpose(Logical(false, cols, rows, A, off), cols, rows)
  {
    assert cols * rows == rows * cols;
    var X := Logical(true, rows, cols, A, off);
    var Y := Transpose(Logical(false, cols, rows, A, off), cols, rows);
    forall i | 0 <= i < rows
      ensures X[i] == Y[i]
    {
      forall j | 0 <= j < cols
        ensures X[i][j] == Y[i][j]
      {
        assert X[i][j] == Operand(true, rows, cols, A, off, i, j);
        assert Y[i][j] == Operand(false, cols, rows, A, off, j, i);
      }
    }
  }

  lemma LogicalAt(t: bool, rows: nat, cols: nat, A: seq<real>, off: nat, i: nat, j: nat)
    requires off + rows * cols <= |A| && i < rows && j < cols
    ensures Logical(t, rows, cols, A, off)[i][j] == Operand(t, rows, cols, A, off, i, j)
  {
  }

  lemma GemmSumUnfold(t1: bool, t2: bool, m: nat, n: nat, p: nat, A: seq<real>, aOff: nat,
                      B: seq<real>, bOff: nat, i: nat, j: nat, k: nat)
    requires i < m && j < n && 0 < k <= p
    requires aOff + m * p <= |A| && bOff + p * n <= |B|
    ensures GemmSum(t1, t2, m, n, p, A, aOff, B, bOff, i, j, k)
         == GemmSum(t1, t2, m, n, p, A, aOff, B, bOff, i, j, k - 1)
            + Operand(t1, m, p, A, aOff, i, k - 1) * Operand(t2, p, n, B, bOff, k - 1, j)
  {
  }

  lemma DotUnfold(X: seq<seq<real>>, Y: seq<seq<real>>, i: nat, j: nat, k: nat)
    requires i < |X| && 0 < k <= |Y| && k <= |X[i]| && forall l :: 0 <= l < k ==> j < |Y[l]|
    ensures Dot(X, Y, i, j, k) == Dot(X, Y, i, j, k - 1) + X[i][k - 1] * Y[k - 1][j]
  {
  }

  /** The multiply's inner sum is the matrix product of the logical operands. */
  lemma GemmSumIsProduct(t1: bool, t2: bool, m: nat, n: nat, p: nat, A: seq<real>, aOff: nat,
                         B: seq<real>, bOff: nat, i: nat, j: nat, k: nat)
    requires i < m && j < n && k <= p
    requires aOff + m * p <= |A| && bOff + p * n <= |B|
    ensures GemmSum(t1, t2, m, n, p, A, aOff, B, bOff, i, j, k)
         == Dot(Logical(t1, m, p, A, aOff), Logical(t2, p, n, B, bOff), i, j, k)
  {
    var X, Y := Logical(t1, m, p, A, aOff), Logical(t2, p, n, B, bOff);
    forall l | 0 <= l < p
      ensures X[i][l] == Operand(t1, m, p, A, aOff, i, l) && Y[l][j] == Operand(t2, p, n, B, bOff, l, j)
    {
      LogicalAt(t1, m, p, A, aOff, i, l);
      LogicalAt(t2, p, n, B, bOff, l, j);
    }
    SumMatchesDot(t1, t2, m, n, p, A, aOff, B, bOff, i, j, X, Y, k);
  }

  /** The inner sum equals the dot product of any two matrices holding the operands' entries. */
  lemma {:induction false} SumMatchesDot(t1: bool, t2: bool, m: nat, n: nat, p: nat, A: seq<real>, aOff: nat,
                                         B: seq<real>, bOff: nat, i: nat, j: nat,
                                         X: seq<seq<real>>, Y: seq<seq<real>>, k: nat)
    requires i < m && j < n && k <= p
    requires aOff + m * p <= |A| && bOff + p * n <= |B|
    requires i < |X| && |X[i]| == p && |Y| == p && forall l :: 0 <= l < p ==> j < |Y[l]|
    requires forall l :: 0 <= l < p ==>
      X[i][l] == Operand(t1, m, p, A, aOff, i, l) && Y[l][j] == Operand(t2, p, n, B, bOff, l, j)
    ensures GemmSum(t1, t2, m, n, p, A, aOff, B, bOff, i, j, k) == Dot(X, Y, i, j, k)
  {
    if k > 0 {
      SumMatchesDot(t1, t2, m, n, p, A, aOff, B, bOff, i, j, X, Y, k - 1);
      GemmSumUnfold(t1, t2, m, n, p, A, aOff, B, bOff, i, j, k);
      DotUnfold(X, Y, i, j, k);
      SameStep(GemmSum(t1, t2, m, n, p, A, aOff, B, bOff, i, j, k), Dot(X, Y, i, j, k),
               GemmSum(t1, t2, m, n, p, A, aOff, B, bOff, i, j, k - 1), Dot(X, Y, i, j, k - 1),
               Operand(t1, m, p, A, aOff, i, k - 1), Operand(t2, p, n, B, bOff, k - 1, j),
               X[i][k - 1], Y[k - 1][j], false);
    }
  }

  /** A = [[1,2],[3,4]], B = [[5,6],[7,8]] multiply to [[19,22],[43,50]]; with A read
      transposed, to [[26,30],[38,44]]. */
  lemma GemmExample()
    ensures GemmResult(false, false, false, 2, 2, 2, [1.0, 2.0, 3.0, 4.0], 0, [5.0, 6.0, 7.0, 8.0], 0, Zeros(4), 0)
         == [19.0, 22.0, 43.0, 50.0]
    ensures GemmResult(true, false, false, 2, 2, 2, [1.0, 2.0, 3.0, 4.0], 0, [5.0, 6.0, 7.0, 8.0], 0, Zeros(4), 0)
         == [26.0, 30.0, 38.0, 44.0]
  {
    var A, B, Z := [1.0, 2.0, 3.0, 4.0], [5.0, 6.0, 7.0, 8.0], Zeros(4);
    ExampleEntries(false, A, B, Z, [19.0, 22.0, 43.0, 50.0]);
    ExampleEntries(true, A, B, Z, [26.0, 30.0, 38.0, 44.0]);
  }

  lemma ExampleEntries(t1: bool, A: seq<real>, B: seq<real>, Z: seq<real>, expected: seq<real>)
    requires |A| == 4 && |B| == 4 && Z == Zeros(4) && |expected| == 4
    requires forall i: nat, j: nat :: i < 2 && j < 2 ==>
      expected[2 * i + j] == Operand(t1, 2, 2, A, 0, i, 0) * B[j] + Operand(t1, 2, 2, A, 0, i, 1) * B[2 + j]
    ensures GemmResult(t1, false, false, 2, 2, 2, A, 0, B, 0, Z, 0) == expected
  {
    var r := GemmResult(t1, false, false, 2, 2, 2, A, 0, B, 0, Z, 0);
    ExampleEntry(t1, A, B, Z, expected, 0, 0);
    ExampleEntry(t1, A, B, Z, expected, 0, 1);
    ExampleEntry(t1, A, B, Z, expected, 1, 0);
    ExampleEntry(t1, A, B, Z, expected, 1, 1);
    assert r == [r[0], r[1], r[2], r[3]];
  }

  lemma ExampleEntry(t1: bool, A: seq<real>, B: seq<real>, Z: seq<real>, expected: seq<real>, i: nat, j: nat)
    requires |A| == 4 && |B| == 4 && Z == Zeros(4) && |expected| == 4 && i < 2 && j < 2
    requires expected[2 * i + j] == Operand(t1, 2, 2, A, 0, i, 0) * B[j] + Operand(t1, 2, 2, A, 0, i, 1) * B[2 + j]
    ensures GemmResult(t1, false, false, 2, 2, 2, A, 0, B, 0, Z, 0)[2 * i + j] == expected[2 * i + j]
  {
    GemmResultAt(t1, false, false, 2, 2, 2, A, 0, B, 0, Z, 0, i, j);
    assert DenseIndex(false, 2, 2, i, j) == 2 * i + j;
    assert Operand(false, 2, 2, B, 0, 0, j) == B[j];
    assert Operand(false, 2, 2, B, 0, 1, j) == B[2 + j];
  }
}
