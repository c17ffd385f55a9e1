/** Reverse-mode adjoint of the multiply (warp/native/matnn.h, `adj_dense_gemm`,
    `adj_dense_gemm_batched`). For C = op1(A) op2(B) and an incoming gradient adjC of C, the
    exact gradients are adj op1(A) = adjC op2(B)^T and adj op2(B) = op1(A)^T adjC, to be added
    into adjA and adjB in the storage layout of A and B. */
module GemmAdjoint {
  import opened DenseIndexing
  import opened Gemm

  // ---------------------------------------------------------------------------------------------
  // Reference gradients

  /** The first `l` terms of sum over j of adjC[i][j] * op2(B)[k][j]: entry (i, k) of the
      gradient with respect to the logical left operand. */
  function GradASum(t2: bool, m: nat, n: nat, p: nat, B: seq<real>, bOff: nat, adjC: seq<real>, cOff: nat,
                    i: nat, k: nat, l: nat): real
    requires i < m && k < p && l <= n
    requires bOff + p * n <= |B| && cOff + m * n <= |adjC|
    decreases l
  {
    if l == 0 then 0.0
    else GradASum(t2, m, n, p, B, bOff, adjC, cOff, i, k, l - 1)
         + Operand(false, m, n, adjC, cOff, i, l - 1) * Operand(t2, p, n, B, bOff, k, l - 1)
  }

  /** The first `l` terms of sum over i of op1(A)[i][k] * adjC[i][j]: entry (k, j) of the
      gradient with respect to the logical right operand. */
  function GradBSum(t1: bool, m: nat, n: nat, p: nat, A: seq<real>, aOff: nat, adjC: seq<real>, cOff: nat,
                    k: nat, j: nat, l: nat): real
    requires k < p && j < n && l <= m
    requires aOff + m * p <= |A| && cOff + m * n <= |adjC|
    decreases l
  {
    if l == 0 then 0.0
    else GradBSum(t1, m, n, p, A, aOff, adjC, cOff, k, j, l - 1)
         + Operand(t1, m, p, A, aOff, l - 1, k) * Operand(false, m, n, adjC, cOff, l - 1, j)
  }

  /** adjA1 is adjA0 with the exact gradient of op1(A) added at the stored position of every
      entry of A's block, and every other position unchanged. */
  ghost predicate ExactGradA(t1: bool, t2: bool, m: nat, n: nat, p: nat, B: seq<real>, bOff: nat,
                             adjC: seq<real>, cOff: nat, adjA0: seq<real>, adjA1: seq<real>, aOff: nat)
    requires bOff + p * n <= |B| && cOff + m * n <= |adjC| && aOff + m * p <= |adjA0|
  {
    |adjA1| == |adjA0|
    && (forall i, k :: 0 <= i < m && 0 <= k < p ==>
          Operand(t1, m, p, adjA1, aOff, i, k)
          == Operand(t1, m, p, adjA0, aOff, i, k) + GradASum(t2, m, n, p, B, bOff, adjC, cOff, i, k, n))
    && (forall q :: 0 <= q < |adjA0| && !(aOff <= q < aOff + m * p) ==> adjA1[q] == adjA0[q])
  }

  /** The same for adjB and the gradient of op2(B). */
  ghost predicate ExactGradB(t1: bool, t2: bool, m: nat, n: nat, p: nat, A: seq<real>, aOff: nat,
                             adjC: seq<real>, cOff: nat, adjB0: seq<real>, adjB1: seq<real>, bOff: nat)
    requires aOff + m * p <= |A| && cOff + m * n <= |adjC| && bOff + p * n <= |adjB0|
  {
    |adjB1| == |adjB0|
    && (forall k, j :: 0 <= k < p && 0 <= j < n ==>
          Operand(t2, p, n, adjB1, bOff, k, j)
          == Operand(t2, p, n, adjB0, bOff, k, j) + GradBSum(t1, m, n, p, A, aOff, adjC, cOff, k, j, m))
    && (forall q :: 0 <= q < |adjB0| && !(bOff <= q < bOff + p * n) ==> adjB1[q] == adjB0[q])
  }

  /** The buffers of one adjoint call: A (m x p), B (p x n), adjC (m x n), adjA and adjB. */
  predicate AdjGemmFits(m: nat, n: nat, p: nat, aLen: nat, aOff: nat, bLen: nat, bOff: nat,
                        cLen: nat, cOff: nat, adjALen: nat, adjAOff: nat, adjBLen: nat, adjBOff: nat)
  {
    aOff + m * p <= aLen && bOff + p * n <= bLen && cOff + m * n <= cLen
    && adjAOff + m * p <= adjALen && adjBOff + p * n <= adjBLen
  }

  // ---------------------------------------------------------------------------------------------
  // The adjoint as the source writes it

  /** adjA after the source's first accumulating multiply. */
  function AsWrittenAdjA(t1: int, t2: int, m: nat, n: nat, p: nat, B: seq<real>, bOff: nat,
                         adjC: seq<real>, cOff: nat, adjA0: seq<real>, adjAOff: nat): (r: seq<real>)
    requires bOff + p * n <= |B| && cOff + m * n <= |adjC| && adjAOff + m * p <= |adjA0|
    ensures |r| == |adjA0|
    ensures forall q :: 0 <= q < |adjA0| && (q < adjAOff || adjAOff + m * p <= q) ==> r[q] == adjA0[q]
  {
    assert n * m == m * n && p * m == m * p && n * p == p * n;
    if t1 != 0 then
      GemmKeepsOutside(false, true, true, p, m, n, B, bOff, adjC, cOff, adjA0, adjAOff);
      GemmResult(false, true, true, p, m, n, B, bOff, adjC, cOff, adjA0, adjAOff)
    else
      GemmKeepsOutside(false, t2 == 0, true, m, p, n, adjC, cOff, B, bOff, adjA0, adjAOff);
      GemmResult(false, t2 == 0, true, m, p, n, adjC, cOff, B, bOff, adjA0, adjAOff)
  }

  /** adjB after the source's second accumulating multiply (the same call in both branches). */
  function AsWrittenAdjB(t1: int, m: nat, n: nat, p: nat, A: seq<real>, aOff: nat,
                         adjC: seq<real>, cOff: nat, adjB0: seq<real>, adjBOff: nat): (r: seq<real>)
    requires aOff + m * p <= |A| && cOff + m * n <= |adjC| && adjBOff + p * n <= |adjB0|
    ensures |r| == |adjB0|
    ensures forall q :: 0 <= q < |adjB0| && (q < adjBOff || adjBOff + p * n <= q) ==> r[q] == adjB0[q]
  {
    assert p * m == m * p;
    GemmKeepsOutside(t1 == 0, false, true, p, n, m, A, aOff, adjC, cOff, adjB0, adjBOff);
    GemmResult(t1 == 0, false, true, p, n, m, A, aOff, adjC, cOff, adjB0, adjBOff)
  }

  /** `adj_dense_gemm` as written: two accumulating multiplies whose operand layouts ignore
      t2 in the gradient of B (and, when t1 is set, in the gradient of A). */
  method AdjDenseGemmAsWritten(m: nat, n: nat, p: nat, t1: int, t2: int,
                               A: array<real>, aOff: nat, B: array<real>, bOff: nat,
                               adjA: array<real>, adjAOff: nat, adjB: array<real>, adjBOff: nat,
                               adjC: array<real>, cOff: nat)
    requires AdjGemmFits(m, n, p, A.Length, aOff, B.Length, bOff, adjC.Length, cOff, adjA.Length, adjAOff, adjB.Length, adjBOff)
    requires adjA != A && adjA != B && adjA != adjC && adjB != A && adjB != B && adjB != adjC && adjA != adjB
    modifies adjA, adjB
    ensures adjA[..] == AsWrittenAdjA(t1, t2, m, n, p, B[..], bOff, adjC[..], cOff, old(adjA[..]), adjAOff)
    ensures adjB[..] == AsWrittenAdjB(t1, m, n, p, A[..], aOff, adjC[..], cOff, old(adjB[..]), adjBOff)
  {
    assert n * m == m * n && p * m == m * p && n * p == p * n;
    if t1 != 0 {
      DenseGemm(true, p, m, n, 0, 1, B, bOff, adjC, cOff, adjA, adjAOff);
      DenseGemm(true, p, n, m, if t1 == 0 then 1 else 0, 0, A, aOff, adjC, cOff, adjB, adjBOff);
    } else {
      DenseGemm(true, m, p, n, 0, if t2 == 0 then 1 else 0, adjC, cOff, B, bOff, adjA, adjAOff);
      DenseGemm(true, p, n, m, if t1 == 0 then 1 else 0, 0, A, aOff, adjC, cOff, adjB, adjBOff);
    }
  }

  // ---------------------------------------------------------------------------------------------
  // The corrected adjoint

  /** adjA after the corrected first multiply: with t1 set, A's storage is op1(A)^T = op2(B) adjC^T,
      so B is read with its own flag t2. */
  function CorrectedAdjA(t1: int, t2: int, m: nat, n: nat, p: nat, B: seq<real>, bOff: nat,
                         adjC: seq<real>, cOff: nat, adjA0: seq<real>, adjAOff: nat): (r: seq<real>)
    requires bOff + p * n <= |B| && cOff + m * n <= |adjC| && adjAOff + m * p <= |adjA0|
    ensures |r| == |adjA0|
    ensures forall q :: 0 <= q < |adjA0| && (q < adjAOff || adjAOff + m * p <= q) ==> r[q] == adjA0[q]
  {
    assert n * m == m * n && p * m == m * p && n * p == p * n;
    if t1 != 0 then
      GemmKeepsOutside(t2 == 1, true, true, p, m, n, B, bOff, adjC, cOff, adjA0, adjAOff);
      GemmResult(t2 == 1, true, true, p, m, n, B, bOff, adjC, cOff, adjA0, adjAOff)
    else
      GemmKeepsOutside(false, t2 == 0, true, m, p, n, adjC, cOff, B, bOff, adjA0, adjAOff);
      GemmResult(false, t2 == 0, true, m, p, n, adjC, cOff, B, bOff, adjA0, adjAOff)
  }

  /** adjB after the corrected second multiply: with t2 set, B's storage is op2(B)^T = adjC^T op1(A). */
  function CorrectedAdjB(t1: int, t2: int, m: nat, n: nat, p: nat, A: seq<real>, aOff: nat,
                         adjC: seq<real>, cOff: nat, adjB0: seq<real>, adjBOff: nat): (r: seq<real>)
    requires aOff + m * p <= |A| && cOff + m * n <= |adjC| && adjBOff + p * n <= |adjB0|
    ensures |r| == |adjB0|
    ensures forall q :: 0 <= q < |adjB0| && (q < adjBOff || adjBOff + p * n <= q) ==> r[q] == adjB0[q]
  {
    assert p * m == m * p && n * p == p * n;
    if t2 != 0 then
      GemmKeepsOutside(true, t1 == 1, true, n, p, m, adjC, cOff, A, aOff, adjB0, adjBOff);
      GemmResult(true, t1 == 1, true, n, p, m, adjC, cOff, A, aOff, adjB0, adjBOff)
    else
      GemmKeepsOutside(t1 == 0, false, true, p, n, m, A, aOff, adjC, cOff, adjB0, adjBOff);
      GemmResult(t1 == 0, false, true, p, n, m, A, aOff, adjC, cOff, adjB0, adjBOff)
  }

  /** `adj_dense_gemm` with the layouts corrected: accumulates exactly the gradients of A and B
      for every combination of transpose flags. */
  method AdjDenseGemm(m: nat, n: nat, p: nat, t1: int, t2: int,
                      A: array<real>, aOff: nat, B: array<real>, bOff: nat,
                      adjA: array<real>, adjAOff: nat, adjB: array<real>, adjBOff: nat,
                      adjC: array<real>, cOff: nat)
    requires AdjGemmFits(m, n, p, A.Length, aOff, B.Length, bOff, adjC.Length, cOff, adjA.Length, adjAOff, adjB.Length, adjBOff)
    requires adjA != A && adjA != B && adjA != adjC && adjB != A && adjB != B && adjB != adjC && adjA != adjB
    modifies adjA, adjB
    ensures adjA[..] == CorrectedAdjA(t1, t2, m, n, p, B[..], bOff, adjC[..], cOff, old(adjA[..]), adjAOff)
    ensures adjB[..] == CorrectedAdjB(t1, t2, m, n, p, A[..], aOff, adjC[..], cOff, old(adjB[..]), adjBOff)
  {
    assert n * m == m * n && p * m == m * p && n * p == p * n;
    if t1 != 0 {
      DenseGemm(true, p, m, n, if t2 == 1 then 1 else 0, 1, B, bOff, adjC, cOff, adjA, adjAOff);
    } else {
      DenseGemm(true, m, p, n, 0, if t2 == 0 then 1 else 0, adjC, cOff, B, bOff, adjA, adjAOff);
    }
    if t2 != 0 {
      DenseGemm(true, n, p, m, 1, if t1 == 1 then 1 else 0, adjC, cOff, A, aOff, adjB, adjBOff);
    } else {
      DenseGemm(true, p, n, m, if t1 == 0 then 1 else 0, 0, A, aOff, adjC, cOff, adjB, adjBOff);
    }
  }

  /** `adj_dense_gemm_batched`: lane `tid` differentiates batch element tid / 256; the adjoint
      buffers use the same offset tables as the primal ones. */
  method AdjDenseGemmBatched(m: seq<nat>, n: seq<nat>, p: seq<nat>, t1: int, t2: int,
                             aStart: seq<nat>, bStart: seq<nat>, cStart: seq<nat>,
                             A: array<real>, B: array<real>, adjA: array<real>, adjB: array<real>,
                             adjC: array<real>, tid: nat)
    requires var b := tid / NumThreadsPerBlock;
      b < |m| && b < |n| && b < |p| && b < |aStart| && b < |bStart| && b < |cStart|
      && AdjGemmFits(m[b], n[b], p[b], A.Length, aStart[b], B.Length, bStart[b], adjC.Length, cStart[b],
                     adjA.Length, aStart[b], adjB.Length, bStart[b])
    requires adjA != A && adjA != B && adjA != adjC && adjB != A && adjB != B && adjB != adjC && adjA != adjB
    modifies adjA, adjB
    ensures var b := tid / NumThreadsPerBlock;
      adjA[..] == CorrectedAdjA(t1, t2, m[b], n[b], p[b], B[..], bStart[b], adjC[..], cStart[b], old(adjA[..]), aStart[b])
      && adjB[..] == CorrectedAdjB(t1, t2, m[b], n[b], p[b], A[..], aStart[b], adjC[..], cStart[b], old(adjB[..]), bStart[b])
  {
    var batch := tid / NumThreadsPerBlock;
    AdjDenseGemm(m[batch], n[batch], p[batch], t1, t2, A, aStart[batch], B, bStart[batch],
                 adjA, aStart[batch], adjB, bStart[batch], adjC, cStart[batch]);
  }

  // ---------------------------------------------------------------------------------------------
  // Proofs

  lemma GradASumUnfold(t2: bool, m: nat, n: nat, p: nat, B: seq<real>, bOff: nat, adjC: seq<real>, cOff: nat,
                       i: nat, k: nat, l: nat)
    requires i < m && k < p && 0 < l <= n
    requires bOff + p * n <= |B| && cOff + m * n <= |adjC|
    ensures GradASum(t2, m, n, p, B, bOff, adjC, cOff, i, k, l)
         == GradASum(t2, m, n, p, B, bOff, adjC, cOff, i, k, l - 1)
            + Operand(false, m, n, adjC, cOff, i, l - 1) * Operand(t2, p, n, B, bOff, k, l - 1)
  {
  }

  lemma GradBSumUnfold(t1: bool, m: nat, n: nat, p: nat, A: seq<real>, aOff: nat, adjC: seq<real>, cOff: nat,
                       k: nat, j: nat, l: nat)
    requires k < p && j < n && 0 < l <= m
    requires aOff + m * p <= |A| && cOff + m * n <= |adjC|
    ensures GradBSum(t1, m, n, p, A, aOff, adjC, cOff, k, j, l)
         == GradBSum(t1, m, n, p, A, aOff, adjC, cOff, k, j, l - 1)
            + Operand(t1, m, p, A, aOff, l - 1, k) * Operand(false, m, n, adjC, cOff, l - 1, j)
  {
  }

  /** Reading the stored transpose with the opposite flag gives the same entry. */
  lemma OperandDual(t: bool, rows: nat, cols: nat, X: seq<real>, off: nat, i: nat, j: nat)
    requires i < rows && j < cols && off + rows * cols <= |X|
    ensures off + cols * rows <= |X|
    ensures Operand(!t, cols, rows, X, off, j, i) == Operand(t, rows, cols, X, off, i, j)
  {
    assert cols * rows == rows * cols;
  }

  /** The multiply computing A's gradient when A is stored untransposed sums GradASum's terms. */
  lemma UntransposedASum(t2: bool, m: nat, n: nat, p: nat, B: seq<real>, bOff: nat,
                         adjC: seq<real>, cOff: nat, i: nat, k: nat, l: nat)
    requires i < m && k < p && l <= n
    requires bOff + p * n <= |B| && cOff + m * n <= |adjC|
    ensures bOff + n * p <= |B|
    ensures GemmSum(false, !t2, m, p, n, adjC, cOff, B, bOff, i, k, l)
         == GradASum(t2, m, n, p, B, bOff, adjC, cOff, i, k, l)
  {
    assert n * p == p * n;
    var X, Y := Logical(false, m, n, adjC, cOff), Logical(!t2, n, p, B, bOff);
    forall l' | 0 <= l' < n
      ensures X[i][l'] == Operand(false, m, n, adjC, cOff, i, l')
      ensures Y[l'][k] == Operand(!t2, n, p, B, bOff, l', k) == Operand(t2, p, n, B, bOff, k, l')
    {
      LogicalAt(false, m, n, adjC, cOff, i, l');
      LogicalAt(!t2, n, p, B, bOff, l', k);
      OperandDual(t2, p, n, B, bOff, k, l');
    }
    SumMatchesDot(false, !t2, m, p, n, adjC, cOff, B, bOff, i, k, X, Y, l);
    GradASumIsDot(t2, m, n, p, B, bOff, adjC, cOff, i, k, X, Y, l);
  }

  /** A's gradient sum is the dot product of any two matrices holding its factors. */
  lemma {:induction false} GradASumIsDot(t2: bool, m: nat, n: nat, p: nat, B: seq<real>, bOff: nat,
                                         adjC: seq<real>, cOff: nat, i: nat, k: nat,
                                         X: seq<seq<real>>, Y: seq<seq<real>>, l: nat)
    requires i < m && k < p && l <= n
    requires bOff + p * n <= |B| && cOff + m * n <= |adjC|
    requires i < |X| && |X[i]| == n && |Y| == n && forall l' :: 0 <= l' < n ==> k < |Y[l']|
    requires forall l' :: 0 <= l' < n ==>
      X[i][l'] == Operand(false, m, n, adjC, cOff, i, l') && Y[l'][k] == Operand(t2, p, n, B, bOff, k, l')
    ensures GradASum(t2, m, n, p, B, bOff, adjC, cOff, i, k, l) == Dot(X, Y, i, k, l)
  {
    if l > 0 {
      GradASumIsDot(t2, m, n, p, B, bOff, adjC, cOff, i, k, X, Y, l - 1);
      GradADotStep(t2, m, n, p, B, bOff, adjC, cOff, i, k, X, Y, l);
    }
  }

  /** The step of GradASumIsDot: both sums gain the same product at term l - 1. */
  lemma GradADotStep(t2: bool, m: nat, n: nat, p: nat, B: seq<real>, bOff: nat,
                     adjC: seq<real>, cOff: nat, i: nat, k: nat,
                     X: seq<seq<real>>, Y: seq<seq<real>>, l: nat)
    requires i < m && k < p && 0 < l <= n
    requires bOff + p * n <= |B| && cOff + m * n <= |adjC|
    requires i < |X| && |X[i]| == n && |Y| == n && forall l' :: 0 <= l' < n ==> k < |Y[l']|
    requires X[i][l - 1] == Operand(false, m, n, adjC, cOff, i, l - 1)
    requires Y[l - 1][k] == Operand(t2, p, n, B, bOff, k, l - 1)
    requires GradASum(t2, m, n, p, B, bOff, adjC, cOff, i, k, l - 1) == Dot(X, Y, i, k, l - 1)
    ensures GradASum(t2, m, n, p, B, bOff, adjC, cOff, i, k, l) == Dot(X, Y, i, k, l)
  {
    GradASumUnfold(t2, m, n, p, B, bOff, adjC, cOff, i, k, l);
    DotUnfold(X, Y, i, k, l);
    SameStep(GradASum(t2, m, n, p, B, bOff, adjC, cOff, i, k, l), Dot(X, Y, i, k, l),
             GradASum(t2, m, n, p, B, bOff, adjC, cOff, i, k, l - 1), Dot(X, Y, i, k, l - 1),
             Operand(false, m, n, adjC, cOff, i, l - 1), Operand(t2, p, n, B, bOff, k, l - 1),
             X[i][l - 1], Y[l - 1][k], false);
  }

  /** The multiply computing A's gradient into A's transposed storage, reading B with flag t2. */
  lemma {:induction false} TransposedASum(t2: bool, m: nat, n: nat, p: nat, B: seq<real>, bOff: nat,
                                          adjC: seq<real>, cOff: nat, i: nat, k: nat, l: nat)
    requires i < m && k < p && l <= n
    requires bOff + p * n <= |B| && cOff + m * n <= |adjC|
    ensures cOff + n * m <= |adjC|
    ensures GemmSum(t2, true, p, m, n, B, bOff, adjC, cOff, k, i, l)
         == GradASum(t2, m, n, p, B, bOff, adjC, cOff, i, k, l)
  {
    assert n * m == m * n;
    if l > 0 {
      TransposedASum(t2, m, n, p, B, bOff, adjC, cOff, i, k, l - 1);
      TransposedAStep(t2, m, n, p, B, bOff, adjC, cOff, i, k, l);
    }
  }

  /** The step of TransposedASum: both sums gain the same product at term l - 1. */
  lemma TransposedAStep(t2: bool, m: nat, n: nat, p: nat, B: seq<real>, bOff: nat,
                        adjC: seq<real>, cOff: nat, i: nat, k: nat, l: nat)
    requires i < m && k < p && 0 < l <= n
    requires bOff + p * n <= |B| && cOff + m * n <= |adjC| && cOff + n * m <= |adjC|
    requires GemmSum(t2, true, p, m, n, B, bOff, adjC, cOff, k, i, l - 1)
          == GradASum(t2, m, n, p, B, bOff, adjC, cOff, i, k, l - 1)
    ensures GemmSum(t2, true, p, m, n, B, bOff, adjC, cOff, k, i, l)
         == GradASum(t2, m, n, p, B, bOff, adjC, cOff, i, k, l)
  {
    OperandDual(false, m, n, adjC, cOff, i, l - 1);
    GemmSumUnfold(t2, true, p, m, n, B, bOff, adjC, cOff, k, i, l);
    GradASumUnfold(t2, m, n, p, B, bOff, adjC, cOff, i, k, l);
    SameStep(GemmSum(t2, true, p, m, n, B, bOff, adjC, cOff, k, i, l), GradASum(t2, m, n, p, B, bOff, adjC, cOff, i, k, l),
             GemmSum(t2, true, p, m, n, B, bOff, adjC, cOff, k, i, l - 1), GradASum(t2, m, n, p, B, bOff, adjC, cOff, i, k, l - 1),
             Operand(t2, p, n, B, bOff, k, l - 1), Operand(true, n, m, adjC, cOff, l - 1, i),
             Operand(t2, p, n, B, bOff, k, l - 1), Operand(false, m, n, adjC, cOff, i, l - 1), true);
  }

  /** The multiply computing B's gradient into B's untransposed storage. */
  lemma UntransposedBSum(t1: bool, m: nat, n: nat, p: nat, A: seq<real>, aOff: nat,
                         adjC: seq<real>, cOff: nat, k: nat, j: nat, l: nat)
    requires k < p && j < n && l <= m
    requires aOff + m * p <= |A| && cOff + m * n <= |adjC|
    ensures aOff + p * m <= |A|
    ensures GemmSum(!t1, false, p, n, m, A, aOff, adjC, cOff, k, j, l)
         == GradBSum(t1, m, n, p, A, aOff, adjC, cOff, k, j, l)
  {
    assert p * m == m * p;
    var X, Y := Logical(!t1, p, m, A, aOff), Logical(false, m, n, adjC, cOff);
    forall l' | 0 <= l' < m
      ensures X[k][l'] == Operand(!t1, p, m, A, aOff, k, l') == Operand(t1, m, p, A, aOff, l', k)
      ensures Y[l'][j] == Operand(false, m, n, adjC, cOff, l', j)
    {
      LogicalAt(!t1, p, m, A, aOff, k, l');
      LogicalAt(false, m, n, adjC, cOff, l', j);
      OperandDual(t1, m, p, A, aOff, l', k);
    }
    SumMatchesDot(!t1, false, p, n, m, A, aOff, adjC, cOff, k, j, X, Y, l);
    GradBSumIsDot(t1, m, n, p, A, aOff, adjC, cOff, k, j, X, Y, l);
  }

  /** B's gradient sum is the dot product of any two matrices holding its factors. */
  lemma {:induction false} GradBSumIsDot(t1: bool, m: nat, n: nat, p: nat, A: seq<real>, aOff: nat,
                                         adjC: seq<real>, cOff: nat, k: nat, j: nat,
                                         X: seq<seq<real>>, Y: seq<seq<real>>, l: nat)
    requires k < p && j < n && l <= m
    requires aOff + m * p <= |A| && cOff + m * n <= |adjC|
    requires k < |X| && |X[k]| == m && |Y| == m && forall l' :: 0 <= l' < m ==> j < |Y[l']|
    requires forall l' :: 0 <= l' < m ==>
      X[k][l'] == Operand(t1, m, p, A, aOff, l', k) && Y[l'][j] == Operand(false, m, n, adjC, cOff, l', j)
    ensures GradBSum(t1, m, n, p, A, aOff, adjC, cOff, k, j, l) == Dot(X, Y, k, j, l)
  {
    if l > 0 {
      GradBSumIsDot(t1, m, n, p, A, aOff, adjC, cOff, k, j, X, Y, l - 1);
      GradBDotStep(t1, m, n, p, A, aOff, adjC, cOff, k, j, X, Y, l);
    }
  }

  /** The step of GradBSumIsDot: both sums gain the same product at term l - 1. */
  lemma GradBDotStep(t1: bool, m: nat, n: nat, p: nat, A: seq<real>, aOff: nat,
                     adjC: seq<real>, cOff: nat, k: nat, j: nat,
                     X: seq<seq<real>>, Y: seq<seq<real>>, l: nat)
    requires k < p && j < n && 0 < l <= m
    requires aOff + m * p <= |A| && cOff + m * n <= |adjC|
    requires k < |X| && |X[k]| == m && |Y| == m && forall l' :: 0 <= l' < m ==> j < |Y[l']|
    requires X[k][l - 1] == Operand(t1, m, p, A, aOff, l - 1, k)
    requires Y[l - 1][j] == Operand(false, m, n, adjC, cOff, l - 1, j)
    requires GradBSum(t1, m, n, p, A, aOff, adjC, cOff, k, j, l - 1) == Dot(X, Y, k, j, l - 1)
    ensures GradBSum(t1, m, n, p, A, aOff, adjC, cOff, k, j, l) == Dot(X, Y, k, j, l)
  {
    GradBSumUnfold(t1, m, n, p, A, aOff, adjC, cOff, k, j, l);
    DotUnfold(X, Y, k, j, l);
    SameStep(GradBSum(t1, m, n, p, A, aOff, adjC, cOff, k, j, l), Dot(X, Y, k, j, l),
             GradBSum(t1, m, n, p, A, aOff, adjC, cOff, k, j, l - 1), Dot(X, Y, k, j, l - 1),
             X[k][l - 1], Y[l - 1][j], X[k][l - 1], Y[l - 1][j], false);
  }

  /** The corrected multiply computing B's gradient into B's transposed storage. */
  lemma {:induction false} TransposedBSum(t1: bool, m: nat, n: nat, p: nat, A: seq<real>, aOff: nat,
                                          adjC: seq<real>, cOff: nat, k: nat, j: nat, l: nat)
    requires k < p && j < n && l <= m
    requires aOff + m * p <= |A| && cOff + m * n <= |adjC|
    ensures cOff + n * m <= |adjC|
    ensures GemmSum(true, t1, n, p, m, adjC, cOff, A, aOff, j, k, l)
         == GradBSum(t1, m, n, p, A, aOff, adjC, cOff, k, j, l)
  {
    assert n * m == m * n;
    if l > 0 {
      TransposedBSum(t1, m, n, p, A, aOff, adjC, cOff, k, j, l - 1);
      TransposedBStep(t1, m, n, p, A, aOff, adjC, cOff, k, j, l);
    }
  }

  /** The step of TransposedBSum: both sums gain the same product at term l - 1. */
  lemma TransposedBStep(t1: bool, m: nat, n: nat, p: nat, A: seq<real>, aOff: nat,
                        adjC: seq<real>, cOff: nat, k: nat, j: nat, l: nat)
    requires k < p && j < n && 0 < l <= m
    requires aOff + m * p <= |A| && cOff + m * n <= |adjC| && cOff + n * m <= |adjC|
    requires GemmSum(true, t1, n, p, m, adjC, cOff, A, aOff, j, k, l - 1)
          == GradBSum(t1, m, n, p, A, aOff, adjC, cOff, k, j, l - 1)
    ensures GemmSum(true, t1, n, p, m, adjC, cOff, A, aOff, j, k, l)
         == GradBSum(t1, m, n, p, A, aOff, adjC, cOff, k, j, l)
  {
    OperandDual(false, m, n, adjC, cOff, l - 1, j);
    GemmSumUnfold(true, t1, n, p, m, adjC, cOff, A, aOff, j, k, l);
    GradBSumUnfold(t1, m, n, p, A, aOff, adjC, cOff, k, j, l);
    SameStep(GemmSum(true, t1, n, p, m, adjC, cOff, A, aOff, j, k, l), GradBSum(t1, m, n, p, A, aOff, adjC, cOff, k, j, l),
             GemmSum(true, t1, n, p, m, adjC, cOff, A, aOff, j, k, l - 1), GradBSum(t1, m, n, p, A, aOff, adjC, cOff, k, j, l - 1),
             Operand(true, n, m, adjC, cOff, j, l - 1), Operand(t1, m, p, A, aOff, l - 1, k),
             Operand(false, m, n, adjC, cOff, l - 1, j), Operand(t1, m, p, A, aOff, l - 1, k), true);
  }

  /** For recognised flags the corrected adjoint adds exactly the gradient of A ... */
  lemma CorrectedGradAIsExact(t1: int, t2: int, m: nat, n: nat, p: nat, B: seq<real>, bOff: nat,
                              adjC: seq<real>, cOff: nat, adjA0: seq<real>, adjAOff: nat)
    requires IsFlag(t1) && IsFlag(t2)
    requires bOff + p * n <= |B| && cOff + m * n <= |adjC| && adjAOff + m * p <= |adjA0|
    ensures ExactGradA(t1 == 1, t2 == 1, m, n, p, B, bOff, adjC, cOff, adjA0,
                       CorrectedAdjA(t1, t2, m, n, p, B, bOff, adjC, cOff, adjA0, adjAOff), adjAOff)
  {
    var r := CorrectedAdjA(t1, t2, m, n, p, B, bOff, adjC, cOff, adjA0, adjAOff);
    var f1, f2 := t1 == 1, t2 == 1;
    assert n * m == m * n && p * m == m * p && n * p == p * n;
    forall i, k | 0 <= i < m && 0 <= k < p
      ensures Operand(f1, m, p, r, adjAOff, i, k)
           == Operand(f1, m, p, adjA0, adjAOff, i, k) + GradASum(f2, m, n, p, B, bOff, adjC, cOff, i, k, n)
    {
      if t1 == 1 {
        GemmResultAt(t2 == 1, true, true, p, m, n, B, bOff, adjC, cOff, adjA0, adjAOff, k, i);
        TransposedASum(t2 == 1, m, n, p, B, bOff, adjC, cOff, i, k, n);
      } else {
        GemmResultAt(false, t2 == 0, true, m, p, n, adjC, cOff, B, bOff, adjA0, adjAOff, i, k);
        UntransposedASum(t2 == 1, m, n, p, B, bOff, adjC, cOff, i, k, n);
      }
    }
  }

  /** ... and exactly the gradient of B. */
  lemma CorrectedGradBIsExact(t1: int, t2: int, m: nat, n: nat, p: nat, A: seq<real>, aOff: nat,
                              adjC: seq<real>, cOff: nat, adjB0: seq<real>, adjBOff: nat)
    requires IsFlag(t1) && IsFlag(t2)
    requires aOff + m * p <= |A| && cOff + m * n <= |adjC| && adjBOff + p * n <= |adjB0|
    ensures ExactGradB(t1 == 1, t2 == 1, m, n, p, A, aOff, adjC, cOff, adjB0,
                       CorrectedAdjB(t1, t2, m, n, p, A, aOff, adjC, cOff, adjB0, adjBOff), adjBOff)
  {
    var r := CorrectedAdjB(t1, t2, m, n, p, A, aOff, adjC, cOff, adjB0, adjBOff);
    var f1, f2 := t1 == 1, t2 == 1;
    assert n * m == m * n && p * m == m * p && n * p == p * n;
    forall k, j | 0 <= k < p && 0 <= j < n
      ensures Operand(f2, p, n, r, adjBOff, k, j)
           == Operand(f2, p, n, adjB0, adjBOff, k, j) + GradBSum(f1, m, n, p, A, aOff, adjC, cOff, k, j, m)
    {
      if t2 == 1 {
        GemmResultAt(true, t1 == 1, true, n, p, m, adjC, cOff, A, aOff, adjB0, adjBOff, j, k);
        TransposedBSum(t1 == 1, m, n, p, A, aOff, adjC, cOff, k, j, m);
      } else {
        GemmResultAt(t1 == 0, false, true, p, n, m, A, aOff, adjC, cOff, adjB0, adjBOff, k, j);
        UntransposedBSum(t1 == 1, m, n, p, A, aOff, adjC, cOff, k, j, m);
      }
    }
  }

  /** The source agrees with the corrected adjoint for A unless both flags are set, and for B
      whenever B is not transposed; so in those cases it too is exact. */
  lemma AsWrittenAgreesWhenBUntransposed(t1: int, t2: int, m: nat, n: nat, p: nat, A: seq<real>, aOff: nat,
                                         B: seq<real>, bOff: nat, adjC: seq<real>, cOff: nat,
                                         adjA0: seq<real>, adjAOff: nat, adjB0: seq<real>, adjBOff: nat)
    requires AdjGemmFits(m, n, p, |A|, aOff, |B|, bOff, |adjC|, cOff, |adjA0|, adjAOff, |adjB0|, adjBOff)
    ensures (t1 == 0 || t2 == 0) ==>
      AsWrittenAdjA(t1, t2, m, n, p, B, bOff, adjC, cOff, adjA0, adjAOff)
      == CorrectedAdjA(t1, t2, m, n, p, B, bOff, adjC, cOff, adjA0, adjAOff)
    ensures t2 == 0 ==>
      AsWrittenAdjB(t1, m, n, p, A, aOff, adjC, cOff, adjB0, adjBOff)
      == CorrectedAdjB(t1, t2, m, n, p, A, aOff, adjC, cOff, adjB0, adjBOff)
  {
  }

  /** Counterexample: m = 1, n = p = 2, t1 = 0, t2 = 1, A = [1, 2], adjC = [1, 0]. The exact
      gradient of op2(B) is [[1, 0], [2, 0]], stored transposed as [1, 2, 0, 0]; the source adds
      it in row-major order, giving [1, 0, 2, 0]. */
  lemma AsWrittenGradBWrongWhenBTransposed()
    ensures AsWrittenAdjB(0, 1, 2, 2, [1.0, 2.0], 0, [1.0, 0.0], 0, Zeros(4), 0) == [1.0, 0.0, 2.0, 0.0]
    ensures CorrectedAdjB(0, 1, 1, 2, 2, [1.0, 2.0], 0, [1.0, 0.0], 0, Zeros(4), 0) == [1.0, 2.0, 0.0, 0.0]
    ensures !ExactGradB(false, true, 1, 2, 2, [1.0, 2.0], 0, [1.0, 0.0], 0, Zeros(4),
                        AsWrittenAdjB(0, 1, 2, 2, [1.0, 2.0], 0, [1.0, 0.0], 0, Zeros(4), 0), 0)
  {
    var A, adjC, Z := [1.0, 2.0], [1.0, 0.0], Zeros(4);
    var w := AsWrittenAdjB(0, 1, 2, 2, A, 0, adjC, 0, Z, 0);
    var c := CorrectedAdjB(0, 1, 1, 2, 2, A, 0, adjC, 0, Z, 0);
    assert w == GemmResult(true, false, true, 2, 2, 1, A, 0, adjC, 0, Z, 0);
    assert c == GemmResult(true, false, true, 2, 2, 1, adjC, 0, A, 0, Z, 0);
    GemmResultAt(true, false, true, 2, 2, 1, A, 0, adjC, 0, Z, 0, 0, 0);
    GemmResultAt(true, false, true, 2, 2, 1, A, 0, adjC, 0, Z, 0, 0, 1);
    GemmResultAt(true, false, true, 2, 2, 1, A, 0, adjC, 0, Z, 0, 1, 0);
    GemmResultAt(true, false, true, 2, 2, 1, A, 0, adjC, 0, Z, 0, 1, 1);
    GemmResultAt(true, false, true, 2, 2, 1, adjC, 0, A, 0, Z, 0, 0, 0);
    GemmResultAt(true, false, true, 2, 2, 1, adjC, 0, A, 0, Z, 0, 0, 1);
    GemmResultAt(true, false, true, 2, 2, 1, adjC, 0, A, 0, Z, 0, 1, 0);
    GemmResultAt(true, false, true, 2, 2, 1, adjC, 0, A, 0, Z, 0, 1, 1);
    assert w == [1.0, 0.0, 2.0, 0.0];
    assert c == [1.0, 2.0, 0.0, 0.0];
    CorrectedGradBIsExact(0, 1, 1, 2, 2, A, 0, adjC, 0, Z, 0);
    assert Operand(true, 2, 2, w, 0, 1, 0) != Operand(true, 2, 2, c, 0, 1, 0);
  }

  /** Counterexample: m = 1, n = p = 2, t1 = t2 = 1, B stored [1, 2, 3, 4], adjC = [1, 0].
      The exact gradient of op1(A) is [1, 2]; the source reads B row-major and adds [1, 3]. */
  lemma AsWrittenGradAWrongWhenBothTransposed()
    ensures AsWrittenAdjA(1, 1, 1, 2, 2, [1.0, 2.0, 3.0, 4.0], 0, [1.0, 0.0], 0, Zeros(2), 0) == [1.0, 3.0]
    ensures CorrectedAdjA(1, 1, 1, 2, 2, [1.0, 2.0, 3.0, 4.0], 0, [1.0, 0.0], 0, Zeros(2), 0) == [1.0, 2.0]
    ensures !ExactGradA(true, true, 1, 2, 2, [1.0, 2.0, 3.0, 4.0], 0, [1.0, 0.0], 0, Zeros(2),
                        AsWrittenAdjA(1, 1, 1, 2, 2, [1.0, 2.0, 3.0, 4.0], 0, [1.0, 0.0], 0, Zeros(2), 0), 0)
  {
    var B, adjC, Z := [1.0, 2.0, 3.0, 4.0], [1.0, 0.0], Zeros(2);
    var w := AsWrittenAdjA(1, 1, 1, 2, 2, B, 0, adjC, 0, Z, 0);
    var c := CorrectedAdjA(1, 1, 1, 2, 2, B, 0, adjC, 0, Z, 0);
    BothTransposedEntry(B, adjC, Z, 0);
    BothTransposedEntry(B, adjC, Z, 1);
    assert w == [1.0, 3.0];
    assert c == [1.0, 2.0];
    CorrectedGradAIsExact(1, 1, 1, 2, 2, B, 0, adjC, 0, Z, 0);
    assert Operand(true, 1, 2, w, 0, 0, 1) != Operand(true, 1, 2, c, 0, 0, 1);
  }

  lemma BothTransposedEntry(B: seq<real>, adjC: seq<real>, Z: seq<real>, k: nat)
    requires |B| == 4 && |adjC| == 2 && Z == Zeros(2) && k < 2
    ensures AsWrittenAdjA(1, 1, 1, 2, 2, B, 0, adjC, 0, Z, 0)[k] == B[2 * k] * adjC[0] + B[2 * k + 1] * adjC[1]
    ensures CorrectedAdjA(1, 1, 1, 2, 2, B, 0, adjC, 0, Z, 0)[k] == B[k] * adjC[0] + B[2 + k] * adjC[1]
  {
    GemmResultAt(false, true, true, 2, 1, 2, B, 0, adjC, 0, Z, 0, k, 0);
    GemmResultAt(true, true, true, 2, 1, 2, B, 0, adjC, 0, Z, 0, k, 0);
  }
}
