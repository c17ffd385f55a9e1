/** Cholesky factorization of a regularized n x n block (warp/native/matnn.h, `dense_chol`,
    `dense_chol_batched`, and the deliberately empty `adj_dense_chol`, `adj_dense_chol_batched`).
    The square root is a parameter: the methods state which entries are written and the
    column-by-column recurrence they satisfy. `CholFactorizes` then derives L L^T = A + diag(reg)
    on the lower triangle, for a square root on the non-negative reals and positive pivots. */
module Cholesky {
  import opened DenseIndexing

  /** The first k terms of the dot product of rows i and j of the block at `off`. */
  function RowDot(L: seq<real>, off: nat, n: nat, i: nat, j: nat, k: nat): real
    requires i < n && j < n && k <= n && off + n * n <= |L|
    decreases k
  {
    if k == 0 then 0.0 else RowDot(L, off, n, i, j, k - 1) + Element(L, off, n, i, k - 1) * Element(L, off, n, j, k - 1)
  }

  /** The buffers of one factorization: A and L are n x n blocks, reg has n entries. */
  predicate CholFits(n: nat, aLen: nat, aOff: nat, regLen: nat, regOff: nat, lLen: nat, lOff: nat)
  {
    aOff + n * n <= aLen && regOff + n <= regLen && lOff + n * n <= lLen
  }

  /** L[j][j] = sqrt(A[j][j] + reg[j] - sum over k < j of L[j][k]^2). */
  ghost predicate DiagonalDone(A: seq<real>, aOff: nat, reg: seq<real>, regOff: nat, L: seq<real>, lOff: nat,
                               n: nat, sqrt: real -> real, j: nat)
    requires CholFits(n, |A|, aOff, |reg|, regOff, |L|, lOff) && j < n
  {
    Element(L, lOff, n, j, j) == sqrt(Element(A, aOff, n, j, j) + reg[regOff + j] - RowDot(L, lOff, n, j, j, j))
  }

  /** For i > j: L[i][j] = (A[i][j] - sum over k < j of L[i][k] L[j][k]) * (1 / L[j][j]). */
  ghost predicate BelowDone(A: seq<real>, aOff: nat, L: seq<real>, lOff: nat, n: nat, i: nat, j: nat)
    requires aOff + n * n <= |A| && lOff + n * n <= |L| && j < i < n
  {
    Element(L, lOff, n, i, j) == Eliminate(Element(A, aOff, n, i, j), RowDot(L, lOff, n, i, j, j), Element(L, lOff, n, j, j))
  }

  /** The value `dense_chol` stores below the diagonal: (a - s) times the reciprocal of the
      pivot d, so a zero pivot gives 0 rather than an infinity. */
  function Eliminate(a: real, s: real, d: real): (r: real)
    ensures d != 0.0 ==> r * d == a - s
  {
    (a - s) * Quot(1.0, d)
  }

  /** The loop computes Eliminate as the difference times the precomputed reciprocal. */
  lemma EliminateScaled(t: real, invS: real, a: real, s: real, d: real)
    requires t == a - s && invS == Quot(1.0, d)
    ensures t * invS == Eliminate(a, s, d)
  {
  }

  /** Column j is finished: its diagonal entry and every entry below it satisfy the recurrence. */
  ghost predicate ColumnDone(A: seq<real>, aOff: nat, reg: seq<real>, regOff: nat, L: seq<real>, lOff: nat,
                             n: nat, sqrt: real -> real, j: nat)
    requires CholFits(n, |A|, aOff, |reg|, regOff, |L|, lOff) && j < n
  {
    DiagonalDone(A, aOff, reg, regOff, L, lOff, n, sqrt, j)
    && forall i :: j < i < n ==> BelowDone(A, aOff, L, lOff, n, i, j)
  }

  /** The first c columns are finished. */
  ghost predicate ColumnsDone(A: seq<real>, aOff: nat, reg: seq<real>, regOff: nat, L: seq<real>, lOff: nat,
                              n: nat, sqrt: real -> real, c: nat)
    requires CholFits(n, |A|, aOff, |reg|, regOff, |L|, lOff) && c <= n
  {
    forall j :: 0 <= j < c ==> ColumnDone(A, aOff, reg, regOff, L, lOff, n, sqrt, j)
  }

  /** Every entry on and below the diagonal satisfies the factorization's recurrence. */
  ghost predicate CholRecurrence(A: seq<real>, aOff: nat, reg: seq<real>, regOff: nat, L: seq<real>, lOff: nat,
                                 n: nat, sqrt: real -> real)
    requires CholFits(n, |A|, aOff, |reg|, regOff, |L|, lOff)
  {
    (forall j :: 0 <= j < n ==> DiagonalDone(A, aOff, reg, regOff, L, lOff, n, sqrt, j))
    && (forall i, j :: 0 <= j < i < n ==> BelowDone(A, aOff, L, lOff, n, i, j))
  }

  /** L1 differs from L0 at most on and below the diagonal of the block at `lOff`. */
  ghost predicate LowerFootprint(L0: seq<real>, L1: seq<real>, lOff: nat, n: nat)
    requires lOff + n * n <= |L0|
  {
    |L1| == |L0|
    && (forall q :: 0 <= q < |L0| && !(lOff <= q < lOff + n * n) ==> L1[q] == L0[q])
    && (forall i, j :: 0 <= i < j < n ==> Element(L1, lOff, n, i, j) == Element(L0, lOff, n, i, j))
  }

  /** The inner loops of `dense_chol`: s0 minus the dot product of rows i and j over the
      columns before j (for the diagonal, i == j and the terms are squares). */
  method SubtractRowDot(n: nat, L: array<real>, lOff: nat, i: nat, j: nat, s0: real) returns (s: real)
    requires i < n && j < n && lOff + n * n <= L.Length
    ensures s == s0 - RowDot(L[..], lOff, n, i, j, j)
  {
    s := s0;
    for k := 0 to j
      invariant s == s0 - RowDot(L[..], lOff, n, i, j, k)
    {
      RowMajorInRange(n, n, i, k);
      RowMajorInRange(n, n, j, k);
      s := s - L[lOff + DenseIndexStride(n, i, k)] * L[lOff + DenseIndexStride(n, j, k)];
    }
  }

  /** `dense_chol`: fills L column by column; writes only entries on and below the diagonal. */
  method DenseChol(n: nat, A: array<real>, aOff: nat, reg: array<real>, regOff: nat, L: array<real>, lOff: nat,
                   sqrt: real -> real)
    requires CholFits(n, A.Length, aOff, reg.Length, regOff, L.Length, lOff)
    requires L != A && L != reg
    modifies L
    ensures CholRecurrence(A[..], aOff, reg[..], regOff, L[..], lOff, n, sqrt)
    ensures LowerFootprint(old(L[..]), L[..], lOff, n)
  {
    ghost var L0 := L[..];
    for j := 0 to n
      invariant LowerFootprint(L0, L[..], lOff, n)
      invariant ColumnsDone(A[..], aOff, reg[..], regOff, L[..], lOff, n, sqrt, j)
    {
      FactorColumn(n, A, aOff, reg, regOff, L, lOff, sqrt, j, L0);
    }
    ColumnsDoneIsRecurrence(A[..], aOff, reg[..], regOff, L[..], lOff, n, sqrt);
  }

  /** Finishing all n columns is the recurrence at every entry on and below the diagonal. */
  lemma ColumnsDoneIsRecurrence(A: seq<real>, aOff: nat, reg: seq<real>, regOff: nat, L: seq<real>, lOff: nat,
                                n: nat, sqrt: real -> real)
    requires CholFits(n, |A|, aOff, |reg|, regOff, |L|, lOff)
    requires ColumnsDone(A, aOff, reg, regOff, L, lOff, n, sqrt, n)
    ensures CholRecurrence(A, aOff, reg, regOff, L, lOff, n, sqrt)
  {
    forall j | 0 <= j < n
      ensures DiagonalDone(A, aOff, reg, regOff, L, lOff, n, sqrt, j)
    {
      assert ColumnDone(A, aOff, reg, regOff, L, lOff, n, sqrt, j);
    }
    forall i, j | 0 <= j < i < n
      ensures BelowDone(A, aOff, L, lOff, n, i, j)
    {
      assert ColumnDone(A, aOff, reg, regOff, L, lOff, n, sqrt, j);
    }
  }

  /** One iteration of the outer loop of `dense_chol`: the diagonal entry of column j, then
      the entries below it, each from the finished columns to its left. */
  method FactorColumn(n: nat, A: array<real>, aOff: nat, reg: array<real>, regOff: nat, L: array<real>, lOff: nat,
                      sqrt: real -> real, j: nat, ghost L0: seq<real>)
    requires CholFits(n, A.Length, aOff, reg.Length, regOff, L.Length, lOff) && j < n
    requires L != A && L != reg
    requires lOff + n * n <= |L0| && LowerFootprint(L0, L[..], lOff, n)
    requires ColumnsDone(A[..], aOff, reg[..], regOff, L[..], lOff, n, sqrt, j)
    modifies L
    ensures LowerFootprint(L0, L[..], lOff, n)
    ensures ColumnsDone(A[..], aOff, reg[..], regOff, L[..], lOff, n, sqrt, j + 1)
  {
    ghost var a, g := A[..], reg[..];
    RowMajorInRange(n, n, j, j);
    var s := SubtractRowDot(n, L, lOff, j, j, A[aOff + DenseIndexStride(n, j, j)] + reg[regOff + j]);
    s := sqrt(s);
    ghost var Lb := L[..];
    L[lOff + DenseIndexStride(n, j, j)] := s;
    assert L[..] == Lb[lOff + DenseIndexStride(n, j, j) := s];
    WriteKeepsFootprint(L0, Lb, lOff, n, j, j, s);
    WriteKeepsColumns(a, aOff, g, regOff, Lb, lOff, n, sqrt, j, j, s);
    WriteSetsDiagonal(a, aOff, g, regOff, Lb, lOff, n, sqrt, j, s);
    FillBelow(n, A, aOff, reg, regOff, L, lOff, sqrt, j, s, L0);
    assert ColumnDone(a, aOff, g, regOff, L[..], lOff, n, sqrt, j);
  }

  /** The inner loop over rows i > j of `dense_chol`, once the diagonal entry of column j holds s. */
  method FillBelow(n: nat, A: array<real>, aOff: nat, reg: array<real>, regOff: nat, L: array<real>, lOff: nat,
                   sqrt: real -> real, j: nat, s: real, ghost L0: seq<real>)
    requires CholFits(n, A.Length, aOff, reg.Length, regOff, L.Length, lOff) && j < n
    requires L != A && L != reg
    requires lOff + n * n <= |L0| && LowerFootprint(L0, L[..], lOff, n)
    requires ColumnsDone(A[..], aOff, reg[..], regOff, L[..], lOff, n, sqrt, j)
    requires DiagonalDone(A[..], aOff, reg[..], regOff, L[..], lOff, n, sqrt, j)
    requires Element(L[..], lOff, n, j, j) == s
    modifies L
    ensures LowerFootprint(L0, L[..], lOff, n)
    ensures ColumnsDone(A[..], aOff, reg[..], regOff, L[..], lOff, n, sqrt, j)
    ensures DiagonalDone(A[..], aOff, reg[..], regOff, L[..], lOff, n, sqrt, j)
    ensures forall i :: j < i < n ==> BelowDone(A[..], aOff, L[..], lOff, n, i, j)
  {
    var invS := Quot(1.0, s);
    for i := j + 1 to n
      invariant LowerFootprint(L0, L[..], lOff, n)
      invariant ColumnsDone(A[..], aOff, reg[..], regOff, L[..], lOff, n, sqrt, j)
      invariant DiagonalDone(A[..], aOff, reg[..], regOff, L[..], lOff, n, sqrt, j)
      invariant forall i' :: j < i' < i ==> BelowDone(A[..], aOff, L[..], lOff, n, i', j)
      invariant Element(L[..], lOff, n, j, j) == s
    {
      FillEntry(n, A, aOff, reg, regOff, L, lOff, sqrt, j, s, invS, i, L0);
    }
  }

  /** The body of the loop over rows: entry (i, j) from row i's dot product with row j. */
  method FillEntry(n: nat, A: array<real>, aOff: nat, reg: array<real>, regOff: nat, L: array<real>, lOff: nat,
                   sqrt: real -> real, j: nat, s: real, invS: real, i: nat, ghost L0: seq<real>)
    requires CholFits(n, A.Length, aOff, reg.Length, regOff, L.Length, lOff) && j < i < n
    requires L != A && L != reg && invS == Quot(1.0, s)
    requires lOff + n * n <= |L0| && LowerFootprint(L0, L[..], lOff, n)
    requires ColumnsDone(A[..], aOff, reg[..], regOff, L[..], lOff, n, sqrt, j)
    requires DiagonalDone(A[..], aOff, reg[..], regOff, L[..], lOff, n, sqrt, j)
    requires forall i' :: j < i' < i ==> BelowDone(A[..], aOff, L[..], lOff, n, i', j)
    requires Element(L[..], lOff, n, j, j) == s
    modifies L
    ensures LowerFootprint(L0, L[..], lOff, n)
    ensures ColumnsDone(A[..], aOff, reg[..], regOff, L[..], lOff, n, sqrt, j)
    ensures DiagonalDone(A[..], aOff, reg[..], regOff, L[..], lOff, n, sqrt, j)
    ensures forall i' :: j < i' <= i ==> BelowDone(A[..], aOff, L[..], lOff, n, i', j)
    ensures Element(L[..], lOff, n, j, j) == s
  {
    RowMajorInRange(n, n, i, j);
    var t := SubtractRowDot(n, L, lOff, i, j, A[aOff + DenseIndexStride(n, i, j)]);
    ghost var Lb := L[..];
    ghost var v := t * invS;
    EliminateScaled(t, invS, Element(A[..], aOff, n, i, j), RowDot(Lb, lOff, n, i, j, j), Element(Lb, lOff, n, j, j));
    L[lOff + DenseIndexStride(n, i, j)] := t * invS;
    assert L[..] == Lb[lOff + DenseIndexStride(n, i, j) := v];
    BelowStep(A[..], aOff, reg[..], regOff, Lb, lOff, n, sqrt, L0, i, j, v, L[..]);
  }

  /** One iteration of the loop over the rows below the diagonal, on the contents of L:
      storing the eliminated value at (i, j) keeps everything finished so far and finishes
      entry (i, j). */
  lemma BelowStep(A: seq<real>, aOff: nat, reg: seq<real>, regOff: nat, Lb: seq<real>, lOff: nat,
                  n: nat, sqrt: real -> real, L0: seq<real>, i: nat, j: nat, v: real, L': seq<real>)
    requires CholFits(n, |A|, aOff, |reg|, regOff, |Lb|, lOff) && j < i < n
    requires lOff + DenseIndexStride(n, i, j) < |Lb| && L' == Lb[lOff + DenseIndexStride(n, i, j) := v]
    requires lOff + n * n <= |L0| && LowerFootprint(L0, Lb, lOff, n)
    requires ColumnsDone(A, aOff, reg, regOff, Lb, lOff, n, sqrt, j)
    requires DiagonalDone(A, aOff, reg, regOff, Lb, lOff, n, sqrt, j)
    requires forall i' :: j < i' < i ==> BelowDone(A, aOff, Lb, lOff, n, i', j)
    requires v == Eliminate(Element(A, aOff, n, i, j), RowDot(Lb, lOff, n, i, j, j), Element(Lb, lOff, n, j, j))
    ensures LowerFootprint(L0, L', lOff, n)
    ensures ColumnsDone(A, aOff, reg, regOff, L', lOff, n, sqrt, j)
    ensures DiagonalDone(A, aOff, reg, regOff, L', lOff, n, sqrt, j)
    ensures forall i' :: j < i' <= i ==> BelowDone(A, aOff, L', lOff, n, i', j)
    ensures Element(L', lOff, n, j, j) == Element(Lb, lOff, n, j, j)
  {
    WriteKeepsFootprint(L0, Lb, lOff, n, i, j, v);
    WriteKeepsColumns(A, aOff, reg, regOff, Lb, lOff, n, sqrt, i, j, v);
    WriteKeepsDiagonal(A, aOff, reg, regOff, Lb, lOff, n, sqrt, i, j, v, j);
    forall i' | j < i' < i
      ensures BelowDone(A, aOff, L', lOff, n, i', j)
    {
      WriteKeepsBelow(A, aOff, reg, regOff, Lb, lOff, n, sqrt, i, j, v, i', j);
    }
    WriteSetsBelow(A, aOff, Lb, lOff, n, i, j, v);
    ElementAfterWrite(Lb, lOff, n, i, j, v, j, j);
  }

  /** A write on or below the diagonal keeps the footprint lower. */
  lemma WriteKeepsFootprint(L0: seq<real>, L: seq<real>, lOff: nat, n: nat, r: nat, c: nat, v: real)
    requires c <= r < n && lOff + n * n <= |L0| && LowerFootprint(L0, L, lOff, n)
    ensures lOff + DenseIndexStride(n, r, c) < |L|
    ensures LowerFootprint(L0, L[lOff + DenseIndexStride(n, r, c) := v], lOff, n)
  {
    RowMajorInRange(n, n, r, c);
    forall i, j | 0 <= i < j < n
      ensures Element(L[lOff + DenseIndexStride(n, r, c) := v], lOff, n, i, j) == Element(L0, lOff, n, i, j)
    {
      ElementAfterWrite(L, lOff, n, r, c, v, i, j);
    }
  }

  /** A write at (r, c) leaves entry (i, j) of an earlier-or-equal column, the diagonal entry
      (j, j) and their dot product over the columns before j unchanged, unless it hits them. */
  lemma WriteFrame(L: seq<real>, lOff: nat, n: nat, r: nat, c: nat, v: real, i: nat, j: nat)
    requires c <= r < n && j <= c && j <= i < n && lOff + n * n <= |L|
    ensures lOff + DenseIndexStride(n, r, c) < |L|
    ensures var L' := L[lOff + DenseIndexStride(n, r, c) := v];
      RowDot(L', lOff, n, i, j, j) == RowDot(L, lOff, n, i, j, j)
      && ((i, j) != (r, c) ==> Element(L', lOff, n, i, j) == Element(L, lOff, n, i, j))
      && ((j, j) != (r, c) ==> Element(L', lOff, n, j, j) == Element(L, lOff, n, j, j))
  {
    RowMajorInRange(n, n, r, c);
    RowDotAfterWrite(L, lOff, n, r, c, v, i, j, j);
    ElementAfterWrite(L, lOff, n, r, c, v, i, j);
    ElementAfterWrite(L, lOff, n, r, c, v, j, j);
  }

  lemma WriteKeepsDiagonal(A: seq<real>, aOff: nat, reg: seq<real>, regOff: nat, L: seq<real>, lOff: nat,
                           n: nat, sqrt: real -> real, r: nat, c: nat, v: real, j: nat)
    requires CholFits(n, |A|, aOff, |reg|, regOff, |L|, lOff) && c <= r < n && j <= c && j != r
    requires DiagonalDone(A, aOff, reg, regOff, L, lOff, n, sqrt, j)
    ensures lOff + DenseIndexStride(n, r, c) < |L|
    ensures DiagonalDone(A, aOff, reg, regOff, L[lOff + DenseIndexStride(n, r, c) := v], lOff, n, sqrt, j)
  {
    WriteFrame(L, lOff, n, r, c, v, j, j);
  }

  lemma WriteKeepsBelow(A: seq<real>, aOff: nat, reg: seq<real>, regOff: nat, L: seq<real>, lOff: nat,
                        n: nat, sqrt: real -> real, r: nat, c: nat, v: real, i: nat, j: nat)
    requires CholFits(n, |A|, aOff, |reg|, regOff, |L|, lOff) && c <= r < n && j <= c && j < i < n
    requires (i, j) != (r, c) && (j, j) != (r, c)
    requires BelowDone(A, aOff, L, lOff, n, i, j)
    ensures lOff + DenseIndexStride(n, r, c) < |L|
    ensures BelowDone(A, aOff, L[lOff + DenseIndexStride(n, r, c) := v], lOff, n, i, j)
  {
    WriteFrame(L, lOff, n, r, c, v, i, j);
  }

  /** A write in column c or to its right-below keeps every column before c finished. */
  lemma WriteKeepsColumns(A: seq<real>, aOff: nat, reg: seq<real>, regOff: nat, L: seq<real>, lOff: nat,
                          n: nat, sqrt: real -> real, r: nat, c: nat, v: real)
    requires CholFits(n, |A|, aOff, |reg|, regOff, |L|, lOff) && c <= r < n
    requires ColumnsDone(A, aOff, reg, regOff, L, lOff, n, sqrt, c)
    ensures lOff + DenseIndexStride(n, r, c) < |L|
    ensures ColumnsDone(A, aOff, reg, regOff, L[lOff + DenseIndexStride(n, r, c) := v], lOff, n, sqrt, c)
  {
    RowMajorInRange(n, n, r, c);
    var L' := L[lOff + DenseIndexStride(n, r, c) := v];
    forall j | 0 <= j < c
      ensures ColumnDone(A, aOff, reg, regOff, L', lOff, n, sqrt, j)
    {
      assert ColumnDone(A, aOff, reg, regOff, L, lOff, n, sqrt, j);
      WriteKeepsDiagonal(A, aOff, reg, regOff, L, lOff, n, sqrt, r, c, v, j);
      forall i | j < i < n
        ensures BelowDone(A, aOff, L', lOff, n, i, j)
      {
        WriteKeepsBelow(A, aOff, reg, regOff, L, lOff, n, sqrt, r, c, v, i, j);
      }
    }
  }

  /** Writing the value the recurrence asks for at (c, c) finishes that diagonal entry. */
  lemma WriteSetsDiagonal(A: seq<real>, aOff: nat, reg: seq<real>, regOff: nat, L: seq<real>, lOff: nat,
                          n: nat, sqrt: real -> real, c: nat, v: real)
    requires CholFits(n, |A|, aOff, |reg|, regOff, |L|, lOff) && c < n
    requires v == sqrt(Element(A, aOff, n, c, c) + reg[regOff + c] - RowDot(L, lOff, n, c, c, c))
    ensures lOff + DenseIndexStride(n, c, c) < |L|
    ensures var L' := L[lOff + DenseIndexStride(n, c, c) := v];
      DiagonalDone(A, aOff, reg, regOff, L', lOff, n, sqrt, c) && Element(L', lOff, n, c, c) == v
  {
    WriteFrame(L, lOff, n, c, c, v, c, c);
    ElementAfterWrite(L, lOff, n, c, c, v, c, c);
  }

  /** Writing the value the recurrence asks for at (r, c), r > c, finishes that entry. */
  lemma WriteSetsBelow(A: seq<real>, aOff: nat, L: seq<real>, lOff: nat, n: nat, r: nat, c: nat, v: real)
    requires aOff + n * n <= |A| && lOff + n * n <= |L| && c < r < n
    requires v == Eliminate(Element(A, aOff, n, r, c), RowDot(L, lOff, n, r, c, c), Element(L, lOff, n, c, c))
    ensures lOff + DenseIndexStride(n, r, c) < |L|
    ensures BelowDone(A, aOff, L[lOff + DenseIndexStride(n, r, c) := v], lOff, n, r, c)
  {
    WriteFrame(L, lOff, n, r, c, v, r, c);
    ElementAfterWrite(L, lOff, n, r, c, v, r, c);
  }

  /** `sqrt` squares back to its argument on the non-negative reals. */
  ghost predicate IsSquareRoot(sqrt: real -> real)
  {
    forall x :: 0.0 <= x ==> sqrt(x) * sqrt(x) == x
  }

  /** Every pivot the factorization takes a square root of is positive. */
  ghost predicate PositivePivots(A: seq<real>, aOff: nat, reg: seq<real>, regOff: nat, L: seq<real>, lOff: nat, n: nat)
    requires CholFits(n, |A|, aOff, |reg|, regOff, |L|, lOff)
  {
    forall j :: 0 <= j < n ==> 0.0 < Element(A, aOff, n, j, j) + reg[regOff + j] - RowDot(L, lOff, n, j, j, j)
  }

  /** With a genuine square root and positive pivots, the lower triangle that the recurrence
      produces is a Cholesky factor: for j <= i, sum over k <= j of L[i][k] L[j][k] equals
      A[i][j], plus reg[j] on the diagonal. */
  lemma CholFactorizes(A: seq<real>, aOff: nat, reg: seq<real>, regOff: nat, L: seq<real>, lOff: nat,
                       n: nat, sqrt: real -> real)
    requires CholFits(n, |A|, aOff, |reg|, regOff, |L|, lOff)
    requires CholRecurrence(A, aOff, reg, regOff, L, lOff, n, sqrt)
    requires IsSquareRoot(sqrt) && PositivePivots(A, aOff, reg, regOff, L, lOff, n)
    ensures forall i, j :: 0 <= j <= i < n ==>
      RowDot(L, lOff, n, i, j, j + 1) == Element(A, aOff, n, i, j) + (if i == j then reg[regOff + j] else 0.0)
  {
    forall i, j | 0 <= j <= i < n
      ensures RowDot(L, lOff, n, i, j, j + 1) == Element(A, aOff, n, i, j) + (if i == j then reg[regOff + j] else 0.0)
    {
      var d := Element(L, lOff, n, j, j);
      var p := Element(A, aOff, n, j, j) + reg[regOff + j] - RowDot(L, lOff, n, j, j, j);
      assert DiagonalDone(A, aOff, reg, regOff, L, lOff, n, sqrt, j);
      assert d * d == p;
      if i != j {
        assert BelowDone(A, aOff, L, lOff, n, i, j);
        assert d != 0.0;
      }
    }
  }

  /** A write in column c does not change dot products over the columns before c. */
  lemma RowDotAfterWrite(L: seq<real>, off: nat, n: nat, r: nat, c: nat, v: real,
                         i: nat, j: nat, k: nat)
    requires r < n && c < n && i < n && j < n && k <= c && off + n * n <= |L|
    ensures off + DenseIndexStride(n, r, c) < |L|
    ensures RowDot(L[off + DenseIndexStride(n, r, c) := v], off, n, i, j, k) == RowDot(L, off, n, i, j, k)
  {
    RowMajorInRange(n, n, r, c);
    var L' := L[off + DenseIndexStride(n, r, c) := v];
    forall l | 0 <= l < k
      ensures Element(L', off, n, i, l) == Element(L, off, n, i, l)
      ensures Element(L', off, n, j, l) == Element(L, off, n, j, l)
    {
      ElementAfterWrite(L, off, n, r, c, v, i, l);
      ElementAfterWrite(L, off, n, r, c, v, j, l);
    }
    RowDotFrame(L, L', off, n, i, j, k);
  }

  /** The dot product of rows i and j over the first k columns reads only those entries. */
  lemma {:induction false} RowDotFrame(L: seq<real>, L': seq<real>, off: nat, n: nat, i: nat, j: nat, k: nat)
    requires i < n && j < n && k <= n && off + n * n <= |L| && off + n * n <= |L'|
    requires forall l :: 0 <= l < k ==>
      Element(L', off, n, i, l) == Element(L, off, n, i, l) && Element(L', off, n, j, l) == Element(L, off, n, j, l)
    ensures RowDot(L', off, n, i, j, k) == RowDot(L, off, n, i, j, k)
  {
    if k > 0 {
      RowDotFrame(L, L', off, n, i, j, k - 1);
    }
  }

  /** `dense_chol_batched`: lane `tid` factors batch element tid, whose block starts at
      aStart[tid] in both A and L and whose regularization starts at n * tid. */
  method DenseCholBatched(aStart: seq<nat>, aDim: seq<nat>, A: array<real>, reg: array<real>, L: array<real>,
                          sqrt: real -> real, tid: nat)
    requires tid < |aStart| && tid < |aDim|
    requires CholFits(aDim[tid], A.Length, aStart[tid], reg.Length, aDim[tid] * tid, L.Length, aStart[tid])
    requires L != A && L != reg
    modifies L
    ensures CholRecurrence(A[..], aStart[tid], reg[..], aDim[tid] * tid, L[..], aStart[tid], aDim[tid], sqrt)
    ensures LowerFootprint(old(L[..]), L[..], aStart[tid], aDim[tid])
  {
    var batch := tid;
    var n := aDim[batch];
    var offset := aStart[batch];
    DenseChol(n, A, offset, reg, n * batch, L, offset, sqrt);
  }

  /** `adj_dense_chol`: intentionally empty. Gradients through a factorize-then-solve chain
      flow only through the adjoint of the solve; differentiating here would count them twice. */
  method AdjDenseChol(n: nat, A: array<real>, reg: array<real>, L: array<real>,
                      adjA: array<real>, adjReg: array<real>, adjL: array<real>)
    ensures adjA[..] == old(adjA[..]) && adjReg[..] == old(adjReg[..]) && adjL[..] == old(adjL[..])
  {
  }

  /** `adj_dense_chol_batched`: intentionally empty, for the same reason. */
  method AdjDenseCholBatched(aStart: seq<nat>, aDim: seq<nat>, A: array<real>, reg: array<real>, L: array<real>,
                             adjA: array<real>, adjReg: array<real>, adjL: array<real>)
    ensures adjA[..] == old(adjA[..]) && adjReg[..] == old(adjReg[..]) && adjL[..] == old(adjL[..])
  {
  }
}
