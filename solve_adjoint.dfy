/** The adjoint of the Cholesky solve (warp/native/matnn.h, `adj_dense_solve`,
    `adj_dense_solve_batched`): for x = (L L^T)^-1 b, the incoming gradient adj_x is pushed
    through one more solve, giving adj_b += (L L^T)^-1 adj_x and adj_A += -adj_b' x^T. */
module SolveAdjoint {
  import opened DenseIndexing
  import opened Gemm
  import opened Substitution

  /** B0 with u added entrywise to B0[off .. off + |u|). */
  function AddAt(B0: seq<real>, off: nat, u: seq<real>): (r: seq<real>)
    requires off + |u| <= |B0|
    ensures |r| == |B0|
    ensures forall i :: 0 <= i < |u| ==> r[off + i] == B0[off + i] + u[i]
    ensures forall q :: 0 <= q < |B0| && !(off <= q < off + |u|) ==> r[q] == B0[q]
  {
    seq(|B0|, q requires 0 <= q < |B0| => if off <= q < off + |u| then B0[q] + u[q - off] else B0[q])
  }

  /** The value at flat position q after adding -u v^T to the n x n block at `off`. */
  function OuterUpdateAt(A0: seq<real>, off: nat, n: nat, u: seq<real>, v: seq<real>, q: nat): real
    requires off + n * n <= |A0| && |u| == n && |v| == n && q < |A0|
  {
    if off <= q < off + n * n then
      BlockCoordinates(n, n, q - off);
      A0[q] + -u[(q - off) / n] * v[(q - off) % n]
    else A0[q]
  }

  /** A0 with -u v^T added to the n x n block at `off`. */
  function OuterUpdate(A0: seq<real>, off: nat, n: nat, u: seq<real>, v: seq<real>): seq<real>
    requires off + n * n <= |A0| && |u| == n && |v| == n
  {
    seq(|A0|, q requires 0 <= q < |A0| => OuterUpdateAt(A0, off, n, u, v, q))
  }

  /** Entry (i, j) of the block receives -u[i] v[j]; nothing outside the block changes. */
  lemma OuterUpdateEntries(A0: seq<real>, off: nat, n: nat, u: seq<real>, v: seq<real>)
    requires off + n * n <= |A0| && |u| == n && |v| == n
    ensures |OuterUpdate(A0, off, n, u, v)| == |A0|
    ensures forall i, j :: 0 <= i < n && 0 <= j < n ==>
      off + DenseIndexStride(n, i, j) < |A0|
      && OuterUpdate(A0, off, n, u, v)[off + DenseIndexStride(n, i, j)] == A0[off + DenseIndexStride(n, i, j)] - u[i] * v[j]
    ensures forall q :: 0 <= q < |A0| && !(off <= q < off + n * n) ==> OuterUpdate(A0, off, n, u, v)[q] == A0[q]
  {
    forall i, j | 0 <= i < n && 0 <= j < n
      ensures off + DenseIndexStride(n, i, j) < |A0|
      ensures OuterUpdate(A0, off, n, u, v)[off + DenseIndexStride(n, i, j)] == A0[off + DenseIndexStride(n, i, j)] - u[i] * v[j]
    {
      OuterUpdateInside(A0, off, n, u, v, i, j);
    }
  }

  lemma OuterUpdateInside(A0: seq<real>, off: nat, n: nat, u: seq<real>, v: seq<real>, i: nat, j: nat)
    requires off + n * n <= |A0| && |u| == n && |v| == n && i < n && j < n
    ensures off + DenseIndexStride(n, i, j) < off + n * n <= |A0|
    ensures OuterUpdateAt(A0, off, n, u, v, off + DenseIndexStride(n, i, j)) == A0[off + DenseIndexStride(n, i, j)] - u[i] * v[j]
  {
    RowMajorInRange(n, n, i, j);
    RowMajorDivMod(n, i, j);
  }

  function Negate(u: seq<real>): (r: seq<real>)
    ensures |r| == |u| && forall i :: 0 <= i < |u| ==> r[i] == -u[i]
  {
    seq(|u|, i requires 0 <= i < |u| => -u[i])
  }

  /** The adjoint's update of adj_A is an accumulating multiply of the column -u (n x 1) by
      the row v (1 x n). */
  lemma OuterUpdateIsGemm(A0: seq<real>, off: nat, n: nat, u: seq<real>, v: seq<real>)
    requires off + n * n <= |A0| && |u| == n && |v| == n
    ensures GemmFits(n, n, 1, |u|, 0, |v|, 0, |A0|, off)
    ensures OuterUpdate(A0, off, n, u, v) == GemmResult(false, false, true, n, n, 1, Negate(u), 0, v, 0, A0, off)
  {
    var G := GemmResult(false, false, true, n, n, 1, Negate(u), 0, v, 0, A0, off);
    var O := OuterUpdate(A0, off, n, u, v);
    forall q | 0 <= q < |A0|
      ensures O[q] == G[q]
    {
      if off <= q < off + n * n {
        BlockCoordinates(n, n, q - off);
        var i, j := (q - off) / n, (q - off) % n;
        assert GemmSum(false, false, n, n, 1, Negate(u), 0, v, 0, i, j, 0) == 0.0;
        assert Operand(false, n, 1, Negate(u), 0, i, 0) == -u[i];
        assert Operand(false, 1, n, v, 0, 0, j) == v[j];
      }
    }
  }

  /** `adj_dense_solve`: clears tmp[0..n), solves L L^T tmp = adj_x into it, adds tmp to
      adj_b[0..n) and -tmp x^T to the n x n block of adj_A; nothing else is written. */
  method AdjDenseSolve(n: nat, L: array<real>, lOff: nat, tmp: array<real>, tOff: nat, x: array<real>, xOff: nat,
                       adjA: array<real>, aOff: nat, adjB: array<real>, bOff: nat, adjX: array<real>, axOff: nat)
    returns (ghost y: seq<real>)
    requires lOff + n * n <= L.Length && tOff + n <= tmp.Length && xOff + n <= x.Length
    requires aOff + n * n <= adjA.Length && bOff + n <= adjB.Length && axOff + n <= adjX.Length
    requires tmp != L && tmp != adjX && tmp != x && tmp != adjA && tmp != adjB
    requires adjA != L && adjA != x && adjA != adjX && adjA != adjB
    requires adjB != L && adjB != x && adjB != adjX
    modifies tmp, adjA, adjB
    ensures |y| == n
    ensures Forward(L[..], lOff, n, adjX[axOff..axOff + n], y)
    ensures Backward(L[..], lOff, n, y, tmp[tOff..tOff + n])
    ensures forall q :: 0 <= q < tmp.Length && !(tOff <= q < tOff + n) ==> tmp[q] == old(tmp[q])
    ensures adjB[..] == AddAt(old(adjB[..]), bOff, tmp[tOff..tOff + n])
    ensures adjA[..] == OuterUpdate(old(adjA[..]), aOff, n, tmp[tOff..tOff + n], x[xOff..xOff + n])
  {
    ghost var T0 := tmp[..];
    for i := 0 to n
      modifies tmp
      invariant forall q :: 0 <= q < tmp.Length && !(tOff <= q < tOff + n) ==> tmp[q] == T0[q]
    {
      tmp[tOff + i] := 0.0;
    }

    y := DenseSubs(n, L, lOff, adjX, axOff, tmp, tOff);

    AddToGradB(n, tmp, tOff, adjB, bOff);

    SubtractOuter(n, tmp, tOff, x, xOff, adjA, aOff);
  }

  /** The second loop of `adj_dense_solve`: adj_b[i] += tmp[i]. */
  method AddToGradB(n: nat, tmp: array<real>, tOff: nat, adjB: array<real>, bOff: nat)
    requires tOff + n <= tmp.Length && bOff + n <= adjB.Length && adjB != tmp
    modifies adjB
    ensures adjB[..] == AddAt(old(adjB[..]), bOff, tmp[tOff..tOff + n])
  {
    ghost var B0 := adjB[..];
    for i := 0 to n
      invariant adjB[..] == AddAt(B0, bOff, tmp[tOff..tOff + i])
    {
      adjB[bOff + i] := adjB[bOff + i] + tmp[tOff + i];
      assert adjB[..] == AddAt(B0, bOff, tmp[tOff..tOff + i + 1]);
    }
  }

  /** The last loop nest of `adj_dense_solve`: adj_A[i*n + j] += -tmp[i] * x[j]. */
  method SubtractOuter(n: nat, tmp: array<real>, tOff: nat, x: array<real>, xOff: nat, adjA: array<real>, aOff: nat)
    requires tOff + n <= tmp.Length && xOff + n <= x.Length && aOff + n * n <= adjA.Length
    requires adjA != tmp && adjA != x
    modifies adjA
    ensures adjA[..] == OuterUpdate(old(adjA[..]), aOff, n, tmp[tOff..tOff + n], x[xOff..xOff + n])
  {
    ghost var A0, u, v := adjA[..], tmp[tOff..tOff + n], x[xOff..xOff + n];
    for i := 0 to n
      invariant forall q :: 0 <= q < aOff + i * n && q < adjA.Length ==> adjA[q] == OuterUpdateAt(A0, aOff, n, u, v, q)
      invariant forall q :: 0 <= q < adjA.Length && aOff + i * n <= q ==> adjA[q] == A0[q]
    {
      SubtractOuterRow(n, tmp, tOff, x, xOff, adjA, aOff, i, A0);
      NextRow(n, i);
    }
  }

  /** Row i of the last loop nest of `adj_dense_solve`. */
  method SubtractOuterRow(n: nat, tmp: array<real>, tOff: nat, x: array<real>, xOff: nat, adjA: array<real>, aOff: nat,
                          i: nat, ghost A0: seq<real>)
    requires tOff + n <= tmp.Length && xOff + n <= x.Length && aOff + n * n <= adjA.Length && i < n
    requires adjA != tmp && adjA != x && |A0| == adjA.Length
    requires forall q :: 0 <= q < aOff + i * n && q < adjA.Length ==>
      adjA[q] == OuterUpdateAt(A0, aOff, n, tmp[tOff..tOff + n], x[xOff..xOff + n], q)
    requires forall q :: 0 <= q < adjA.Length && aOff + i * n <= q ==> adjA[q] == A0[q]
    modifies adjA
    ensures forall q :: 0 <= q < aOff + i * n + n && q < adjA.Length ==>
      adjA[q] == OuterUpdateAt(A0, aOff, n, tmp[tOff..tOff + n], x[xOff..xOff + n], q)
    ensures forall q :: 0 <= q < adjA.Length && aOff + i * n + n <= q ==> adjA[q] == A0[q]
  {
    ghost var u, v := tmp[tOff..tOff + n], x[xOff..xOff + n];
    ghost var rowStart := aOff + i * n;
    for j := 0 to n
      invariant forall q :: 0 <= q < rowStart + j && q < adjA.Length ==> adjA[q] == OuterUpdateAt(A0, aOff, n, u, v, q)
      invariant forall q :: 0 <= q < adjA.Length && rowStart + j <= q ==> adjA[q] == A0[q]
    {
      OuterUpdateInside(A0, aOff, n, u, v, i, j);
      ghost var d := -tmp[tOff + i] * x[xOff + j];
      assert d == -u[i] * v[j];
      adjA[aOff + DenseIndexStride(n, i, j)] := adjA[aOff + DenseIndexStride(n, i, j)] + -tmp[tOff + i] * x[xOff + j];
    }
  }

  /** `adj_dense_solve_batched`: lane `tid` runs the adjoint on batch element tid, with the
      factor and the block of adj_A at aStart[tid] and every vector at bStart[tid]. */
  method AdjDenseSolveBatched(bStart: seq<nat>, aStart: seq<nat>, aDim: seq<nat>, L: array<real>, tmp: array<real>,
                              x: array<real>, adjA: array<real>, adjB: array<real>, adjX: array<real>, tid: nat)
    returns (ghost y: seq<real>)
    requires tid < |bStart| && tid < |aStart| && tid < |aDim|
    requires aStart[tid] + aDim[tid] * aDim[tid] <= L.Length && aStart[tid] + aDim[tid] * aDim[tid] <= adjA.Length
    requires bStart[tid] + aDim[tid] <= tmp.Length && bStart[tid] + aDim[tid] <= x.Length
    requires bStart[tid] + aDim[tid] <= adjB.Length && bStart[tid] + aDim[tid] <= adjX.Length
    requires tmp != L && tmp != adjX && tmp != x && tmp != adjA && tmp != adjB
    requires adjA != L && adjA != x && adjA != adjX && adjA != adjB
    requires adjB != L && adjB != x && adjB != adjX
    modifies tmp, adjA, adjB
    ensures var n, a, b := aDim[tid], aStart[tid], bStart[tid];
      |y| == n
      && Forward(L[..], a, n, adjX[b..b + n], y)
      && Backward(L[..], a, n, y, tmp[b..b + n])
      && (forall q :: 0 <= q < tmp.Length && !(b <= q < b + n) ==> tmp[q] == old(tmp[q]))
      && adjB[..] == AddAt(old(adjB[..]), b, tmp[b..b + n])
      && adjA[..] == OuterUpdate(old(adjA[..]), a, n, tmp[b..b + n], x[b..b + n])
  {
    var batch := tid;
    y := AdjDenseSolve(aDim[batch], L, aStart[batch], tmp, bStart[batch], x, bStart[batch],
                       adjA, aStart[batch], adjB, bStart[batch], adjX, bStart[batch]);
  }

  /** With a nonzero diagonal, the vector the adjoint adds to adj_b solves L L^T w = adj_x. */
  lemma AdjointSolvesTransposedSystem(L: seq<real>, lOff: nat, n: nat, adjX: seq<real>, y: seq<real>, w: seq<real>)
    requires lOff + n * n <= |L| && |adjX| == n && |y| == n && |w| == n
    requires NonzeroDiagonal(L, lOff, n)
    requires Forward(L, lOff, n, adjX, y) && Backward(L, lOff, n, y, w)
    ensures LowerMul(L, lOff, n, TransposeMul(L, lOff, n, w)) == adjX
  {
    SubstitutionSolves(L, lOff, n, adjX, y, w);
  }
}
