/** Forward and backward substitution with a Cholesky factor (warp/native/matnn.h,
    `dense_subs`, `dense_solve`, `dense_solve_batched`, and the empty `adj_dense_subs`).
    Only the lower triangle of the factor's block is read. */
module Substitution {
  import opened DenseIndexing

  /** Sum over j < k of L[i][j] * v[j]: row i of the lower triangle against v. */
  function LowerSum(L: seq<real>, off: nat, n: nat, i: nat, v: seq<real>, k: nat): real
    requires i < n && k <= n && k <= |v| && off + n * n <= |L|
    decreases k
  {
    if k == 0 then 0.0 else LowerSum(L, off, n, i, v, k - 1) + Element(L, off, n, i, k - 1) * v[k - 1]
  }

  /** Sum over i < j < k of L[j][i] * v[j]: column i of the lower triangle, strictly below
      the diagonal, against v (row i of the transpose, strictly right of the diagonal). */
  function ColumnSum(L: seq<real>, off: nat, n: nat, i: nat, v: seq<real>, k: nat): real
    requires i < n && k <= n && k <= |v| && off + n * n <= |L|
    decreases k
  {
    if k <= i + 1 then 0.0 else ColumnSum(L, off, n, i, v, k - 1) + Element(L, off, n, k - 1, i) * v[k - 1]
  }

  /** Entry i of the forward pass: y[i] = (b[i] - sum over j < i of L[i][j] y[j]) / L[i][i]. */
  ghost predicate ForwardAt(L: seq<real>, off: nat, n: nat, b: seq<real>, y: seq<real>, i: nat)
    requires off + n * n <= |L| && |b| == n && |y| == n && i < n
  {
    y[i] == Quot(b[i] - LowerSum(L, off, n, i, y, i), Element(L, off, n, i, i))
  }

  /** The first k entries of y are those of the forward pass. */
  ghost predicate ForwardUpTo(L: seq<real>, off: nat, n: nat, b: seq<real>, y: seq<real>, k: nat)
    requires off + n * n <= |L| && |b| == n && |y| == n && k <= n
  {
    forall i :: 0 <= i < k ==> ForwardAt(L, off, n, b, y, i)
  }

  /** y is the result of forward substitution of b through the lower triangle. */
  ghost predicate Forward(L: seq<real>, off: nat, n: nat, b: seq<real>, y: seq<real>)
    requires off + n * n <= |L| && |b| == n && |y| == n
  {
    ForwardUpTo(L, off, n, b, y, n)
  }

  /** Entry i of the backward pass: x[i] = (y[i] - sum over j > i of L[j][i] x[j]) / L[i][i]. */
  ghost predicate BackwardAt(L: seq<real>, off: nat, n: nat, y: seq<real>, x: seq<real>, i: nat)
    requires off + n * n <= |L| && |y| == n && |x| == n && i < n
  {
    x[i] == Quot(y[i] - ColumnSum(L, off, n, i, x, n), Element(L, off, n, i, i))
  }

  /** Entries k and beyond of x are those of the backward pass. */
  ghost predicate BackwardFrom(L: seq<real>, off: nat, n: nat, y: seq<real>, x: seq<real>, k: nat)
    requires off + n * n <= |L| && |y| == n && |x| == n
  {
    forall i :: k <= i < n ==> BackwardAt(L, off, n, y, x, i)
  }

  /** x is the result of backward substitution of y through the transposed lower triangle. */
  ghost predicate Backward(L: seq<real>, off: nat, n: nat, y: seq<real>, x: seq<real>)
    requires off + n * n <= |L| && |y| == n && |x| == n
  {
    BackwardFrom(L, off, n, y, x, 0)
  }

  /** The lower triangle (diagonal included) times v. */
  function LowerMul(L: seq<real>, off: nat, n: nat, v: seq<real>): (r: seq<real>)
    requires off + n * n <= |L| && |v| == n
    ensures |r| == n
  {
    seq(n, i requires 0 <= i < n => LowerSum(L, off, n, i, v, i + 1))
  }

  /** The transpose of the lower triangle (diagonal included) times v. */
  function TransposeMul(L: seq<real>, off: nat, n: nat, v: seq<real>): (r: seq<real>)
    requires off + n * n <= |L| && |v| == n
    ensures |r| == n
  {
    seq(n, i requires 0 <= i < n => Element(L, off, n, i, i) * v[i] + ColumnSum(L, off, n, i, v, n))
  }

  ghost predicate NonzeroDiagonal(L: seq<real>, off: nat, n: nat)
    requires off + n * n <= |L|
  {
    forall i :: 0 <= i < n ==> Element(L, off, n, i, i) != 0.0
  }

  /** The row sum reads only v[0..k). */
  lemma {:induction false} LowerSumFrame(L: seq<real>, off: nat, n: nat, i: nat, v: seq<real>, w: seq<real>, k: nat)
    requires i < n && k <= n && k <= |v| && k <= |w| && off + n * n <= |L|
    requires forall j :: 0 <= j < k ==> v[j] == w[j]
    ensures LowerSum(L, off, n, i, v, k) == LowerSum(L, off, n, i, w, k)
  {
    if k > 0 {
      LowerSumFrame(L, off, n, i, v, w, k - 1);
    }
  }

  /** The column sum reads only v(i..k). */
  lemma {:induction false} ColumnSumFrame(L: seq<real>, off: nat, n: nat, i: nat, v: seq<real>, w: seq<real>, k: nat)
    requires i < n && k <= n && k <= |v| && k <= |w| && off + n * n <= |L|
    requires forall j :: i < j < k ==> v[j] == w[j]
    ensures ColumnSum(L, off, n, i, v, k) == ColumnSum(L, off, n, i, w, k)
  {
    if k > i + 1 {
      ColumnSumFrame(L, off, n, i, v, w, k - 1);
    }
  }

  /** An earlier forward entry survives a change of y at or after it. */
  lemma ForwardKept(L: seq<real>, off: nat, n: nat, b: seq<real>, y: seq<real>, y': seq<real>, i: nat)
    requires off + n * n <= |L| && |b| == n && |y| == n && |y'| == n && i < n
    requires ForwardAt(L, off, n, b, y, i)
    requires forall j :: 0 <= j <= i ==> y[j] == y'[j]
    ensures ForwardAt(L, off, n, b, y', i)
  {
    LowerSumFrame(L, off, n, i, y, y', i);
  }

  /** Storing the forward value of entry i keeps the entries before it. */
  lemma ForwardStep(L: seq<real>, off: nat, n: nat, b: seq<real>, y: seq<real>, i: nat, v: real, y': seq<real>)
    requires off + n * n <= |L| && |b| == n && |y| == n && i < n && y' == y[i := v]
    requires ForwardUpTo(L, off, n, b, y, i)
    requires v == Quot(b[i] - LowerSum(L, off, n, i, y, i), Element(L, off, n, i, i))
    ensures ForwardUpTo(L, off, n, b, y', i + 1)
  {
    forall i' | 0 <= i' < i
      ensures ForwardAt(L, off, n, b, y', i')
    {
      ForwardKept(L, off, n, b, y, y', i');
    }
    LowerSumFrame(L, off, n, i, y, y', i);
  }

  /** A later backward entry survives a change of x at or before it. */
  lemma BackwardKept(L: seq<real>, off: nat, n: nat, y: seq<real>, x: seq<real>, x': seq<real>, i: nat)
    requires off + n * n <= |L| && |y| == n && |x| == n && |x'| == n && i < n
    requires BackwardAt(L, off, n, y, x, i)
    requires forall j :: i <= j < n ==> x[j] == x'[j]
    ensures BackwardAt(L, off, n, y, x', i)
  {
    ColumnSumFrame(L, off, n, i, x, x', n);
  }

  /** Entries after i survive a change of x that leaves them alone. */
  lemma BackwardFromKept(L: seq<real>, off: nat, n: nat, y: seq<real>, x: seq<real>, x': seq<real>, i: nat)
    requires off + n * n <= |L| && |y| == n && |x| == n && |x'| == n && i < n
    requires BackwardFrom(L, off, n, y, x, i + 1)
    requires forall j :: i < j < n ==> x[j] == x'[j]
    ensures BackwardFrom(L, off, n, y, x', i + 1)
  {
    forall i' | i < i' < n
      ensures BackwardAt(L, off, n, y, x', i')
    {
      BackwardKept(L, off, n, y, x, x', i');
    }
  }

  /** Storing the backward value of entry i makes entry i that of the backward pass. */
  lemma BackwardSet(L: seq<real>, off: nat, n: nat, y: seq<real>, x: seq<real>, i: nat, v: real, x': seq<real>)
    requires off + n * n <= |L| && |y| == n && |x| == n && i < n && x' == x[i := v]
    requires v == Quot(y[i] - ColumnSum(L, off, n, i, x, n), Element(L, off, n, i, i))
    ensures BackwardAt(L, off, n, y, x', i)
  {
    ColumnSumFrame(L, off, n, i, x, x', n);
  }

  /** Storing the backward value of entry i keeps the entries after it. */
  lemma BackwardStep(L: seq<real>, off: nat, n: nat, y: seq<real>, x: seq<real>, i: nat, v: real, x': seq<real>)
    requires off + n * n <= |L| && |y| == n && |x| == n && i < n && x' == x[i := v]
    requires BackwardFrom(L, off, n, y, x, i + 1)
    requires v == Quot(y[i] - ColumnSum(L, off, n, i, x, n), Element(L, off, n, i, i))
    ensures BackwardFrom(L, off, n, y, x', i)
  {
    BackwardFromKept(L, off, n, y, x, x', i);
    BackwardSet(L, off, n, y, x, i, v, x');
  }

  /** With a nonzero pivot, entry i of each pass is entry i of its triangular system. */
  lemma SolvesAt(L: seq<real>, off: nat, n: nat, b: seq<real>, y: seq<real>, x: seq<real>, i: nat)
    requires off + n * n <= |L| && |b| == n && |y| == n && |x| == n && i < n
    requires Element(L, off, n, i, i) != 0.0
    ensures ForwardAt(L, off, n, b, y, i) <==> LowerMul(L, off, n, y)[i] == b[i]
    ensures BackwardAt(L, off, n, y, x, i) <==> TransposeMul(L, off, n, x)[i] == y[i]
  {
    var d := Element(L, off, n, i, i);
    var S, C := LowerSum(L, off, n, i, y, i), ColumnSum(L, off, n, i, x, n);
    assert LowerMul(L, off, n, y)[i] == S + d * y[i];
    assert TransposeMul(L, off, n, x)[i] == d * x[i] + C;
    PivotEntry(y[i], LowerMul(L, off, n, y)[i], S, d, b[i], false);
    PivotEntry(x[i], TransposeMul(L, off, n, x)[i], C, d, y[i], true);
  }

  /** With a nonzero pivot d, the substitution's value (c - s) / d is the one entry e that
      makes the row's sum s + d e equal c. */
  lemma PivotEntry(e: real, r: real, s: real, d: real, c: real, diagonalFirst: bool)
    requires d != 0.0
    requires if diagonalFirst then r == d * e + s else r == s + d * e
    ensures e == Quot(c - s, d) <==> r == c
  {
    QuotUnique(c - s, d, e);
  }

  /** With a nonzero diagonal, the two passes are exactly the two triangular systems:
      y and x come out of the substitutions if and only if L^T x = y and L y = b, so in
      particular L L^T x = b. */
  lemma SubstitutionSolves(L: seq<real>, off: nat, n: nat, b: seq<real>, y: seq<real>, x: seq<real>)
    requires off + n * n <= |L| && |b| == n && |y| == n && |x| == n
    requires NonzeroDiagonal(L, off, n)
    ensures Forward(L, off, n, b, y) && Backward(L, off, n, y, x)
        <==> y == TransposeMul(L, off, n, x) && LowerMul(L, off, n, y) == b
    ensures Forward(L, off, n, b, y) && Backward(L, off, n, y, x)
        ==> LowerMul(L, off, n, TransposeMul(L, off, n, x)) == b
  {
    forall i | 0 <= i < n
      ensures ForwardAt(L, off, n, b, y, i) <==> LowerMul(L, off, n, y)[i] == b[i]
      ensures BackwardAt(L, off, n, y, x, i) <==> TransposeMul(L, off, n, x)[i] == y[i]
    {
      SolvesAt(L, off, n, b, y, x, i);
    }
    if Forward(L, off, n, b, y) && Backward(L, off, n, y, x) {
      assert y == TransposeMul(L, off, n, x);
      assert LowerMul(L, off, n, y) == b;
    }
  }

  /** The inner loop of the forward pass. */
  method ForwardDot(n: nat, L: array<real>, lOff: nat, x: array<real>, xOff: nat, i: nat, s0: real) returns (s: real)
    requires i < n && lOff + n * n <= L.Length && xOff + n <= x.Length
    ensures s == s0 - LowerSum(L[..], lOff, n, i, x[xOff..xOff + n], i)
  {
    s := s0;
    for j := 0 to i
      invariant s == s0 - LowerSum(L[..], lOff, n, i, x[xOff..xOff + n], j)
    {
      RowMajorInRange(n, n, i, j);
      s := s - L[lOff + DenseIndexStride(n, i, j)] * x[xOff + j];
    }
  }

  /** The inner loop of the backward pass. */
  method BackwardDot(n: nat, L: array<real>, lOff: nat, x: array<real>, xOff: nat, i: nat, s0: real) returns (s: real)
    requires i < n && lOff + n * n <= L.Length && xOff + n <= x.Length
    ensures s == s0 - ColumnSum(L[..], lOff, n, i, x[xOff..xOff + n], n)
  {
    s := s0;
    ghost var xs := x[xOff..xOff + n];
    for j := i + 1 to n
      invariant s == s0 - ColumnSum(L[..], lOff, n, i, xs, j)
    {
      RowMajorInRange(n, n, j, i);
      var e, xj := L[lOff + DenseIndexStride(n, j, i)], x[xOff + j];
      BackwardDotStep(L[..], lOff, n, i, xs, j, s, s0, e, xj);
      s := s - e * xj;
    }
  }

  /** One step of the backward inner loop: taking L[j][i] x[j] off the running value extends
      the column sum by term j. */
  lemma BackwardDotStep(L: seq<real>, lOff: nat, n: nat, i: nat, xs: seq<real>, j: nat,
                        s: real, s0: real, e: real, xj: real)
    requires i < j < n && lOff + n * n <= |L| && |xs| == n
    requires e == Element(L, lOff, n, j, i) && xj == xs[j]
    requires s == s0 - ColumnSum(L, lOff, n, i, xs, j)
    ensures s - e * xj == s0 - ColumnSum(L, lOff, n, i, xs, j + 1)
  {
    SubtractStep(s, s - e * xj, s0, ColumnSum(L, lOff, n, i, xs, j), ColumnSum(L, lOff, n, i, xs, j + 1),
                 e, xj, Element(L, lOff, n, j, i), xs[j]);
  }

  /** The first loop of `dense_subs`: x[0..n) becomes the forward substitution of b. */
  method ForwardPass(n: nat, L: array<real>, lOff: nat, b: array<real>, bOff: nat, x: array<real>, xOff: nat)
    requires lOff + n * n <= L.Length && bOff + n <= b.Length && xOff + n <= x.Length
    requires x != L && x != b
    modifies x
    ensures Forward(L[..], lOff, n, b[bOff..bOff + n], x[xOff..xOff + n])
    ensures forall q :: 0 <= q < x.Length && !(xOff <= q < xOff + n) ==> x[q] == old(x[q])
  {
    ghost var x0, Ls, bs := x[..], L[..], b[bOff..bOff + n];
    for i := 0 to n
      invariant ForwardUpTo(Ls, lOff, n, bs, x[xOff..xOff + n], i)
      invariant forall q :: 0 <= q < x.Length && !(xOff <= q < xOff + n) ==> x[q] == x0[q]
    {
      RowMajorInRange(n, n, i, i);
      var s := ForwardDot(n, L, lOff, x, xOff, i, b[bOff + i]);
      ghost var xs := x[xOff..xOff + n];
      x[xOff + i] := Quot(s, L[lOff + DenseIndexStride(n, i, i)]);
      assert x[xOff..xOff + n] == xs[i := x[xOff + i]];
      ForwardStep(Ls, lOff, n, bs, xs, i, x[xOff + i], x[xOff..xOff + n]);
    }
  }

  /** The second loop of `dense_subs`: from the last row up, x[0..n) becomes the backward
      substitution of the forward result y it starts from. */
  method BackwardPass(n: nat, L: array<real>, lOff: nat, x: array<real>, xOff: nat, ghost y: seq<real>)
    requires lOff + n * n <= L.Length && xOff + n <= x.Length && x != L
    requires x[xOff..xOff + n] == y
    modifies x
    ensures Backward(L[..], lOff, n, y, x[xOff..xOff + n])
    ensures forall q :: 0 <= q < x.Length && !(xOff <= q < xOff + n) ==> x[q] == old(x[q])
  {
    ghost var x0, Ls := x[..], L[..];
    var i := n;
    while i > 0
      invariant 0 <= i <= n
      invariant forall i' :: 0 <= i' < i ==> x[xOff + i'] == y[i']
      invariant BackwardFrom(Ls, lOff, n, y, x[xOff..xOff + n], i)
      invariant forall q :: 0 <= q < x.Length && !(xOff <= q < xOff + n) ==> x[q] == x0[q]
    {
      i := i - 1;
      RowMajorInRange(n, n, i, i);
      var s := BackwardDot(n, L, lOff, x, xOff, i, x[xOff + i]);
      ghost var xs := x[xOff..xOff + n];
      x[xOff + i] := Quot(s, L[lOff + DenseIndexStride(n, i, i)]);
      assert x[xOff..xOff + n] == xs[i := x[xOff + i]];
      BackwardStep(Ls, lOff, n, y, xs, i, x[xOff + i], x[xOff..xOff + n]);
    }
  }

  /** `dense_subs`: solves L L^T x = b in place in x[0..n), through the intermediate y of the
      forward pass; nothing else in x is written. */
  method DenseSubs(n: nat, L: array<real>, lOff: nat, b: array<real>, bOff: nat, x: array<real>, xOff: nat)
    returns (ghost y: seq<real>)
    requires lOff + n * n <= L.Length && bOff + n <= b.Length && xOff + n <= x.Length
    requires x != L && x != b
    modifies x
    ensures |y| == n
    ensures Forward(L[..], lOff, n, b[bOff..bOff + n], y)
    ensures Backward(L[..], lOff, n, y, x[xOff..xOff + n])
    ensures forall q :: 0 <= q < x.Length && !(xOff <= q < xOff + n) ==> x[q] == old(x[q])
  {
    ForwardPass(n, L, lOff, b, bOff, x, xOff);
    y := x[xOff..xOff + n];
    BackwardPass(n, L, lOff, x, xOff, y);
  }

  /** `dense_solve`: substitution with the factor; A and the scratch buffer are not read. */
  method DenseSolve(n: nat, A: array<real>, aOff: nat, L: array<real>, lOff: nat, b: array<real>, bOff: nat,
                    tmp: array?<real>, x: array<real>, xOff: nat)
    returns (ghost y: seq<real>)
    requires lOff + n * n <= L.Length && bOff + n <= b.Length && xOff + n <= x.Length
    requires x != L && x != b
    modifies x
    ensures |y| == n
    ensures Forward(L[..], lOff, n, b[bOff..bOff + n], y)
    ensures Backward(L[..], lOff, n, y, x[xOff..xOff + n])
    ensures forall q :: 0 <= q < x.Length && !(xOff <= q < xOff + n) ==> x[q] == old(x[q])
  {
    y := DenseSubs(n, L, lOff, b, bOff, x, xOff);
  }

  /** `dense_solve_batched`: lane `tid` solves batch element tid, whose factor starts at
      aStart[tid] and whose right-hand side and solution start at bStart[tid]. */
  method DenseSolveBatched(bStart: seq<nat>, aStart: seq<nat>, aDim: seq<nat>, A: array<real>, L: array<real>,
                           b: array<real>, x: array<real>, tid: nat)
    returns (ghost y: seq<real>)
    requires tid < |bStart| && tid < |aStart| && tid < |aDim|
    requires aStart[tid] + aDim[tid] * aDim[tid] <= L.Length
    requires bStart[tid] + aDim[tid] <= b.Length && bStart[tid] + aDim[tid] <= x.Length
    requires x != L && x != b
    modifies x
    ensures |y| == aDim[tid]
    ensures Forward(L[..], aStart[tid], aDim[tid], b[bStart[tid]..bStart[tid] + aDim[tid]], y)
    ensures Backward(L[..], aStart[tid], aDim[tid], y, x[bStart[tid]..bStart[tid] + aDim[tid]])
    ensures forall q :: 0 <= q < x.Length && !(bStart[tid] <= q < bStart[tid] + aDim[tid]) ==> x[q] == old(x[q])
  {
    var batch := tid;
    y := DenseSolve(aDim[batch], A, aStart[batch], L, aStart[batch], b, bStart[batch], null, x, bStart[batch]);
  }

  /** `adj_dense_subs`: intentionally empty; gradients go through the adjoint of the solve. */
  method AdjDenseSubs(n: nat, L: array<real>, b: array<real>, x: array<real>,
                      adjL: array<real>, adjB: array<real>, adjX: array<real>)
    ensures adjL[..] == old(adjL[..]) && adjB[..] == old(adjB[..]) && adjX[..] == old(adjX[..])
  {
  }
}
